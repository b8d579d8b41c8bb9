/** HandRank: a hand's category plus its kicker ranks, ordered lexicographically. */
module HandRanks {
  import opened Cards
  import opened Wrappers

  /** HandRank.PokerRank, weakest first. */
  datatype Category =
    | HIGH_CARD | PAIR | TWO_PAIR | THREE_OF_A_KIND | STRAIGHT
    | FLUSH | FULL_HOUSE | FOUR_OF_A_KIND | STRAIGHT_FLUSH | ROYAL_FLUSH
  {
    /** getValue(): HIGH_CARD = 1 up to ROYAL_FLUSH = 10. */
    function Value(): int {
      match this
      case HIGH_CARD => 1
      case PAIR => 2
      case TWO_PAIR => 3
      case THREE_OF_A_KIND => 4
      case STRAIGHT => 5
      case FLUSH => 6
      case FULL_HOUSE => 7
      case FOUR_OF_A_KIND => 8
      case STRAIGHT_FLUSH => 9
      case ROYAL_FLUSH => 10
    }

    /** getDisplayName(). */
    function DisplayName(): string {
      match this
      case HIGH_CARD => "High Card"
      case PAIR => "Pair"
      case TWO_PAIR => "Two Pair"
      case THREE_OF_A_KIND => "Three of a Kind"
      case STRAIGHT => "Straight"
      case FLUSH => "Flush"
      case FULL_HOUSE => "Full House"
      case FOUR_OF_A_KIND => "Four of a Kind"
      case STRAIGHT_FLUSH => "Straight Flush"
      case ROYAL_FLUSH => "Royal Flush"
    }

    /** Enum.name(). */
    function Name(): string {
      match this
      case HIGH_CARD => "HIGH_CARD"
      case PAIR => "PAIR"
      case TWO_PAIR => "TWO_PAIR"
      case THREE_OF_A_KIND => "THREE_OF_A_KIND"
      case STRAIGHT => "STRAIGHT"
      case FLUSH => "FLUSH"
      case FULL_HOUSE => "FULL_HOUSE"
      case FOUR_OF_A_KIND => "FOUR_OF_A_KIND"
      case STRAIGHT_FLUSH => "STRAIGHT_FLUSH"
      case ROYAL_FLUSH => "ROYAL_FLUSH"
    }
  }

  /** Distinct categories have distinct values. */
  lemma CategoryValueInjective(a: Category, b: Category)
    ensures a.Value() == b.Value() <==> a == b
  {
  }

  /** An immutable hand rank; the kickers are meant to be in descending order. */
  datatype HandRank = HandRank(category: Category, kickers: seq<Rank>)

  /** Integer.compare: -1, 0 or 1. */
  function IntCompare(a: int, b: int): int {
    if a < b then -1 else if a > b then 1 else 0
  }

  /** The kicker part of compareTo: the first differing pair of kickers decides
      (by ordinal difference, as Enum.compareTo does); when one list runs out,
      the longer list is greater. */
  function CompareKickers(a: seq<Rank>, b: seq<Rank>): int
  {
    if a == [] || b == [] then IntCompare(|a|, |b|)
    else if a[0] != b[0] then a[0].Ordinal() - b[0].Ordinal()
    else CompareKickers(a[1..], b[1..])
  }

  /** HandRank.compareTo: category value first, then kickers. */
  function Compare(x: HandRank, y: HandRank): int
  {
    var byCategory := IntCompare(x.category.Value(), y.category.Value());
    if byCategory != 0 then byCategory else CompareKickers(x.kickers, y.kickers)
  }

  lemma {:induction false} CompareKickersZero(a: seq<Rank>, b: seq<Rank>)
    ensures CompareKickers(a, b) == 0 <==> a == b
  {
    if a != [] && b != [] && a[0] == b[0] {
      CompareKickersZero(a[1..], b[1..]);
      assert a == [a[0]] + a[1..] && b == [b[0]] + b[1..];
    }
  }

  lemma {:induction false} CompareKickersAntisymmetric(a: seq<Rank>, b: seq<Rank>)
    ensures CompareKickers(a, b) == -CompareKickers(b, a)
  {
    if a != [] && b != [] && a[0] == b[0] {
      CompareKickersAntisymmetric(a[1..], b[1..]);
    }
  }

  lemma {:induction false} CompareKickersTransitive(a: seq<Rank>, b: seq<Rank>, c: seq<Rank>)
    ensures CompareKickers(a, b) <= 0 && CompareKickers(b, c) <= 0 ==> CompareKickers(a, c) <= 0
    ensures CompareKickers(a, b) < 0 && CompareKickers(b, c) <= 0 ==> CompareKickers(a, c) < 0
    ensures CompareKickers(a, b) <= 0 && CompareKickers(b, c) < 0 ==> CompareKickers(a, c) < 0
  {
    if a != [] && b != [] && c != [] && a[0] == b[0] == c[0] {
      CompareKickersTransitive(a[1..], b[1..], c[1..]);
    }
  }

  /** compareTo(x, x) == 0, and more: compareTo returns 0 exactly for equal ranks. */
  lemma CompareZeroIffEqual(x: HandRank, y: HandRank)
    ensures Compare(x, x) == 0
    ensures Compare(x, y) == 0 <==> x == y
  {
    CompareKickersZero(x.kickers, x.kickers);
    CompareKickersZero(x.kickers, y.kickers);
  }

  /** sign(compareTo(a, b)) == -sign(compareTo(b, a)). */
  lemma CompareAntisymmetric(x: HandRank, y: HandRank)
    ensures Compare(x, y) > 0 <==> Compare(y, x) < 0
    ensures Compare(x, y) == 0 <==> Compare(y, x) == 0
  {
    CompareKickersAntisymmetric(x.kickers, y.kickers);
  }

  /** compareTo is transitive, for both the weak and the strict order. */
  lemma CompareTransitive(x: HandRank, y: HandRank, z: HandRank)
    ensures Compare(x, y) <= 0 && Compare(y, z) <= 0 ==> Compare(x, z) <= 0
    ensures Compare(x, y) < 0 && Compare(y, z) < 0 ==> Compare(x, z) < 0
  {
    CompareKickersTransitive(x.kickers, y.kickers, z.kickers);
  }

  /** The category decides whenever categories differ, whatever the kickers. */
  lemma CategoryDominates(x: HandRank, y: HandRank)
    requires x.category.Value() > y.category.Value()
    ensures Compare(x, y) > 0 && Compare(y, x) < 0
  {
  }

  /** With equal categories the first differing kicker decides, by rank. */
  lemma {:induction false} FirstDifferingKickerDecides(x: HandRank, y: HandRank, i: nat)
    requires x.category == y.category
    requires i < |x.kickers| && i < |y.kickers|
    requires x.kickers[..i] == y.kickers[..i] && x.kickers[i] != y.kickers[i]
    ensures Compare(x, y) > 0 <==> x.kickers[i].Ordinal() > y.kickers[i].Ordinal()
  {
    KickersFirstDifference(x.kickers, y.kickers, i);
  }

  lemma {:induction false} KickersFirstDifference(a: seq<Rank>, b: seq<Rank>, i: nat)
    requires i < |a| && i < |b| && a[..i] == b[..i] && a[i] != b[i]
    ensures CompareKickers(a, b) == a[i].Ordinal() - b[i].Ordinal()
  {
    if i > 0 {
      assert a[0] == a[..i][0] == b[..i][0] == b[0];
      assert a[1..][..i - 1] == a[..i][1..] == b[..i][1..] == b[1..][..i - 1];
      KickersFirstDifference(a[1..], b[1..], i - 1);
    }
  }

  /** When one kicker list extends the other, the longer one is greater. */
  lemma {:induction false} LongerKickersWin(x: HandRank, y: HandRank)
    requires x.category == y.category
    requires |y.kickers| < |x.kickers| && x.kickers[..|y.kickers|] == y.kickers
    ensures Compare(x, y) > 0
  {
    KickersPrefix(x.kickers, y.kickers);
  }

  lemma {:induction false} KickersPrefix(a: seq<Rank>, b: seq<Rank>)
    requires |b| < |a| && a[..|b|] == b
    ensures CompareKickers(a, b) > 0
  {
    if b != [] {
      assert a[0] == b[0];
      assert a[1..][..|b| - 1] == b[1..];
      KickersPrefix(a[1..], b[1..]);
    }
  }

  /** The kicker symbols, one character each, concatenated. */
  function Symbols(kickers: seq<Rank>): (s: string)
    ensures |s| == |kickers|
    ensures forall i :: 0 <= i < |kickers| ==> [s[i]] == kickers[i].Symbol()
  {
    if kickers == [] then [] else kickers[0].Symbol() + Symbols(kickers[1..])
  }

  /** The kicker symbols separated by ", ". */
  function SymbolList(kickers: seq<Rank>): string
  {
    if kickers == [] then []
    else if |kickers| == 1 then kickers[0].Symbol()
    else kickers[0].Symbol() + ", " + SymbolList(kickers[1..])
  }

  /** HandRank.toString: the display name, followed by the kickers in parentheses when there are any. */
  function ToDisplayString(h: HandRank): string
  {
    h.category.DisplayName() + (if h.kickers == [] then "" else " (" + SymbolList(h.kickers) + ")")
  }

  /** The list puts kicker i at position 3i, with ", " between neighbours. */
  lemma {:induction false} SymbolListLayout(k: seq<Rank>)
    requires k != []
    ensures |SymbolList(k)| == 3 * |k| - 2
    ensures forall i :: 0 <= i < |k| ==> [SymbolList(k)[3 * i]] == k[i].Symbol()
    ensures forall i :: 0 <= i < |k| - 1 ==> SymbolList(k)[3 * i + 1] == ',' && SymbolList(k)[3 * i + 2] == ' '
  {
    var s := SymbolList(k);
    assert |k[0].Symbol()| == 1;
    if |k| > 1 {
      SymbolListLayout(k[1..]);
      var t := SymbolList(k[1..]);
      assert s == k[0].Symbol() + ", " + t;
      forall i | 1 <= i < |k|
        ensures [s[3 * i]] == k[i].Symbol()
      {
        assert s[3 * i] == t[3 * (i - 1)];
      }
      forall i | 1 <= i < |k| - 1
        ensures s[3 * i + 1] == ',' && s[3 * i + 2] == ' '
      {
        assert s[3 * i + 1] == t[3 * (i - 1) + 1];
        assert s[3 * i + 2] == t[3 * (i - 1) + 2];
      }
    }
  }

  /** The display text is the display name alone without kickers; otherwise the
      name, " (", the kicker symbols separated by ", ", and ")". */
  lemma DisplayShape(h: HandRank)
    ensures h.kickers == [] ==> ToDisplayString(h) == h.category.DisplayName()
    ensures h.kickers != [] ==>
      var s, n := ToDisplayString(h), |h.category.DisplayName()|;
      && |s| == n + 3 * |h.kickers| + 1
      && s[..n] == h.category.DisplayName() && s[n] == ' ' && s[n + 1] == '(' && s[|s| - 1] == ')'
      && (forall i :: 0 <= i < |h.kickers| ==> [s[n + 2 + 3 * i]] == h.kickers[i].Symbol())
      && (forall i :: 0 <= i < |h.kickers| - 1 ==> s[n + 3 + 3 * i] == ',' && s[n + 4 + 3 * i] == ' ')
  {
    if h.kickers != [] {
      var s, n, l := ToDisplayString(h), |h.category.DisplayName()|, SymbolList(h.kickers);
      SymbolListLayout(h.kickers);
      assert s == h.category.DisplayName() + " (" + l + ")";
      forall i | 0 <= i < |h.kickers|
        ensures [s[n + 2 + 3 * i]] == h.kickers[i].Symbol()
      {
        assert s[n + 2 + 3 * i] == l[3 * i];
      }
      forall i | 0 <= i < |h.kickers| - 1
        ensures s[n + 3 + 3 * i] == ',' && s[n + 4 + 3 * i] == ' '
      {
        assert s[n + 3 + 3 * i] == l[3 * i + 1];
        assert s[n + 4 + 3 * i] == l[3 * i + 2];
      }
    }
  }

  /** HandRank.toProtocolString: the category's enum name, then "_" and the kicker symbols when there are any. */
  function ToProtocolString(h: HandRank): string
  {
    h.category.Name() + (if h.kickers == [] then "" else "_" + Symbols(h.kickers))
  }

  /** The characters Rank.getSymbol() produces. */
  predicate IsSymbolChar(c: char) {
    c in "23456789TJQKA"
  }

  /** `s` is category name `n` followed by nothing, or by "_" and symbol characters only. */
  predicate ShapedAfter(n: string, s: string) {
    |n| <= |s| && s[..|n|] == n
    && (|s| > |n| ==> s[|n|] == '_' && forall i :: |n| < i < |s| ==> IsSymbolChar(s[i]))
  }

  /** Every protocol string has that shape, with nothing after the name exactly when there are no kickers. */
  lemma ProtocolShape(h: HandRank)
    ensures ShapedAfter(h.category.Name(), ToProtocolString(h))
    ensures |ToProtocolString(h)| == |h.category.Name()| <==> h.kickers == []
  {
    var s, n := ToProtocolString(h), h.category.Name();
    if h.kickers != [] {
      assert s == n + "_" + Symbols(h.kickers);
      forall i | |n| < i < |s| ensures IsSymbolChar(s[i]) {
        assert s[i] == Symbols(h.kickers)[i - |n| - 1];
        assert [s[i]] == h.kickers[i - |n| - 1].Symbol();
      }
    }
  }

  /** Distinct hand ranks have distinct protocol strings: the category and every
      kicker can be read back from the text. */
  lemma ProtocolStringInjective(x: HandRank, y: HandRank)
    requires ToProtocolString(x) == ToProtocolString(y)
    ensures x == y
  {
    var s := ToProtocolString(x);
    ProtocolShape(x);
    ProtocolShape(y);
    CategoryFromShape(x.category, y.category, s);
    if x.kickers != [] {
      KickersAfterName(x);
      KickersAfterName(y);
      SymbolsInjective(x.kickers, y.kickers);
    }
  }

  /** The kicker symbols are what follows the name and the underscore. */
  lemma KickersAfterName(h: HandRank)
    requires h.kickers != []
    ensures Symbols(h.kickers) == ToProtocolString(h)[|h.category.Name()| + 1..]
  {
    var n := h.category.Name();
    assert ToProtocolString(h) == n + "_" + Symbols(h.kickers);
  }

  /** Only one category name can start a string of that shape. */
  lemma CategoryFromShape(a: Category, b: Category, s: string)
    requires ShapedAfter(a.Name(), s) && ShapedAfter(b.Name(), s)
    ensures a == b
  {
    NameHeads(a, b);
    ShapeCharAt(a.Name(), s, 0);
    ShapeCharAt(b.Name(), s, 0);
    ShapeCharAt(a.Name(), s, 1);
    ShapeCharAt(b.Name(), s, 1);
    if |s| > 9 {
      ShapeCharAt(a.Name(), s, 9);
      ShapeCharAt(b.Name(), s, 9);
    }
  }

  /** What a shaped string holds at position i: the name's character, the underscore, or a symbol. */
  lemma ShapeCharAt(n: string, s: string, i: nat)
    requires ShapedAfter(n, s) && i < |s|
    ensures i < |n| ==> s[i] == n[i]
    ensures i == |n| ==> s[i] == '_'
    ensures i > |n| ==> IsSymbolChar(s[i])
  {
    if i < |n| {
      assert s[..|n|][i] == s[i];
    }
  }

  /** The first two letters tell the category names apart, except STRAIGHT from STRAIGHT_FLUSH. */
  lemma NameHeads(a: Category, b: Category)
    ensures |a.Name()| >= 4
    ensures a.Name()[0] == b.Name()[0] && a.Name()[1] == b.Name()[1] ==>
              a == b || (a == STRAIGHT && b == STRAIGHT_FLUSH) || (a == STRAIGHT_FLUSH && b == STRAIGHT)
  {
  }

  lemma SymbolsInjective(a: seq<Rank>, b: seq<Rank>)
    requires Symbols(a) == Symbols(b)
    ensures a == b
  {
    forall i | 0 <= i < |a|
      ensures a[i] == b[i]
    {
      SymbolInjective(a[i], b[i]);
    }
  }

  /** Two ranks with the same symbol are the same rank. */
  lemma SymbolInjective(r1: Rank, r2: Rank)
    requires r1.Symbol() == r2.Symbol()
    ensures r1 == r2
  {
    SymbolRoundTrip(r1);
    SymbolRoundTrip(r2);
  }

  /** A rank is read back from its symbol. */
  lemma SymbolRoundTrip(r: Rank)
    ensures RankFromSymbol(r.Symbol()) == Some(r)
  {
  }
}

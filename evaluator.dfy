/** StandardPokerEvaluator: five cards to a HandRank. The cards are sorted by
    rank, highest first, and every test is then made on that sorted copy: its
    ranks and whether it is a flush. */
module Evaluator {
  import opened Wrappers
  import opened Cards
  import opened HandRanks

  /** The ranks of a list of cards, in order (cards.stream().map(Card::rank)). */
  function Ranks(cards: seq<Card>): (rs: seq<Rank>)
    ensures |rs| == |cards| && forall i :: 0 <= i < |cards| ==> rs[i] == cards[i].rank
  {
    seq(|cards|, i requires 0 <= i < |cards| => cards[i].rank)
  }

  /** Ranks never increase along the list. */
  predicate Descending(rs: seq<Rank>) {
    forall i, j :: 0 <= i < j < |rs| ==> rs[i].Ordinal() >= rs[j].Ordinal()
  }

  /** Ranks strictly decrease along the list. */
  predicate StrictlyDescending(rs: seq<Rank>) {
    forall i, j :: 0 <= i < j < |rs| ==> rs[i].Ordinal() > rs[j].Ordinal()
  }

  /** How many times a rank occurs: the value countRanks stores for it (absent means 0). */
  function Count(rs: seq<Rank>, r: Rank): (n: nat)
    ensures n <= |rs|
    ensures n > 0 <==> r in rs
  {
    if rs == [] then 0 else (if rs[0] == r then 1 else 0) + Count(rs[1..], r)
  }

  lemma RankOrdinalInjective(a: Rank, b: Rank)
    ensures a.Ordinal() == b.Ordinal() <==> a == b
  {
    RankOrder();
  }

  // ---------------------------------------------------------------------
  // The sort: sorted.sort(Comparator.comparing(Card::rank).reversed()),
  // a stable sort on rank, highest first.
  // ---------------------------------------------------------------------

  /** Cards never increase in rank along the list. */
  predicate ByRankDesc(cards: seq<Card>) {
    forall i, j :: 0 <= i < j < |cards| ==> cards[i].rank.Ordinal() >= cards[j].rank.Ordinal()
  }

  /** Inserts c ahead of the first card whose rank is not higher than c's, so that
      c stays ahead of the equal-ranked cards that followed it in the input. */
  function InsertByRank(c: Card, sorted: seq<Card>): (r: seq<Card>)
    ensures |r| == |sorted| + 1
    ensures multiset(r) == multiset(sorted) + multiset{c}
  {
    if sorted == [] || sorted[0].rank.Ordinal() <= c.rank.Ordinal() then [c] + sorted
    else
      assert sorted == [sorted[0]] + sorted[1..];
      [sorted[0]] + InsertByRank(c, sorted[1..])
  }

  /** Inserting into a list ordered by rank keeps it ordered. */
  lemma {:induction false} InsertKeepsOrder(c: Card, sorted: seq<Card>)
    requires ByRankDesc(sorted)
    ensures ByRankDesc(InsertByRank(c, sorted))
  {
    if sorted != [] && sorted[0].rank.Ordinal() > c.rank.Ordinal() {
      var rest := InsertByRank(c, sorted[1..]);
      InsertKeepsOrder(c, sorted[1..]);
      forall k | 0 <= k < |rest| ensures rest[k].rank.Ordinal() <= sorted[0].rank.Ordinal() {
        assert rest[k] in multiset(rest);
        assert rest[k] == c || rest[k] in sorted[1..];
      }
      ConsKeepsOrder(sorted[0], rest);
    }
  }

  /** A card no lower than every card of an ordered list may be put in front of it. */
  lemma ConsKeepsOrder(h: Card, rest: seq<Card>)
    requires ByRankDesc(rest)
    requires forall k :: 0 <= k < |rest| ==> rest[k].rank.Ordinal() <= h.rank.Ordinal()
    ensures ByRankDesc([h] + rest)
  {
  }

  /** The sorted copy: the same cards, highest rank first. */
  function SortByRankDesc(cards: seq<Card>): (r: seq<Card>)
    ensures |r| == |cards|
    ensures multiset(r) == multiset(cards)
    ensures ByRankDesc(r) && Descending(Ranks(r))
  {
    if cards == [] then []
    else
      assert cards == [cards[0]] + cards[1..];
      var tail := SortByRankDesc(cards[1..]);
      InsertKeepsOrder(cards[0], tail);
      InsertByRank(cards[0], tail)
  }

  // ---------------------------------------------------------------------
  // The tests evaluate makes on the sorted copy.
  // ---------------------------------------------------------------------

  /** checkFlush: every card has the first card's suit. */
  predicate IsFlush(cards: seq<Card>)
    requires |cards| > 0
  {
    forall i :: 0 <= i < |cards| ==> cards[i].suit == cards[0].suit
  }

  /** The A-5-4-3-2 pattern checkStraight accepts first. */
  predicate IsWheel(rs: seq<Rank>) {
    rs == [ACE, FIVE, FOUR, THREE, TWO]
  }

  /** The loop of checkStraight: every rank is exactly one above the next. */
  predicate StepsDownByOne(rs: seq<Rank>) {
    forall i :: 0 <= i < |rs| - 1 ==> rs[i].Value() - rs[i + 1].Value() == 1
  }

  /** checkStraight on the sorted ranks. */
  predicate IsStraight(rs: seq<Rank>) {
    IsWheel(rs) || StepsDownByOne(rs)
  }

  /** Searches the ranks below ordinal k, highest first, for one occurring exactly n times. */
  function HighestWithCount(rs: seq<Rank>, n: int, k: nat): (r: Option<Rank>)
    requires k <= 13
    ensures r.Some? ==> Count(rs, r.value) == n && r.value.Ordinal() < k
    ensures r.Some? ==> forall q: Rank :: r.value.Ordinal() < q.Ordinal() < k ==> Count(rs, q) != n
    ensures r.None? ==> forall q: Rank :: q.Ordinal() < k ==> Count(rs, q) != n
  {
    RankOrder();
    if k == 0 then None
    else if Count(rs, AllRanks[k - 1]) == n then Some(AllRanks[k - 1])
    else HighestWithCount(rs, n, k - 1)
  }

  /** findNOfAKind: the highest rank occurring exactly n times, if any. */
  function FindNOfAKind(rs: seq<Rank>, n: int): (r: Option<Rank>)
    ensures r.Some? ==> Count(rs, r.value) == n
    ensures r.Some? ==> forall q: Rank :: Count(rs, q) == n ==> q.Ordinal() <= r.value.Ordinal()
    ensures r.None? ==> forall q: Rank :: Count(rs, q) != n
  {
    HighestWithCount(rs, n, 13)
  }

  /** The ranks below ordinal k occurring exactly twice, highest first. */
  function PairsBelow(rs: seq<Rank>, k: nat): (ps: seq<Rank>)
    requires k <= 13
    ensures forall q: Rank :: q in ps <==> Count(rs, q) == 2 && q.Ordinal() < k
    ensures StrictlyDescending(ps)
  {
    RankOrder();
    if k == 0 then []
    else
      var rest := PairsBelow(rs, k - 1);
      if Count(rs, AllRanks[k - 1]) == 2 then [AllRanks[k - 1]] + rest else rest
  }

  /** findAllPairs: every rank occurring exactly twice, highest first. */
  function FindAllPairs(rs: seq<Rank>): (ps: seq<Rank>)
    ensures forall q: Rank :: q in ps <==> Count(rs, q) == 2
    ensures StrictlyDescending(ps)
  {
    PairsBelow(rs, 13)
  }

  /** The ranks not in `exclude`, in their original order. */
  function Without(rs: seq<Rank>, exclude: seq<Rank>): (r: seq<Rank>)
    ensures forall q: Rank :: Count(r, q) == if q in exclude then 0 else Count(rs, q)
  {
    if rs == [] then []
    else
      var rest := Without(rs[1..], exclude);
      if rs[0] in exclude then rest else [rs[0]] + rest
  }

  /** Leaving ranks out of a descending list keeps it descending. */
  lemma {:induction false} WithoutKeepsOrder(rs: seq<Rank>, exclude: seq<Rank>)
    requires Descending(rs)
    ensures Descending(Without(rs, exclude))
  {
    if rs != [] {
      var tail := rs[1..];
      WithoutKeepsOrder(tail, exclude);
      if rs[0] !in exclude {
        var rest := Without(tail, exclude);
        forall k | 0 <= k < |rest| ensures rest[k].Ordinal() <= rs[0].Ordinal() {
          assert Count(rest, rest[k]) > 0;
          assert rest[k] in tail;
        }
        PrependKeepsDescending(rs[0], rest);
      }
    }
  }

  /** A rank no lower than every rank of a descending list may go in front of it. */
  lemma PrependKeepsDescending(h: Rank, rest: seq<Rank>)
    requires Descending(rest)
    requires forall k :: 0 <= k < |rest| ==> rest[k].Ordinal() <= h.Ordinal()
    ensures Descending([h] + rest)
  {
  }

  /** findKickers: the first `count` ranks not in `exclude`, in order (a stream
      limited to count). findKicker(cards, x) is FindKickers(rs, [x], 1), whose
      only element it takes. */
  function FindKickers(rs: seq<Rank>, exclude: seq<Rank>, count: nat): seq<Rank>
  {
    var kept := Without(rs, exclude);
    if |kept| <= count then kept else kept[..count]
  }

  /** What remains after removing one rank: everything else. */
  lemma {:induction false} WithoutOneLength(rs: seq<Rank>, x: Rank)
    ensures |Without(rs, [x])| == |rs| - Count(rs, x)
  {
    if rs != [] {
      WithoutOneLength(rs[1..], x);
    }
  }

  /** What remains after removing two distinct ranks. */
  lemma {:induction false} WithoutTwoLength(rs: seq<Rank>, x: Rank, y: Rank)
    requires x != y
    ensures |Without(rs, [x, y])| == |rs| - Count(rs, x) - Count(rs, y)
  {
    if rs != [] {
      WithoutTwoLength(rs[1..], x, y);
    }
  }

  /** FOUR_OF_A_KIND with the quad rank and findKicker's first other rank. */
  function FourOfAKindRank(rs: seq<Rank>, quad: Rank): (h: HandRank)
    requires |rs| == 5 && Count(rs, quad) == 4
    ensures h.category == FOUR_OF_A_KIND
  {
    WithoutOneLength(rs, quad);
    HandRank(FOUR_OF_A_KIND, [quad, FindKickers(rs, [quad], 1)[0]])
  }

  /** THREE_OF_A_KIND with the triple's rank and the first two other ranks. */
  function ThreeOfAKindRank(rs: seq<Rank>, triple: Rank): (h: HandRank)
    requires |rs| == 5 && Count(rs, triple) == 3
    ensures h.category == THREE_OF_A_KIND
  {
    WithoutOneLength(rs, triple);
    var kickers := FindKickers(rs, [triple], 2);
    HandRank(THREE_OF_A_KIND, [triple, kickers[0], kickers[1]])
  }

  /** TWO_PAIR with both pairs' ranks and the first rank in neither pair. */
  function TwoPairRank(rs: seq<Rank>, high: Rank, low: Rank): (h: HandRank)
    requires |rs| == 5 && high != low && Count(rs, high) == 2 && Count(rs, low) == 2
    ensures h.category == TWO_PAIR
  {
    WithoutTwoLength(rs, high, low);
    HandRank(TWO_PAIR, [high, low, FindKickers(rs, [high, low], 1)[0]])
  }

  /** PAIR with the pair's rank and the first three other ranks. */
  function PairRank(rs: seq<Rank>, pair: Rank): (h: HandRank)
    requires |rs| == 5 && Count(rs, pair) == 2
    ensures h.category == PAIR
  {
    WithoutOneLength(rs, pair);
    var kickers := FindKickers(rs, [pair], 3);
    HandRank(PAIR, [pair, kickers[0], kickers[1], kickers[2]])
  }

  /** StandardPokerEvaluator.evaluate after the size check: the tests in their
      fixed order on the sorted ranks `rs` and the flush flag; the first test that
      matches decides the category. */
  function Classify(rs: seq<Rank>, flush: bool): HandRank
    requires |rs| == 5
  {
    var straight := IsStraight(rs);
    var four := FindNOfAKind(rs, 4);
    var three := FindNOfAKind(rs, 3);
    var pair := FindNOfAKind(rs, 2);
    var pairs := FindAllPairs(rs);
    if flush && straight && rs[0] == ACE then HandRank(ROYAL_FLUSH, [ACE])
    else if flush && straight then HandRank(STRAIGHT_FLUSH, [rs[0]])
    else if four.Some? then FourOfAKindRank(rs, four.value)
    else if three.Some? && pair.Some? then HandRank(FULL_HOUSE, [three.value, pair.value])
    else if flush then HandRank(FLUSH, rs)
    else if straight then HandRank(STRAIGHT, [rs[0]])
    else if three.Some? then ThreeOfAKindRank(rs, three.value)
    else if |pairs| >= 2 then TwoPairRank(rs, pairs[0], pairs[1])
    else if pair.Some? then PairRank(rs, pair.value)
    else HandRank(HIGH_CARD, rs)
  }

  /** IllegalArgumentException("Hand must contain exactly 5 cards"). */
  datatype EvalError = WrongHandSize

  /** StandardPokerEvaluator.evaluate: refuses anything but five cards; otherwise
      classifies the sorted copy (the argument itself is left as it was). */
  function Evaluate(cards: seq<Card>): (r: Result<HandRank, EvalError>)
    ensures r.Err? <==> |cards| != 5
  {
    if |cards| != 5 then Err(WrongHandSize)
    else
      var sorted := SortByRankDesc(cards);
      Ok(Classify(Ranks(sorted), IsFlush(sorted)))
  }

  // ---------------------------------------------------------------------
  // The result does not depend on the order the cards are given in.
  // ---------------------------------------------------------------------

  /** A rank occurs as often as the four cards of that rank do, together. */
  lemma {:induction false} RankCountBySuits(cards: seq<Card>, r: Rank)
    ensures Count(Ranks(cards), r) == multiset(cards)[Card(CLUBS, r)] + multiset(cards)[Card(DIAMONDS, r)]
                                      + multiset(cards)[Card(HEARTS, r)] + multiset(cards)[Card(SPADES, r)]
  {
    if cards != [] {
      RankCountBySuits(cards[1..], r);
      assert cards == [cards[0]] + cards[1..];
      assert multiset(cards) == multiset{cards[0]} + multiset(cards[1..]);
      assert Ranks(cards)[1..] == Ranks(cards[1..]);
      assert Count(Ranks(cards), r) == (if cards[0].rank == r then 1 else 0) + Count(Ranks(cards[1..]), r);
      OneCardBySuits(cards[0], r);
    }
  }

  /** One card is of rank r exactly when it is one of the four cards of that rank. */
  lemma OneCardBySuits(c: Card, r: Rank)
    ensures (if c.rank == r then 1 else 0) == multiset{c}[Card(CLUBS, r)] + multiset{c}[Card(DIAMONDS, r)]
                                               + multiset{c}[Card(HEARTS, r)] + multiset{c}[Card(SPADES, r)]
  {
    assert c == Card(c.suit, c.rank);
    match c.suit
    case CLUBS =>
    case DIAMONDS =>
    case HEARTS =>
    case SPADES =>
  }

  /** Two descending rank lists with the same counts are the same list. */
  lemma {:induction false} DescendingUnique(x: seq<Rank>, y: seq<Rank>)
    requires Descending(x) && Descending(y)
    requires forall r: Rank :: Count(x, r) == Count(y, r)
    ensures x == y
  {
    if x == [] || y == [] {
      if x != [] {
        assert Count(x, x[0]) > 0;
      } else if y != [] {
        assert Count(y, y[0]) > 0;
      }
    } else {
      SameHead(x, y);
      var xt, yt := x[1..], y[1..];
      forall r: Rank ensures Count(xt, r) == Count(yt, r) {
        assert Count(x, r) == (if x[0] == r then 1 else 0) + Count(xt, r);
        assert Count(y, r) == (if y[0] == r then 1 else 0) + Count(yt, r);
      }
      DescendingTail(x);
      DescendingTail(y);
      DescendingUnique(xt, yt);
      assert x == [x[0]] + xt && y == [y[0]] + yt;
    }
  }

  /** Two non-empty descending lists with the same counts start with the same rank. */
  lemma SameHead(x: seq<Rank>, y: seq<Rank>)
    requires x != [] && y != [] && Descending(x) && Descending(y)
    requires forall r: Rank :: Count(x, r) == Count(y, r)
    ensures x[0] == y[0]
  {
    assert Count(y, x[0]) > 0 && Count(x, y[0]) > 0;
    var i :| 0 <= i < |y| && y[i] == x[0];
    var j :| 0 <= j < |x| && x[j] == y[0];
    assert y[0].Ordinal() >= y[i].Ordinal() == x[0].Ordinal();
    assert x[0].Ordinal() >= x[j].Ordinal() == y[0].Ordinal();
    RankOrdinalInjective(x[0], y[0]);
  }

  /** The rest of a descending list is descending. */
  lemma DescendingTail(x: seq<Rank>)
    requires x != [] && Descending(x)
    ensures Descending(x[1..])
  {
    var t := x[1..];
    forall i, j | 0 <= i < j < |t| ensures t[i].Ordinal() >= t[j].Ordinal() {
      assert t[i] == x[i + 1] && t[j] == x[j + 1];
    }
  }

  /** Whether the cards are of one suit does not depend on their order. */
  lemma FlushIsPermutationInvariant(a: seq<Card>, b: seq<Card>)
    requires |a| > 0 && multiset(a) == multiset(b)
    ensures |b| > 0 && (IsFlush(a) <==> IsFlush(b))
  {
    assert a[0] in multiset(b);
    assert b[0] in multiset(a);
    if IsFlush(a) {
      forall i | 0 <= i < |b| ensures b[i].suit == b[0].suit {
        assert b[i] in multiset(a);
      }
    }
    if IsFlush(b) {
      forall i | 0 <= i < |a| ensures a[i].suit == a[0].suit {
        assert a[i] in multiset(b);
      }
    }
  }

  /** evaluate sorts a copy first, so reordering the cards never changes the rank. */
  lemma EvaluateIgnoresOrder(a: seq<Card>, b: seq<Card>)
    requires multiset(a) == multiset(b)
    ensures Evaluate(a) == Evaluate(b)
  {
    assert |a| == |multiset(a)| == |multiset(b)| == |b|;
    if |a| == 5 {
      var sa, sb := SortByRankDesc(a), SortByRankDesc(b);
      forall r: Rank ensures Count(Ranks(sa), r) == Count(Ranks(sb), r) {
        RankCountBySuits(sa, r);
        RankCountBySuits(sb, r);
      }
      DescendingUnique(Ranks(sa), Ranks(sb));
      FlushIsPermutationInvariant(sa, sb);
    }
  }

  // ---------------------------------------------------------------------
  // Straights.
  // ---------------------------------------------------------------------

  /** On sorted ranks, checkStraight accepts exactly the wheel and the five
      distinct ranks spanning four steps. */
  lemma StraightCharacterized(rs: seq<Rank>)
    requires |rs| == 5 && Descending(rs)
    ensures IsStraight(rs) <==> IsWheel(rs) || (StrictlyDescending(rs) && rs[0].Value() - rs[4].Value() == 4)
  {
    if StepsDownByOne(rs) {
      assert rs[1].Value() == rs[0].Value() - 1 && rs[2].Value() == rs[1].Value() - 1;
      assert rs[3].Value() == rs[2].Value() - 1 && rs[4].Value() == rs[3].Value() - 1;
      forall i, j | 0 <= i < j < 5 ensures rs[i].Ordinal() > rs[j].Ordinal() {
        assert rs[i].Value() == rs[0].Value() - i && rs[j].Value() == rs[0].Value() - j;
      }
    }
    if StrictlyDescending(rs) && rs[0].Value() - rs[4].Value() == 4 {
      assert rs[0].Value() - rs[1].Value() >= 1 && rs[1].Value() - rs[2].Value() >= 1;
      assert rs[2].Value() - rs[3].Value() >= 1 && rs[3].Value() - rs[4].Value() >= 1;
      forall i | 0 <= i < 4 ensures rs[i].Value() - rs[i + 1].Value() == 1 {
      }
    }
  }

  /** A straight (and a straight flush) is named by its top sorted rank: a wheel
      comes out as an ACE-high straight, and a suited wheel as a royal flush. */
  lemma WheelClassification()
    ensures Classify([ACE, FIVE, FOUR, THREE, TWO], false) == HandRank(STRAIGHT, [ACE])
    ensures Classify([ACE, FIVE, FOUR, THREE, TWO], true) == HandRank(ROYAL_FLUSH, [ACE])
  {
    assert IsWheel([ACE, FIVE, FOUR, THREE, TWO]);
    StraightFlushes([ACE, FIVE, FOUR, THREE, TWO]);
  }

  /** Flush, straight and an ACE on top is always a royal flush, whatever else
      holds; flush and straight with any other top card is a straight flush
      headed by that card. */
  lemma StraightFlushes(rs: seq<Rank>)
    requires |rs| == 5 && IsStraight(rs)
    ensures rs[0] == ACE ==> Classify(rs, true) == HandRank(ROYAL_FLUSH, [ACE])
    ensures rs[0] != ACE ==> Classify(rs, true) == HandRank(STRAIGHT_FLUSH, [rs[0]])
    ensures Classify(rs, false) == HandRank(STRAIGHT, [rs[0]])
  {
    StraightHasNoRepeats(rs);
  }

  /** No rank repeats in a straight. */
  lemma StraightHasNoRepeats(rs: seq<Rank>)
    requires |rs| == 5 && IsStraight(rs)
    ensures forall q: Rank :: Count(rs, q) <= 1
  {
    forall q: Rank ensures Count(rs, q) <= 1 {
      assert rs == [rs[0], rs[1], rs[2], rs[3], rs[4]];
      RankOrdinalInjective(rs[0], rs[1]);
      assert rs[0] != rs[1] && rs[0] != rs[2] && rs[0] != rs[3] && rs[0] != rs[4];
      assert rs[1] != rs[2] && rs[1] != rs[3] && rs[1] != rs[4];
      assert rs[2] != rs[3] && rs[2] != rs[4] && rs[3] != rs[4];
      assert Count(rs, q) == Count(rs[1..], q) + (if rs[0] == q then 1 else 0);
      assert Count(rs[1..], q) == Count(rs[2..], q) + (if rs[1] == q then 1 else 0);
      assert Count(rs[2..], q) == Count(rs[3..], q) + (if rs[2] == q then 1 else 0);
      assert Count(rs[3..], q) == Count(rs[4..], q) + (if rs[3] == q then 1 else 0);
    }
  }

  // ---------------------------------------------------------------------
  // The kickers each category carries.
  // ---------------------------------------------------------------------

  /** A rank found at two positions occurs at least twice. */
  lemma {:induction false} CountTwoPositions(s: seq<Rank>, i: nat, j: nat)
    requires i < j < |s| && s[i] == s[j]
    ensures Count(s, s[i]) >= 2
  {
    if i > 0 {
      CountTwoPositions(s[1..], i - 1, j - 1);
    } else {
      assert s[1..][j - 1] == s[j];
    }
  }

  /** A descending list in which every rank occurs once is strictly descending. */
  lemma SinglesStrictlyDescending(s: seq<Rank>)
    requires Descending(s) && forall i :: 0 <= i < |s| ==> Count(s, s[i]) == 1
    ensures StrictlyDescending(s)
  {
    forall i, j | 0 <= i < j < |s| ensures s[i].Ordinal() > s[j].Ordinal() {
      if s[i] == s[j] {
        CountTwoPositions(s, i, j);
      }
      RankOrdinalInjective(s[i], s[j]);
    }
  }

  /** A list shorter than two has at most one distinct member. */
  lemma AtMostOneMember(ps: seq<Rank>, a: Rank, b: Rank)
    requires |ps| < 2
    ensures a in ps && b in ps ==> a == b
  {
  }

  /** Four of a kind: the quad rank, then the odd card. */
  lemma FourOfAKindKickers(rs: seq<Rank>, flush: bool)
    requires |rs| == 5 && Classify(rs, flush).category == FOUR_OF_A_KIND
    ensures var k := Classify(rs, flush).kickers;
            |k| == 2 && Count(rs, k[0]) == 4 && Count(rs, k[1]) == 1
  {
    var q := FindNOfAKind(rs, 4).value;
    WithoutOneLength(rs, q);
    var w := Without(rs, [q]);
    assert Count(w, w[0]) > 0;
  }

  /** Full house: the triple's rank, then the pair's. */
  lemma FullHouseKickers(rs: seq<Rank>, flush: bool)
    requires |rs| == 5 && Classify(rs, flush).category == FULL_HOUSE
    ensures var k := Classify(rs, flush).kickers;
            |k| == 2 && Count(rs, k[0]) == 3 && Count(rs, k[1]) == 2
  {
  }

  /** Flush: all five ranks, highest first; the hand is suited, not a straight
      and holds no quad. */
  lemma FlushKickers(rs: seq<Rank>, flush: bool)
    requires |rs| == 5 && Classify(rs, flush).category == FLUSH
    ensures Classify(rs, flush).kickers == rs
    ensures flush && !IsStraight(rs) && forall q: Rank :: Count(rs, q) != 4
  {
    if !flush {
      UnsuitedIsNoFlush(rs);
    }
  }

  /** Unsuited ranks are never classified FLUSH. */
  lemma UnsuitedIsNoFlush(rs: seq<Rank>)
    requires |rs| == 5
    ensures Classify(rs, false).category != FLUSH
  {
    var three, pair := FindNOfAKind(rs, 3), FindNOfAKind(rs, 2);
    if FindNOfAKind(rs, 4).Some? {
    } else if three.Some? && pair.Some? {
    } else if IsStraight(rs) {
    } else if three.Some? {
    } else if |FindAllPairs(rs)| >= 2 {
    } else if pair.Some? {
    }
  }

  /** Straight: the top sorted rank alone; the hand is not suited. */
  lemma StraightKickers(rs: seq<Rank>, flush: bool)
    requires |rs| == 5 && Classify(rs, flush).category == STRAIGHT
    ensures Classify(rs, flush).kickers == [rs[0]]
    ensures IsStraight(rs) && !flush
  {
  }

  /** The ranks left once a rank occurring `n` times is removed, when no other
      rank occurs twice or more: each occurs once, strictly descending. */
  lemma SinglesAfterRemoving(rs: seq<Rank>, x: Rank)
    requires Descending(rs) && Count(rs, x) > 0
    requires forall q: Rank :: q != x ==> Count(rs, q) < 2 || Count(rs, q) > |rs| - Count(rs, x)
    ensures var w := Without(rs, [x]);
            |w| == |rs| - Count(rs, x) && StrictlyDescending(w)
            && forall i :: 0 <= i < |w| ==> w[i] != x && Count(rs, w[i]) == 1
  {
    WithoutOneLength(rs, x);
    WithoutKeepsOrder(rs, [x]);
    var w := Without(rs, [x]);
    forall i | 0 <= i < |w| ensures w[i] != x && Count(w, w[i]) == 1 && Count(rs, w[i]) == 1 {
      var q := w[i];
      assert Count(w, q) > 0;
      assert q != x;
      assert Count(w, q) == Count(rs, q) <= |w|;
    }
    SinglesStrictlyDescending(w);
  }

  /** The tests that select THREE_OF_A_KIND: a triple and no pair. */
  lemma ThreeOfAKindSelected(rs: seq<Rank>, flush: bool)
    requires |rs| == 5 && Classify(rs, flush).category == THREE_OF_A_KIND
    ensures FindNOfAKind(rs, 3).Some? && FindNOfAKind(rs, 2).None?
    ensures Classify(rs, flush) == ThreeOfAKindRank(rs, FindNOfAKind(rs, 3).value)
  {
  }

  /** The tests that select PAIR: a pair, no triple and no second pair. */
  lemma PairSelected(rs: seq<Rank>, flush: bool)
    requires |rs| == 5 && Classify(rs, flush).category == PAIR
    ensures FindNOfAKind(rs, 2).Some? && FindNOfAKind(rs, 3).None? && |FindAllPairs(rs)| < 2
    ensures Classify(rs, flush) == PairRank(rs, FindNOfAKind(rs, 2).value)
  {
  }

  /** Three of a kind: findKickers(x, 2) returns both ranks that differ from x. */
  lemma TripleOthersAsKickers(rs: seq<Rank>, x: Rank)
    requires |rs| == 5 && Count(rs, x) == 3
    ensures ThreeOfAKindRank(rs, x).kickers == [x] + Without(rs, [x])
  {
    WithoutOneLength(rs, x);
    var kickers := FindKickers(rs, [x], 2);
    assert kickers == Without(rs, [x]);
    assert [x, kickers[0], kickers[1]] == [x] + kickers;
  }

  /** One pair: findKickers(x, 3) returns all three ranks that differ from x. */
  lemma PairOthersAsKickers(rs: seq<Rank>, x: Rank)
    requires |rs| == 5 && Count(rs, x) == 2
    ensures PairRank(rs, x).kickers == [x] + Without(rs, [x])
  {
    WithoutOneLength(rs, x);
    var kickers := FindKickers(rs, [x], 3);
    assert kickers == Without(rs, [x]);
    PrependToThree(x, kickers);
  }

  /** A rank before three others is that rank prepended to them. */
  lemma PrependToThree(x: Rank, k: seq<Rank>)
    requires |k| == 3
    ensures [x, k[0], k[1], k[2]] == [x] + k
  {
  }

  /** Three of a kind: the triple's rank, then the two other ranks, higher first;
      each of those occurs once. */
  lemma ThreeOfAKindKickers(rs: seq<Rank>, flush: bool)
    requires |rs| == 5 && Descending(rs) && Classify(rs, flush).category == THREE_OF_A_KIND
    ensures var k := Classify(rs, flush).kickers;
            |k| == 3 && Count(rs, k[0]) == 3 && Count(rs, k[1]) == 1 && Count(rs, k[2]) == 1
            && k[1].Ordinal() > k[2].Ordinal()
  {
    ThreeOfAKindSelected(rs, flush);
    var t := FindNOfAKind(rs, 3).value;
    TripleOthersAsKickers(rs, t);
    SinglesAfterRemoving(rs, t);
  }

  /** Two pair: the higher pair, the lower pair, then the odd card. */
  lemma TwoPairKickers(rs: seq<Rank>, flush: bool)
    requires |rs| == 5 && Classify(rs, flush).category == TWO_PAIR
    ensures var k := Classify(rs, flush).kickers;
            |k| == 3 && Count(rs, k[0]) == 2 && Count(rs, k[1]) == 2 && k[0].Ordinal() > k[1].Ordinal()
            && Count(rs, k[2]) == 1
  {
    var pairs := FindAllPairs(rs);
    assert pairs[0] in pairs && pairs[1] in pairs;
    WithoutTwoLength(rs, pairs[0], pairs[1]);
    var w := Without(rs, [pairs[0], pairs[1]]);
    assert Count(w, w[0]) > 0;
  }

  /** One pair: the pair's rank, then the three other ranks, highest first; each
      of those occurs once. */
  lemma PairKickers(rs: seq<Rank>, flush: bool)
    requires |rs| == 5 && Descending(rs) && Classify(rs, flush).category == PAIR
    ensures var k := Classify(rs, flush).kickers;
            |k| == 4 && Count(rs, k[0]) == 2
            && Count(rs, k[1]) == 1 && Count(rs, k[2]) == 1 && Count(rs, k[3]) == 1
            && k[1].Ordinal() > k[2].Ordinal() > k[3].Ordinal()
  {
    PairSelected(rs, flush);
    var p := FindNOfAKind(rs, 2).value;
    PairOthersAsKickers(rs, p);
    var pairs := FindAllPairs(rs);
    forall q: Rank | q != p ensures Count(rs, q) < 2 || Count(rs, q) > 3 {
      AtMostOneMember(pairs, p, q);
    }
    SinglesAfterRemoving(rs, p);
  }

  /** High card: all five ranks, highest first. When no rank occurs five times (as
      with five different cards), they are five different ranks. */
  lemma HighCardKickers(rs: seq<Rank>, flush: bool)
    requires |rs| == 5 && Descending(rs) && Classify(rs, flush).category == HIGH_CARD
    ensures Classify(rs, flush).kickers == rs && !flush && !IsStraight(rs)
    ensures (forall q: Rank :: Count(rs, q) < 5) ==> StrictlyDescending(rs) && forall q: Rank :: Count(rs, q) <= 1
  {
    assert FindNOfAKind(rs, 2).None? && FindNOfAKind(rs, 3).None? && FindNOfAKind(rs, 4).None?;
    AllSingles(rs);
  }

  /** With no rank occurring 2, 3, 4 or 5 times, a descending list is strictly descending. */
  lemma AllSingles(rs: seq<Rank>)
    requires |rs| == 5 && Descending(rs)
    requires forall q: Rank :: Count(rs, q) != 2 && Count(rs, q) != 3 && Count(rs, q) != 4
    ensures (forall q: Rank :: Count(rs, q) < 5) ==> StrictlyDescending(rs) && forall q: Rank :: Count(rs, q) <= 1
  {
    if forall q: Rank :: Count(rs, q) < 5 {
      forall i | 0 <= i < 5 ensures Count(rs, rs[i]) == 1 {
        assert Count(rs, rs[i]) > 0;
      }
      SinglesStrictlyDescending(rs);
    }
  }

  /** A card occurs at most once in a list of different cards. */
  lemma {:induction false} DistinctMultiplicity(cards: seq<Card>, c: Card)
    requires forall i, j :: 0 <= i < j < |cards| ==> cards[i] != cards[j]
    ensures multiset(cards)[c] <= 1
  {
    if cards != [] {
      DistinctMultiplicity(cards[1..], c);
      assert cards == [cards[0]] + cards[1..];
      assert cards[0] !in cards[1..];
    }
  }

  /** Among different cards no rank occurs more than four times (there are four suits). */
  lemma DistinctCardsRankCounts(cards: seq<Card>)
    requires forall i, j :: 0 <= i < j < |cards| ==> cards[i] != cards[j]
    ensures forall q: Rank :: Count(Ranks(cards), q) <= 4
  {
    forall q: Rank ensures Count(Ranks(cards), q) <= 4 {
      RankCountBySuits(cards, q);
      DistinctMultiplicity(cards, Card(CLUBS, q));
      DistinctMultiplicity(cards, Card(DIAMONDS, q));
      DistinctMultiplicity(cards, Card(HEARTS, q));
      DistinctMultiplicity(cards, Card(SPADES, q));
    }
  }

  /** Five different cards rated HIGH_CARD carry their five ranks, all different,
      highest first. */
  lemma EvaluateHighCard(cards: seq<Card>)
    requires |cards| == 5 && forall i, j :: 0 <= i < j < |cards| ==> cards[i] != cards[j]
    requires Evaluate(cards).value.category == HIGH_CARD
    ensures var k := Evaluate(cards).value.kickers;
            |k| == 5 && StrictlyDescending(k) && forall q: Rank :: q in k <==> Count(Ranks(cards), q) == 1
  {
    var sorted := SortByRankDesc(cards);
    var rs := Ranks(sorted);
    forall q: Rank ensures Count(rs, q) == Count(Ranks(cards), q) {
      RankCountBySuits(sorted, q);
      RankCountBySuits(cards, q);
    }
    DistinctCardsRankCounts(cards);
    HighCardKickers(rs, IsFlush(sorted));
  }
}

/** Suits, ranks and cards (poker-common's Card, Suit and the Rank enum). */
module Cards {
  import opened Wrappers

  /** Declared lowest to highest: CLUBS < DIAMONDS < HEARTS < SPADES. */
  datatype Suit = CLUBS | DIAMONDS | HEARTS | SPADES
  {
    /** Enum.ordinal(). */
    function Ordinal(): nat {
      match this
      case CLUBS => 0
      case DIAMONDS => 1
      case HEARTS => 2
      case SPADES => 3
    }

    /** Enum.name(). */
    function Name(): string {
      match this
      case CLUBS => "CLUBS"
      case DIAMONDS => "DIAMONDS"
      case HEARTS => "HEARTS"
      case SPADES => "SPADES"
    }
  }

  /** TWO lowest, ACE highest; ordinals 0..12 and values 2..14. */
  datatype Rank = TWO | THREE | FOUR | FIVE | SIX | SEVEN | EIGHT | NINE | TEN | JACK | QUEEN | KING | ACE
  {
    /** Enum.ordinal(). */
    function Ordinal(): nat {
      match this
      case TWO => 0
      case THREE => 1
      case FOUR => 2
      case FIVE => 3
      case SIX => 4
      case SEVEN => 5
      case EIGHT => 6
      case NINE => 7
      case TEN => 8
      case JACK => 9
      case QUEEN => 10
      case KING => 11
      case ACE => 12
    }

    /** Rank.getValue(): consecutive integers, ACE highest. */
    function Value(): int {
      Ordinal() + 2
    }

    /** Rank.getSymbol(): one character; TEN is "T". */
    function Symbol(): string {
      match this
      case TWO => "2"
      case THREE => "3"
      case FOUR => "4"
      case FIVE => "5"
      case SIX => "6"
      case SEVEN => "7"
      case EIGHT => "8"
      case NINE => "9"
      case TEN => "T"
      case JACK => "J"
      case QUEEN => "Q"
      case KING => "K"
      case ACE => "A"
    }
  }

  /** Rank.values(), in declaration order. */
  const AllRanks: seq<Rank> := [TWO, THREE, FOUR, FIVE, SIX, SEVEN, EIGHT, NINE, TEN, JACK, QUEEN, KING, ACE]

  /** Suit.values(), in declaration order. */
  const AllSuits: seq<Suit> := [CLUBS, DIAMONDS, HEARTS, SPADES]

  lemma RankOrder()
    ensures |AllRanks| == 13
    ensures forall i :: 0 <= i < 13 ==> AllRanks[i].Ordinal() == i
    ensures forall r: Rank :: AllRanks[r.Ordinal()] == r
  {
  }

  lemma SuitOrder()
    ensures |AllSuits| == 4
    ensures forall i :: 0 <= i < 4 ==> AllSuits[i].Ordinal() == i
    ensures forall s: Suit :: AllSuits[s.Ordinal()] == s
  {
  }

  /** Rank.fromSymbol: the rank whose symbol is exactly `symbol`. */
  function RankFromSymbol(symbol: string): (r: Option<Rank>)
    ensures r.Some? ==> r.value.Symbol() == symbol
    ensures r.None? ==> forall k: Rank :: k.Symbol() != symbol
  {
    if symbol == "2" then Some(TWO)
    else if symbol == "3" then Some(THREE)
    else if symbol == "4" then Some(FOUR)
    else if symbol == "5" then Some(FIVE)
    else if symbol == "6" then Some(SIX)
    else if symbol == "7" then Some(SEVEN)
    else if symbol == "8" then Some(EIGHT)
    else if symbol == "9" then Some(NINE)
    else if symbol == "T" then Some(TEN)
    else if symbol == "J" then Some(JACK)
    else if symbol == "Q" then Some(QUEEN)
    else if symbol == "K" then Some(KING)
    else if symbol == "A" then Some(ACE)
    else None
  }

  datatype Card = Card(suit: Suit, rank: Rank)

  /** Card.compareTo: the rank comparison (an ordinal difference) unless it is
      zero, then the suit comparison. */
  function Compare(a: Card, b: Card): (c: int)
    ensures c == 0 <==> a == b
    ensures c > 0 <==> (a.rank.Ordinal() > b.rank.Ordinal()
                        || (a.rank == b.rank && a.suit.Ordinal() > b.suit.Ordinal()))
  {
    var byRank := a.rank.Ordinal() - b.rank.Ordinal();
    if byRank != 0 then byRank else a.suit.Ordinal() - b.suit.Ordinal()
  }

  /** compareTo is antisymmetric and transitive, so cards are totally ordered. */
  lemma CompareIsTotalOrder(a: Card, b: Card, c: Card)
    ensures Compare(a, b) == -Compare(b, a)
    ensures Compare(a, b) <= 0 && Compare(b, c) <= 0 ==> Compare(a, c) <= 0
    ensures Compare(a, b) < 0 && Compare(b, c) < 0 ==> Compare(a, c) < 0
  {
  }

  /** The one-letter suit code: the first letter of the suit's name. */
  function SuitLetter(s: Suit): char {
    s.Name()[0]
  }

  /** Card.toString: rank symbol then suit initial, e.g. "AS", "TH". */
  function ToString(c: Card): (s: string)
    ensures |s| == 2
    ensures [s[0]] == c.rank.Symbol() && s[1] == c.suit.Name()[0]
    ensures s[0] in "23456789TJQKA" && s[1] in "CDHS"
  {
    c.rank.Symbol() + [SuitLetter(c.suit)]
  }

  /** The upper-case form of a one-character string, as far as it can match a
      suit letter: ASCII letters, and the long s (U+017F), whose upper case is 'S'. */
  function UpperCaseChar(c: char): char {
    if 'a' <= c <= 'z' then (c as int - 32) as char
    else if c == '\U{017F}' then 'S'
    else c
  }

  /** The switch in Card.fromString on the upper-cased suit letter. */
  function SuitFromLetter(c: char): (r: Option<Suit>)
    ensures r.Some? <==> UpperCaseChar(c) in "CDHS"
    ensures r.Some? ==> SuitLetter(r.value) == UpperCaseChar(c)
  {
    match UpperCaseChar(c)
    case 'C' => Some(CLUBS)
    case 'D' => Some(DIAMONDS)
    case 'H' => Some(HEARTS)
    case 'S' => Some(SPADES)
    case _ => None
  }

  /** Why Card.fromString threw IllegalArgumentException. */
  datatype CardError = InvalidCardString | InvalidRankSymbol | InvalidSuit

  /** Card.fromString: null and strings under two characters are refused; the
      rank symbol is everything but the last character (looked up first), the
      suit is the last character, in either case. */
  function FromString(s: Option<string>): (r: Result<Card, CardError>)
    ensures s.None? || |s.value| < 2 ==> r == Err(InvalidCardString)
    ensures r.Ok? ==> r.value.rank.Symbol() == s.value[..|s.value| - 1]
                      && SuitLetter(r.value.suit) == UpperCaseChar(s.value[|s.value| - 1])
  {
    if s.None? || |s.value| < 2 then Err(InvalidCardString)
    else
      var text := s.value;
      match RankFromSymbol(text[..|text| - 1])
      case None => Err(InvalidRankSymbol)
      case Some(rank) =>
        match SuitFromLetter(text[|text| - 1])
        case None => Err(InvalidSuit)
        case Some(suit) => Ok(Card(suit, rank))
  }

  /** Every card's two-character code parses back to the card. */
  lemma FromStringToString(c: Card)
    ensures FromString(Some(ToString(c))) == Ok(c)
  {
    var s := c.rank.Symbol() + [SuitLetter(c.suit)];
    assert s[..|s| - 1] == c.rank.Symbol();
    assert RankFromSymbol(c.rank.Symbol()) == Some(c.rank);
    assert SuitFromLetter(SuitLetter(c.suit)) == Some(c.suit);
  }

  /** Distinct cards have distinct codes. */
  lemma ToStringInjective(a: Card, b: Card)
    requires ToString(a) == ToString(b)
    ensures a == b
  {
    FromStringToString(a);
    FromStringToString(b);
  }

  /** The suit letter is read case-insensitively: a lower-case letter parses as its upper-case form. */
  lemma FromStringIgnoresSuitCase(prefix: string, letter: char)
    requires letter in "cdhs"
    ensures FromString(Some(prefix + [letter])) == FromString(Some(prefix + [UpperCaseChar(letter)]))
  {
    var lower, upper := prefix + [letter], prefix + [UpperCaseChar(letter)];
    assert lower[..|lower| - 1] == prefix == upper[..|upper| - 1];
  }
}

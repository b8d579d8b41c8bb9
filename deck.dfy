/** poker-common's Deck: a list of cards and a cursor that only moves forward
    while drawing. */
module Decks {
  import opened Wrappers
  import opened Cards

  /** The exception a deck operation throws. */
  datatype DeckError =
    | NegativeCount   // IllegalArgumentException from draw(count)
    | Exhausted       // IllegalStateException: no card, or too few cards, left

  /** The 52 cards in createSortedDeck's order: suit by suit, ranks ascending within a suit. */
  function SortedCards(): (s: seq<Card>)
    ensures |s| == 52
  {
    seq(52, i requires 0 <= i < 52 => Card(AllSuits[i / 13], AllRanks[i % 13]))
  }

  /** The sorted deck holds every card exactly once, each at position 13 * suit + rank. */
  lemma SortedCardsComplete()
    ensures forall i, j :: 0 <= i < j < 52 ==> SortedCards()[i] != SortedCards()[j]
    ensures forall c: Card :: SortedCards()[13 * c.suit.Ordinal() + c.rank.Ordinal()] == c
    ensures forall c: Card :: c in SortedCards()
  {
    RankOrder();
    SuitOrder();
    var s := SortedCards();
    forall i, j | 0 <= i < j < 52 ensures s[i] != s[j] {
      assert s[i].suit.Ordinal() == i / 13 && s[i].rank.Ordinal() == i % 13;
      assert s[j].suit.Ordinal() == j / 13 && s[j].rank.Ordinal() == j % 13;
    }
    forall c: Card ensures s[13 * c.suit.Ordinal() + c.rank.Ordinal()] == c && c in s {
      var k := 13 * c.suit.Ordinal() + c.rank.Ordinal();
      assert k / 13 == c.suit.Ordinal() && k % 13 == c.rank.Ordinal();
      assert s[k] == c;
    }
  }

  /** createSortedDeck's nested loop: for each suit, for each rank, append the card. */
  method BuildSortedCards() returns (cards: seq<Card>)
    ensures cards == SortedCards()
  {
    cards := [];
    for si := 0 to 4
      invariant cards == SortedCards()[..13 * si]
    {
      for ri := 0 to 13
        invariant cards == SortedCards()[..13 * si + ri]
      {
        cards := cards + [Card(AllSuits[si], AllRanks[ri])];
      }
    }
  }

  class Deck {
    var cards: seq<Card>
    var currentIndex: nat

    /** The cursor never passes the end of the list. */
    ghost predicate Valid()
      reads this
    {
      currentIndex <= |cards|
    }

    /** createSortedDeck(): all 52 cards in order, nothing drawn. */
    constructor Sorted()
      ensures Valid()
      ensures cards == SortedCards() && currentIndex == 0
    {
      var sorted := BuildSortedCards();
      cards := sorted;
      currentIndex := 0;
    }

    /** remaining(): the number of cards not yet drawn. */
    function Remaining(): (n: int)
      reads this
      requires Valid()
      ensures 0 <= n <= |cards|
      ensures n == 0 <==> currentIndex == |cards|
    {
      |cards| - currentIndex
    }

    /** isEmpty(). */
    function IsEmpty(): (b: bool)
      reads this
      requires Valid()
      ensures b <==> currentIndex == |cards|
    {
      Remaining() == 0
    }

    /** shuffle(random): Collections.shuffle's backward Fisher-Yates pass, then
        the cursor goes back to 0. `rnd(k)` stands for the k-th value the random
        source yields; step k swaps position i - 1 with position rnd(k) mod i. */
    method Shuffle(rnd: nat -> nat)
      requires Valid()
      modifies this
      ensures Valid()
      ensures |cards| == |old(cards)| && multiset(cards) == multiset(old(cards))
      ensures currentIndex == 0
    {
      var i := |cards|;
      var step := 0;
      while i > 1
        invariant 0 <= i <= |cards| == |old(cards)|
        invariant multiset(cards) == multiset(old(cards))
      {
        var j := rnd(step) % i;
        var a, b := cards[i - 1], cards[j];
        cards := cards[i - 1 := b][j := a];
        i := i - 1;
        step := step + 1;
      }
      currentIndex := 0;
    }

    /** draw(): the card under the cursor, which then moves on by one. */
    method Draw() returns (r: Result<Card, DeckError>)
      requires Valid()
      modifies this`currentIndex
      ensures Valid()
      ensures r.Ok? <==> old(currentIndex) < |cards|
      ensures r.Ok? ==> r.value == cards[old(currentIndex)] && currentIndex == old(currentIndex) + 1
      ensures r.Err? ==> r.error == Exhausted && currentIndex == old(currentIndex)
    {
      if IsEmpty() {
        return Err(Exhausted);
      }
      r := Ok(cards[currentIndex]);
      currentIndex := currentIndex + 1;
    }

    /** draw(count): refuses a negative count or more cards than remain, taking
        nothing; otherwise the next `count` cards, in order. */
    method DrawMany(count: int) returns (r: Result<seq<Card>, DeckError>)
      requires Valid()
      modifies this`currentIndex
      ensures Valid()
      ensures count < 0 ==> r == Err(NegativeCount)
      ensures 0 <= count && count > old(Remaining()) ==> r == Err(Exhausted)
      ensures r.Err? ==> currentIndex == old(currentIndex)
      ensures 0 <= count <= old(Remaining()) ==>
                r == Ok(cards[old(currentIndex)..old(currentIndex) + count])
                && currentIndex == old(currentIndex) + count
    {
      if count < 0 {
        return Err(NegativeCount);
      }
      if count > Remaining() {
        return Err(Exhausted);
      }
      var drawn: seq<Card> := [];
      for i := 0 to count
        invariant Valid()
        invariant currentIndex == old(currentIndex) + i
        invariant drawn == cards[old(currentIndex)..currentIndex]
      {
        var card := Draw();
        drawn := drawn + [card.value];
      }
      r := Ok(drawn);
    }

    /** reset(): the cursor goes back to the top; the order is untouched. */
    method Reset()
      requires Valid()
      modifies this`currentIndex
      ensures Valid() && currentIndex == 0
    {
      currentIndex := 0;
    }
  }

  /** A fresh sorted deck gives up exactly 52 cards, all of them, and is then
      empty: one more draw fails. */
  method DrawFreshDeckDry() returns (all: Result<seq<Card>, DeckError>, left: int, next: Result<Card, DeckError>)
    ensures all == Ok(SortedCards())
    ensures left == 0
    ensures next == Err(Exhausted)
  {
    var deck := new Deck.Sorted();
    all := deck.DrawMany(52);
    assert deck.cards[0..52] == SortedCards();
    left := deck.Remaining();
    next := deck.Draw();
  }

  /** Asking a fresh deck for 53 cards fails and draws nothing. */
  method OverdrawFreshDeck() returns (r: Result<seq<Card>, DeckError>, left: int)
    ensures r == Err(Exhausted) && left == 52
  {
    var deck := new Deck.Sorted();
    r := deck.DrawMany(53);
    left := deck.Remaining();
  }
}

/** A seated player: a fixed id and name, a chip stack, a state, up to five
    cards and the amount put in during the current betting round. */
module Players {
  import opened Wrappers
  import opened JavaStrings
  import opened Cards
  import opened Ids

  datatype PlayerState = ACTIVE | FOLDED | ALL_IN | SITTING_OUT

  /** The IllegalArgumentException or IllegalStateException a player operation throws. */
  datatype PlayerError =
    | NullId                      // constructor: id is null
    | BlankName                   // constructor: name is null or blank
    | NegativeInitialChips        // constructor: initialChips < 0
    | HandFull                    // addCard on a hand of five
    | HandOverflow                // addCards past five cards
    | InvalidCardIndex(index: int)
    | NegativeBet
    | NotEnoughChips
    | NegativeChips               // addChips with a negative amount

  const MaxHandSize := 5

  /** What a player's operations change: stack, the round's bet, state and hand. */
  datatype Seat = Seat(chips: int, currentBet: int, state: PlayerState, hand: seq<Card>)

  /** Player's invariant on a seat value. */
  predicate SeatValid(s: Seat) {
    s.chips >= 0 && s.currentBet >= 0 && |s.hand| <= MaxHandSize
  }

  /** A bet of `amount` that passed its checks: the stack shrinks and the
      round's bet grows by it; emptying the stack means all-in. */
  function BetSeat(s: Seat, amount: int): (r: Seat)
    ensures r.chips + r.currentBet == s.chips + s.currentBet
    ensures r.hand == s.hand
    ensures r.state == ALL_IN || r.state == s.state
    ensures 0 <= amount <= s.chips && SeatValid(s) ==> SeatValid(r)
  {
    var left := s.chips - amount;
    Seat(left, s.currentBet + amount, if left == 0 then ALL_IN else s.state, s.hand)
  }

  /** resetForNewRound on a seat value. */
  function ResetSeat(s: Seat): (r: Seat)
    ensures r.chips == s.chips && r.hand == s.hand && r.currentBet == 0
    ensures r.state == SITTING_OUT <==> s.state == SITTING_OUT
    ensures r.state != SITTING_OUT ==> r.state == ACTIVE
  {
    s.(currentBet := 0, state := if s.state == SITTING_OUT then SITTING_OUT else ACTIVE)
  }

  /** The cards at `indices`, in the order given; the first index outside the
      hand is reported instead. */
  function Selected(hand: seq<Card>, indices: seq<int>): (r: Result<seq<Card>, PlayerError>)
    ensures r.Ok? <==> forall k :: 0 <= k < |indices| ==> 0 <= indices[k] < |hand|
    ensures r.Ok? ==> |r.value| == |indices|
                      && forall k :: 0 <= k < |indices| ==> r.value[k] == hand[indices[k]]
    ensures r.Err? ==> exists k :: 0 <= k < |indices| && r.error == InvalidCardIndex(indices[k])
                                   && !(0 <= indices[k] < |hand|)
                                   && forall j :: 0 <= j < k ==> 0 <= indices[j] < |hand|
  {
    if indices == [] then Ok([])
    else if !(0 <= indices[0] < |hand|) then Err(InvalidCardIndex(indices[0]))
    else
      var rest := Selected(hand, indices[1..]);
      if rest.Err? then
        assert forall j :: 0 <= j < |indices| - 1 ==> indices[1..][j] == indices[j + 1];
        rest
      else Ok([hand[indices[0]]] + rest.value)
  }

  /** List.removeAll: every card equal to one in `remove` goes, the rest keep their order. */
  function RemoveAll(hand: seq<Card>, remove: seq<Card>): (r: seq<Card>)
    ensures |r| <= |hand|
    ensures forall c :: c in r <==> c in hand && c !in remove
  {
    if hand == [] then []
    else if hand[0] in remove then RemoveAll(hand[1..], remove)
    else [hand[0]] + RemoveAll(hand[1..], remove)
  }

  /** A single card survives exactly when it is not to be removed. */
  lemma RemoveAllOne(c: Card, remove: seq<Card>)
    ensures RemoveAll([c], remove) == if c in remove then [] else [c]
  {
    assert [c][1..] == [];
  }

  /** Removal works on each part of a hand separately, so the surviving cards
      keep their relative order. */
  lemma {:induction false} RemoveAllAppend(a: seq<Card>, b: seq<Card>, remove: seq<Card>)
    ensures RemoveAll(a + b, remove) == RemoveAll(a, remove) + RemoveAll(b, remove)
  {
    if a == [] {
      assert a + b == b;
    } else {
      assert (a + b)[0] == a[0];
      assert (a + b)[1..] == a[1..] + b;
      RemoveAllAppend(a[1..], b, remove);
    }
  }

  /** Every copy of a removed card goes, and every copy of a kept card stays. */
  lemma {:induction false} RemoveAllCopies(hand: seq<Card>, remove: seq<Card>, c: Card)
    ensures multiset(RemoveAll(hand, remove))[c] == if c in remove then 0 else multiset(hand)[c]
  {
    if hand != [] {
      assert hand == [hand[0]] + hand[1..];
      RemoveAllCopies(hand[1..], remove, c);
    }
  }

  /** The elements of a sequence, as a set. */
  function Elements<T>(s: seq<T>): set<T> {
    set c | c in s
  }

  predicate Distinct<T(==)>(s: seq<T>) {
    forall i, j :: 0 <= i < j < |s| ==> s[i] != s[j]
  }

  /** Removing from a hand without repeated cards takes away exactly the cards
      of the hand that are in `remove`. */
  lemma {:induction false} RemoveAllLength(hand: seq<Card>, remove: seq<Card>)
    requires Distinct(hand)
    ensures |RemoveAll(hand, remove)| == |hand| - |Elements(remove) * Elements(hand)|
  {
    if hand == [] {
      assert Elements(remove) * Elements(hand) == {};
    } else {
      var t := hand[1..];
      assert hand == [hand[0]] + t;
      assert Distinct(t);
      assert hand[0] !in t;
      assert Elements(hand) == {hand[0]} + Elements(t);
      RemoveAllLength(t, remove);
      if hand[0] in remove {
        assert Elements(remove) * Elements(hand) == {hand[0]} + Elements(remove) * Elements(t);
      } else {
        assert Elements(remove) * Elements(hand) == Elements(remove) * Elements(t);
      }
    }
  }

  /** Distinct positions of a hand without repeated cards select distinct cards. */
  lemma {:induction false} SelectedCount(hand: seq<Card>, indices: seq<int>)
    requires Distinct(hand) && Distinct(indices)
    requires Selected(hand, indices).Ok?
    ensures |Elements(Selected(hand, indices).value)| == |indices|
    ensures Elements(Selected(hand, indices).value) <= Elements(hand)
  {
    if indices != [] {
      var sel := Selected(hand, indices).value;
      var rest := indices[1..];
      assert Distinct(rest);
      var restSel := Selected(hand, rest);
      assert restSel.Ok? by {
        forall k | 0 <= k < |rest| ensures 0 <= rest[k] < |hand| {
          assert rest[k] == indices[k + 1];
        }
      }
      SelectedCount(hand, rest);
      assert sel == [hand[indices[0]]] + restSel.value;
      assert hand[indices[0]] !in restSel.value by {
        forall k | 0 <= k < |rest| ensures restSel.value[k] != hand[indices[0]] {
          assert rest[k] == indices[k + 1] != indices[0];
        }
      }
      assert Elements(sel) == {hand[indices[0]]} + Elements(restSel.value);
    }
  }

  /** A draw keeps the hand size: with five distinct cards, discarding at
      distinct valid positions and adding as many new cards leaves five. */
  lemma DiscardAndRefillKeepsSize(hand: seq<Card>, indices: seq<int>, drawn: seq<Card>)
    requires Distinct(hand) && Distinct(indices)
    requires Selected(hand, indices).Ok?
    requires |drawn| == |indices|
    ensures |RemoveAll(hand, Selected(hand, indices).value) + drawn| == |hand|
  {
    var sel := Selected(hand, indices).value;
    SelectedCount(hand, indices);
    RemoveAllLength(hand, sel);
    assert Elements(sel) * Elements(hand) == Elements(sel);
  }

  class Player {
    const id: PlayerId
    const name: string
    var chips: int
    var state: PlayerState
    var hand: seq<Card>
    var currentBet: int

    /** The stack and the round's bet never go negative; a hand holds at most five cards. */
    ghost predicate Valid()
      reads this
    {
      SeatValid(Snapshot())
    }

    /** The player's changing fields as one value. */
    function Snapshot(): Seat
      reads this
    {
      Seat(chips, currentBet, state, hand)
    }

    /** new Player(id, name, initialChips) once its argument checks have passed. */
    constructor (id: PlayerId, name: string, initialChips: int)
      requires !IsBlank(name) && initialChips >= 0
      ensures Valid()
      ensures this.id == id && this.name == name && chips == initialChips
      ensures state == ACTIVE && hand == [] && currentBet == 0
    {
      this.id := id;
      this.name := name;
      chips := initialChips;
      state := ACTIVE;
      hand := [];
      currentBet := 0;
    }

    /** The constructor with its argument checks, in the source's order. */
    static method Create(id: Option<PlayerId>, name: Option<string>, initialChips: int)
      returns (r: Result<Player, PlayerError>)
      ensures id.None? ==> r == Err(NullId)
      ensures id.Some? && (name.None? || IsBlank(name.value)) ==> r == Err(BlankName)
      ensures id.Some? && name.Some? && !IsBlank(name.value) && initialChips < 0 ==>
                r == Err(NegativeInitialChips)
      ensures r.Ok? <==> id.Some? && name.Some? && !IsBlank(name.value) && initialChips >= 0
      ensures r.Ok? ==> fresh(r.value) && r.value.Valid()
                        && r.value.id == id.value && r.value.name == name.value
                        && r.value.chips == initialChips && r.value.state == ACTIVE
                        && r.value.hand == [] && r.value.currentBet == 0
    {
      if id.None? {
        return Err(NullId);
      }
      if name.None? || IsBlank(name.value) {
        return Err(BlankName);
      }
      if initialChips < 0 {
        return Err(NegativeInitialChips);
      }
      var p := new Player(id.value, name.value, initialChips);
      r := Ok(p);
    }

    /** isActive(). */
    predicate IsActive()
      reads this
    {
      state == ACTIVE
    }

    /** canAct(): active or all-in. */
    predicate CanAct()
      reads this
    {
      state == ACTIVE || state == ALL_IN
    }

    /** addCard: refused on a full hand, which then stays as it was. */
    method AddCard(c: Card) returns (r: Outcome<PlayerError>)
      requires Valid()
      modifies this`hand
      ensures Valid()
      ensures r.Fail? <==> |old(hand)| >= MaxHandSize
      ensures r.Fail? ==> r.error == HandFull && hand == old(hand)
      ensures r.Pass? ==> hand == old(hand) + [c]
    {
      if |hand| >= MaxHandSize {
        return Fail(HandFull);
      }
      hand := hand + [c];
      r := Pass;
    }

    /** addCards: all or nothing; refused when the hand would pass five cards. */
    method AddCards(cs: seq<Card>) returns (r: Outcome<PlayerError>)
      requires Valid()
      modifies this`hand
      ensures Valid()
      ensures r.Fail? <==> |old(hand)| + |cs| > MaxHandSize
      ensures r.Fail? ==> r.error == HandOverflow && hand == old(hand)
      ensures r.Pass? ==> hand == old(hand) + cs
    {
      if |hand| + |cs| > MaxHandSize {
        return Fail(HandOverflow);
      }
      hand := hand + cs;
      r := Pass;
    }

    /** removeCards: collects the cards at `indices`, stopping at the first index
        outside the hand (nothing is removed then); otherwise every card equal to
        a collected one leaves the hand. */
    method RemoveCards(indices: seq<int>) returns (r: Outcome<PlayerError>)
      requires Valid()
      modifies this`hand
      ensures Valid()
      ensures r.Pass? <==> Selected(old(hand), indices).Ok?
      ensures r.Fail? ==> r.error == Selected(old(hand), indices).error && hand == old(hand)
      ensures r.Pass? ==> hand == RemoveAll(old(hand), Selected(old(hand), indices).value)
    {
      var toRemove: seq<Card> := [];
      for k := 0 to |indices|
        invariant |toRemove| == k
        invariant forall j :: 0 <= j < k ==> 0 <= indices[j] < |hand| && toRemove[j] == hand[indices[j]]
      {
        var index := indices[k];
        if index < 0 || index >= |hand| {
          SelectedFirstInvalid(hand, indices, k);
          return Fail(InvalidCardIndex(index));
        }
        toRemove := toRemove + [hand[index]];
      }
      assert toRemove == Selected(hand, indices).value;
      hand := RemoveAll(hand, toRemove);
      r := Pass;
    }

    /** clearHand: no cards and no bet for the round. */
    method ClearHand()
      requires Valid()
      modifies this`hand, this`currentBet
      ensures Valid()
      ensures hand == [] && currentBet == 0
    {
      hand := [];
      currentBet := 0;
    }

    /** bet: refuses a negative amount or more than the stack; otherwise moves
        `amount` from the stack to the round's bet, and an emptied stack makes
        the player all-in. */
    method Bet(amount: int) returns (r: Outcome<PlayerError>)
      requires Valid()
      modifies this`chips, this`currentBet, this`state
      ensures Valid()
      ensures amount < 0 ==> r == Fail(NegativeBet)
      ensures 0 <= amount && amount > old(chips) ==> r == Fail(NotEnoughChips)
      ensures r.Pass? <==> 0 <= amount <= old(chips)
      ensures r.Fail? ==> chips == old(chips) && currentBet == old(currentBet) && state == old(state)
      ensures r.Pass? ==> Snapshot() == BetSeat(old(Snapshot()), amount)
      ensures chips + currentBet == old(chips) + old(currentBet)
    {
      if amount < 0 {
        return Fail(NegativeBet);
      }
      if amount > chips {
        return Fail(NotEnoughChips);
      }
      chips := chips - amount;
      currentBet := currentBet + amount;
      if chips == 0 {
        state := ALL_IN;
      }
      r := Pass;
    }

    /** fold. */
    method Fold()
      requires Valid()
      modifies this`state
      ensures Valid()
      ensures state == FOLDED
    {
      state := FOLDED;
    }

    /** resetForNewRound: the round's bet goes to zero, and everyone but a player
        sitting out is active again. */
    method ResetForNewRound()
      requires Valid()
      modifies this`currentBet, this`state
      ensures Valid()
      ensures Snapshot() == ResetSeat(old(Snapshot()))
    {
      currentBet := 0;
      if state != SITTING_OUT {
        state := ACTIVE;
      }
    }

    /** addChips: refuses a negative amount. */
    method AddChips(amount: int) returns (r: Outcome<PlayerError>)
      requires Valid()
      modifies this`chips
      ensures Valid()
      ensures r.Fail? <==> amount < 0
      ensures r.Fail? ==> r.error == NegativeChips && chips == old(chips)
      ensures r.Pass? ==> chips == old(chips) + amount
    {
      if amount < 0 {
        return Fail(NegativeChips);
      }
      chips := chips + amount;
      r := Pass;
    }
  }

  /** The first index outside the hand, with every earlier one inside, is the one reported. */
  lemma {:induction false} SelectedFirstInvalid(hand: seq<Card>, indices: seq<int>, k: nat)
    requires k < |indices| && !(0 <= indices[k] < |hand|)
    requires forall j :: 0 <= j < k ==> 0 <= indices[j] < |hand|
    ensures Selected(hand, indices) == Err(InvalidCardIndex(indices[k]))
  {
    if k > 0 {
      SelectedFirstInvalid(hand, indices[1..], k - 1);
    }
  }

  /** Every state that may act (isActive) may also act in the canAct sense. */
  lemma ActiveCanAct(p: Player)
    ensures p.IsActive() ==> p.CanAct()
    ensures p.CanAct() <==> p.state != FOLDED && p.state != SITTING_OUT
  {
  }
}

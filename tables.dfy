/** Value-level views of a poker table, used to state what PokerGame's
    operations do: seats keyed by player id, chip sums, the ante and
    round-reset rules applied to every seat, the scan for the next active
    player, the dealer rotation and the split of the pot. */
module Tables {
  import opened Wrappers
  import opened Cards
  import HandRanks
  import opened Ids
  import opened Players
  import Evaluator

  type Seats = map<PlayerId, Seat>

  /** PokerGame.Payout: who was paid, how much, and the stack after payment. */
  datatype Payout = Payout(playerId: PlayerId, amount: int, newStack: int)

  // ---------------------------------------------------------------- chip sums

  /** The chips held by the players listed in `ids`; an id without a seat holds none. */
  function SumChips(ids: seq<PlayerId>, seats: Seats): int
  {
    if ids == [] then 0
    else (if ids[0] in seats then seats[ids[0]].chips else 0) + SumChips(ids[1..], seats)
  }

  /** Seat maps that agree on the stacks of the listed players give the same sum. */
  lemma {:induction false} SumChipsAgree(ids: seq<PlayerId>, a: Seats, b: Seats)
    requires forall id :: id in ids ==> (id in a <==> id in b)
    requires forall id :: id in ids && id in a ==> a[id].chips == b[id].chips
    ensures SumChips(ids, a) == SumChips(ids, b)
  {
    if ids != [] {
      SumChipsAgree(ids[1..], a, b);
    }
  }

  /** Changing one listed player's seat changes the sum by the change in that stack. */
  lemma {:induction false} SumChipsUpdate(ids: seq<PlayerId>, seats: Seats, k: PlayerId, s: Seat)
    requires Distinct(ids) && k in ids && k in seats
    ensures SumChips(ids, seats[k := s]) == SumChips(ids, seats) - seats[k].chips + s.chips
  {
    assert Distinct(ids[1..]);
    if ids[0] == k {
      assert k !in ids[1..];
      SumChipsAgree(ids[1..], seats[k := s], seats);
    } else {
      assert k in ids[1..];
      SumChipsUpdate(ids[1..], seats, k, s);
    }
  }

  /** A player appended to the list adds exactly their stack. */
  lemma {:induction false} SumChipsAppend(ids: seq<PlayerId>, k: PlayerId, seats: Seats)
    requires k in seats
    ensures SumChips(ids + [k], seats) == SumChips(ids, seats) + seats[k].chips
  {
    if ids == [] {
      assert ids + [k] == [k];
    } else {
      assert (ids + [k])[1..] == ids[1..] + [k];
      SumChipsAppend(ids[1..], k, seats);
    }
  }

  /** The list with every occurrence of `k` dropped, the rest in order. */
  function RemoveId(ids: seq<PlayerId>, k: PlayerId): (r: seq<PlayerId>)
    ensures forall id :: id in r <==> id in ids && id != k
    ensures Distinct(ids) ==> Distinct(r)
    ensures |r| <= |ids| && (k in ids ==> |r| < |ids|)
  {
    if ids == [] then []
    else if ids[0] == k then RemoveId(ids[1..], k)
    else
      var rest := RemoveId(ids[1..], k);
      assert Distinct(ids) ==> Distinct(ids[1..]) && ids[0] !in ids[1..];
      [ids[0]] + rest
  }

  /** Dropping a listed player, and their seat, takes away exactly their stack. */
  lemma {:induction false} SumChipsRemove(ids: seq<PlayerId>, k: PlayerId, seats: Seats)
    requires Distinct(ids) && k in ids && k in seats
    ensures SumChips(RemoveId(ids, k), seats - {k}) == SumChips(ids, seats) - seats[k].chips
  {
    assert Distinct(ids[1..]);
    if ids[0] == k {
      assert k !in ids[1..];
      assert RemoveId(ids[1..], k) == ids[1..] by {
        RemoveIdAbsent(ids[1..], k);
      }
      SumChipsAgree(ids[1..], seats - {k}, seats);
    } else {
      SumChipsRemove(ids[1..], k, seats);
    }
  }

  lemma {:induction false} RemoveIdAbsent(ids: seq<PlayerId>, k: PlayerId)
    requires k !in ids
    ensures RemoveId(ids, k) == ids
  {
    if ids != [] {
      RemoveIdAbsent(ids[1..], k);
      assert ids == [ids[0]] + ids[1..];
    }
  }

  /** removeIf(chips <= 0): the listed players who still have chips, in order. */
  function Funded(ids: seq<PlayerId>, seats: Seats): (r: seq<PlayerId>)
  {
    if ids == [] then []
    else
      var rest := Funded(ids[1..], seats);
      if ids[0] in seats && seats[ids[0]].chips > 0 then [ids[0]] + rest else rest
  }

  /** The survivors are exactly the listed players with chips, without repeats. */
  lemma {:induction false} FundedSpec(ids: seq<PlayerId>, seats: Seats)
    ensures forall id :: id in Funded(ids, seats) <==> id in ids && id in seats && seats[id].chips > 0
    ensures Distinct(ids) ==> Distinct(Funded(ids, seats))
  {
    if ids != [] {
      FundedSpec(ids[1..], seats);
      assert Distinct(ids) ==> Distinct(ids[1..]) && ids[0] !in ids[1..];
      assert forall id :: id in ids <==> id == ids[0] || id in ids[1..];
    }
  }

  /** Removing the players left with no chips does not change the chip total. */
  lemma {:induction false} SumChipsFunded(ids: seq<PlayerId>, seats: Seats)
    requires forall id :: id in ids && id in seats ==> seats[id].chips >= 0
    ensures SumChips(Funded(ids, seats), seats) == SumChips(ids, seats)
  {
    if ids != [] {
      SumChipsFunded(ids[1..], seats);
    }
  }

  // ---------------------------------------------------------------- per-player loops

  /** What a loop over the players does to each seat: collectAnte's step or
      resetForNewRound. */
  datatype SeatStep = AnteStep(ante: int) | ResetStep

  function Apply(step: SeatStep, s: Seat): Seat
  {
    match step
    case AnteStep(ante) => AnteSeat(s, ante)
    case ResetStep => ResetSeat(s)
  }

  /** A loop over the listed players that applies `step` to each seated one. */
  function UpdateEach(ids: seq<PlayerId>, seats: Seats, step: SeatStep): (r: Seats)
    ensures r.Keys == seats.Keys
  {
    if ids == [] then seats
    else if ids[0] in seats then UpdateEach(ids[1..], seats[ids[0] := Apply(step, seats[ids[0]])], step)
    else UpdateEach(ids[1..], seats, step)
  }

  /** `step` applied to every seat. */
  function AfterEach(seats: Seats, step: SeatStep): Seats
  {
    map id | id in seats :: Apply(step, seats[id])
  }

  /** Over distinct ids, the loop applies `step` once to each listed seat and leaves the rest. */
  lemma {:induction false} UpdateEachPointwise(ids: seq<PlayerId>, seats: Seats, step: SeatStep)
    requires Distinct(ids)
    ensures forall k :: k in seats ==> UpdateEach(ids, seats, step)[k] == if k in ids then Apply(step, seats[k]) else seats[k]
  {
    if ids != [] {
      var next := if ids[0] in seats then seats[ids[0] := Apply(step, seats[ids[0]])] else seats;
      assert Distinct(ids[1..]);
      UpdateEachPointwise(ids[1..], next, step);
      assert ids[0] !in ids[1..];
      assert forall k :: k in ids <==> k == ids[0] || k in ids[1..];
    }
  }

  /** A loop over distinct ids that lists every seated player applies `step` to every seat. */
  lemma UpdateEachCoversAll(ids: seq<PlayerId>, seats: Seats, step: SeatStep)
    requires Distinct(ids) && forall id :: id in seats ==> id in ids
    ensures UpdateEach(ids, seats, step) == AfterEach(seats, step)
  {
    UpdateEachPointwise(ids, seats, step);
  }

  // ---------------------------------------------------------------- ante

  /** collectAnte for one player: a stack below the ante sits out; any other
      stack bets the ante (and goes all-in when that empties it). */
  function AnteSeat(s: Seat, ante: int): Seat
  {
    if s.chips < ante then s.(state := SITTING_OUT) else BetSeat(s, ante)
  }

  /** How many of the listed players can pay the ante. */
  function Payers(ids: seq<PlayerId>, seats: Seats, ante: int): nat
  {
    if ids == [] then 0
    else (if ids[0] in seats && seats[ids[0]].chips >= ante then 1 else 0) + Payers(ids[1..], seats, ante)
  }

  /** Counting payers ignores the seat of a player who is not listed. */
  lemma {:induction false} PayersIgnoresOthers(ids: seq<PlayerId>, seats: Seats, k: PlayerId, s: Seat, ante: int)
    requires k !in ids
    ensures Payers(ids, seats[k := s], ante) == Payers(ids, seats, ante)
  {
    if ids != [] {
      PayersIgnoresOthers(ids[1..], seats, k, s, ante);
    }
  }

  /** Ante conservation: what the payers lose is exactly ante times their number. */
  lemma {:induction false} AnteConservesChips(ids: seq<PlayerId>, seats: Seats, ante: int)
    ensures SumChips(ids, AfterEach(seats, AnteStep(ante))) + ante * Payers(ids, seats, ante) == SumChips(ids, seats)
  {
    if ids != [] {
      AnteConservesChips(ids[1..], seats, ante);
      var p := Payers(ids[1..], seats, ante);
      if ids[0] in seats && seats[ids[0]].chips >= ante {
        assert ante * (1 + p) == ante + ante * p;
      }
    }
  }

  // ---------------------------------------------------------------- activity

  /** The ids whose player is ACTIVE. */
  function ActiveIds(seats: Seats): set<PlayerId>
  {
    set id | id in seats && seats[id].state == ACTIVE
  }

  /** The number of listed players that are ACTIVE. */
  function CountActive(ids: seq<PlayerId>, seats: Seats): (n: nat)
    ensures n <= |ids|
  {
    if ids == [] then 0
    else (if ids[0] in ActiveIds(seats) then 1 else 0) + CountActive(ids[1..], seats)
  }

  /** The count is zero exactly when no listed player is active. */
  lemma {:induction false} CountActiveZero(ids: seq<PlayerId>, seats: Seats)
    ensures CountActive(ids, seats) == 0 <==> forall id :: id in ids ==> id !in ActiveIds(seats)
  {
    if ids != [] {
      CountActiveZero(ids[1..], seats);
      assert forall id :: id in ids <==> id == ids[0] || id in ids[1..];
    }
  }

  /** advanceTurn's completion test: every active player has matched the bet
      (the all-in alternative can never apply to an ACTIVE player). */
  predicate AllMatched(seats: Seats, bet: int)
  {
    forall id :: id in seats && seats[id].state == ACTIVE ==>
      seats[id].currentBet == bet || seats[id].state == ALL_IN
  }

  // ---------------------------------------------------------------- turn order

  /** List.indexOf: the first position of `id`, or -1. */
  function IndexOfId(ids: seq<PlayerId>, id: PlayerId): (i: int)
    ensures -1 <= i < |ids|
    ensures i >= 0 ==> ids[i] == id && id !in ids[..i]
    ensures i == -1 <==> id !in ids
  {
    if ids == [] then -1
    else if ids[0] == id then 0
    else
      var j := IndexOfId(ids[1..], id);
      if j == -1 then -1
      else
        assert ids[..j + 1] == [ids[0]] + ids[1..][..j];
        j + 1
  }

  /** startGame's rotation: the join order shifted left by k places. */
  function Rotate(ids: seq<PlayerId>, k: nat): (r: seq<PlayerId>)
    requires k <= |ids|
    ensures |r| == |ids|
  {
    ids[k..] + ids[..k]
  }

  /** The rotation holds the same players as the join order. */
  lemma RotatePermutes(ids: seq<PlayerId>, k: nat)
    requires k <= |ids|
    ensures multiset(Rotate(ids, k)) == multiset(ids)
  {
    assert ids == ids[..k] + ids[k..];
  }

  /** Place i of the rotation holds place k + i of the join order, counted round the table. */
  lemma RotateIndex(ids: seq<PlayerId>, k: nat)
    requires k <= |ids|
    ensures forall i :: 0 <= i < |ids| ==> Rotate(ids, k)[i] == ids[(k + i) % |ids|]
  {
    var r := Rotate(ids, k);
    forall i | 0 <= i < |ids| ensures r[i] == ids[(k + i) % |ids|] {
      WrapOnce(k + i, |ids|);
    }
  }

  /** A count below twice the table size wraps round it at most once. */
  lemma WrapOnce(a: nat, n: nat)
    requires 0 < n && a < 2 * n
    ensures a % n == if a < n then a else a - n
  {
  }

  /** One turn of startGame's loop: moving the head to the back rotates one place further. */
  lemma RotateStep(ids: seq<PlayerId>, k: nat)
    requires k < |ids|
    ensures Rotate(ids, k)[0] == ids[k]
    ensures Rotate(ids, k)[1..] + [Rotate(ids, k)[0]] == Rotate(ids, k + 1)
  {
    assert Rotate(ids, k) == ids[k..] + ids[..k];
    assert Rotate(ids, k + 1) == ids[k + 1..] + ids[..k + 1];
    assert ids[k..] == [ids[k]] + ids[k + 1..];
    assert ids[..k + 1] == ids[..k] + [ids[k]];
  }

  /** The position findNextActivePlayer looks at in its m-th step from `start`. */
  function Pos(start: int, m: nat, n: nat): nat
    requires n > 0 && start + m >= 0
  {
    (start + m) % n
  }

  /** findNextActivePlayer's scan: steps i, i + 1, … up to |ring| from `start`;
      the first active id met. */
  function ScanFrom(ring: seq<PlayerId>, start: int, active: set<PlayerId>, i: nat): (r: Option<PlayerId>)
    requires -1 <= start < |ring| && 1 <= i
    decreases |ring| + 1 - i
  {
    if i > |ring| then None
    else
      var id := ring[Pos(start, i, |ring|)];
      if id in active then Some(id) else ScanFrom(ring, start, active, i + 1)
  }

  /** The scan from step i returns the first active id it meets, and none only
      when every step from i on meets an inactive one. */
  lemma {:induction false} ScanFromSpec(ring: seq<PlayerId>, start: int, active: set<PlayerId>, i: nat)
    requires -1 <= start < |ring| && 1 <= i
    decreases |ring| + 1 - i
    ensures var r := ScanFrom(ring, start, active, i);
      && (r.Some? ==> r.value in active && r.value in ring)
      && (r.Some? ==> exists j :: i <= j <= |ring| && r.value == ring[Pos(start, j, |ring|)]
                                 && forall m :: i <= m < j ==> ring[Pos(start, m, |ring|)] !in active)
      && (r.None? ==> forall m :: i <= m <= |ring| ==> ring[Pos(start, m, |ring|)] !in active)
  {
    if i <= |ring| && ring[Pos(start, i, |ring|)] !in active {
      ScanFromSpec(ring, start, active, i + 1);
      var r := ScanFrom(ring, start, active, i);
      if r.Some? {
        var j :| i + 1 <= j <= |ring| && r.value == ring[Pos(start, j, |ring|)]
                 && forall m :: i + 1 <= m < j ==> ring[Pos(start, m, |ring|)] !in active;
        assert forall m :: i <= m < j ==> ring[Pos(start, m, |ring|)] !in active;
      }
    } else if i <= |ring| {
      assert ring[Pos(start, i, |ring|)] in ring;
    }
  }

  /** Every position of the ring is visited by the scan from `start`. */
  lemma ScanVisitsAll(ring: seq<PlayerId>, start: int, k: nat)
    requires -1 <= start < |ring| && k < |ring|
    ensures exists m :: 1 <= m <= |ring| && Pos(start, m, |ring|) == k
  {
    var m := if k > start then k - start else k - start + |ring|;
    assert Pos(start, m, |ring|) == k;
  }

  /** findNextActivePlayer(after): the scan of the turn order from just past
      `after` (from the start when `after` is not in it). */
  function NextActive(ring: seq<PlayerId>, after: Option<PlayerId>, active: set<PlayerId>): (r: Option<PlayerId>)
  {
    if |ring| == 0 then None else ScanFrom(ring, StartIndex(ring, after), active, 1)
  }

  /** The scan finds the first active id going round the turn order from just
      past `after`, and finds none only when no one in the turn order is active. */
  lemma NextActiveSpec(ring: seq<PlayerId>, after: Option<PlayerId>, active: set<PlayerId>)
    ensures var r := NextActive(ring, after, active);
      && (r.Some? ==> r.value in active && r.value in ring)
      && (r.None? <==> forall k :: 0 <= k < |ring| ==> ring[k] !in active)
      && (r.Some? ==>
            var start := StartIndex(ring, after);
            exists j :: 1 <= j <= |ring| && r.value == ring[Pos(start, j, |ring|)]
                        && forall m :: 1 <= m < j ==> ring[Pos(start, m, |ring|)] !in active)
  {
    if |ring| > 0 {
      var start := StartIndex(ring, after);
      ScanFromSpec(ring, start, active, 1);
      if ScanFrom(ring, start, active, 1).None? {
        forall k | 0 <= k < |ring| ensures ring[k] !in active {
          ScanVisitsAll(ring, start, k);
        }
      }
    }
  }

  /** indexOf(after), which is -1 for an absent or null id. */
  function StartIndex(ring: seq<PlayerId>, after: Option<PlayerId>): (i: int)
    ensures -1 <= i < |ring|
  {
    if after.None? then -1 else IndexOfId(ring, after.value)
  }

  // ---------------------------------------------------------------- showdown and payout

  /** Stream.max with HandRank.compareTo, kept as a left fold that replaces the
      running maximum only by a strictly greater rank. */
  function MaxRank(ranks: seq<HandRanks.HandRank>): (m: HandRanks.HandRank)
    requires |ranks| > 0
    ensures m in ranks
    ensures forall x :: x in ranks ==> HandRanks.Compare(x, m) <= 0
  {
    if |ranks| == 1 then
      HandRanks.CompareZeroIffEqual(ranks[0], ranks[0]);
      ranks[0]
    else
      var init := ranks[..|ranks| - 1];
      var m := MaxRank(init);
      var x := ranks[|ranks| - 1];
      assert ranks == init + [x];
      HandRanks.CompareAntisymmetric(m, x);
      HandRanks.CompareZeroIffEqual(m, m);
      HandRanks.CompareZeroIffEqual(x, x);
      if HandRanks.Compare(m, x) >= 0 then m
      else
        UpperBoundRaised(init, m, x);
        x
  }

  lemma UpperBoundRaised(s: seq<HandRanks.HandRank>, m: HandRanks.HandRank, x: HandRanks.HandRank)
    requires forall y :: y in s ==> HandRanks.Compare(y, m) <= 0
    requires HandRanks.Compare(m, x) < 0
    ensures forall y :: y in s ==> HandRanks.Compare(y, x) <= 0
  {
    forall y | y in s ensures HandRanks.Compare(y, x) <= 0 {
      HandRanks.CompareTransitive(y, m, x);
    }
  }

  /** The ranks in the iteration order of the rankings map. */
  function RanksInOrder(ids: seq<PlayerId>, rankings: map<PlayerId, HandRanks.HandRank>): (r: seq<HandRanks.HandRank>)
    requires forall id :: id in ids ==> id in rankings
    ensures |r| == |ids| && forall i :: 0 <= i < |ids| ==> r[i] == rankings[ids[i]]
  {
    seq(|ids|, i requires 0 <= i < |ids| => rankings[ids[i]])
  }

  /** The listed ids whose rank compares equal to `best`, in order. */
  function Winners(ids: seq<PlayerId>, rankings: map<PlayerId, HandRanks.HandRank>, best: HandRanks.HandRank): (w: seq<PlayerId>)
    ensures forall id :: id in w <==> id in ids && id in rankings && rankings[id] == best
    ensures Distinct(ids) ==> Distinct(w)
  {
    if ids == [] then []
    else
      var rest := Winners(ids[1..], rankings, best);
      assert Distinct(ids) ==> Distinct(ids[1..]);
      if ids[0] in rankings && HandRanks.Compare(rankings[ids[0]], best) == 0 then
        HandRanks.CompareZeroIffEqual(rankings[ids[0]], best);
        [ids[0]] + rest
      else if ids[0] in rankings then
        HandRanks.CompareZeroIffEqual(rankings[ids[0]], best);
        rest
      else rest
  }

  /** Someone holds the best rank. */
  lemma WinnersNonEmpty(ids: seq<PlayerId>, rankings: map<PlayerId, HandRanks.HandRank>)
    requires |ids| > 0 && forall id :: id in ids ==> id in rankings
    ensures |Winners(ids, rankings, MaxRank(RanksInOrder(ids, rankings)))| > 0
  {
    var ranks := RanksInOrder(ids, rankings);
    var k :| 0 <= k < |ranks| && ranks[k] == MaxRank(ranks);
    assert ids[k] in Winners(ids, rankings, MaxRank(ranks));
  }

  /** The winners are exactly the ranked players whom nobody beats, and there is at least one. */
  lemma WinnersHoldTheMaximum(ids: seq<PlayerId>, rankings: map<PlayerId, HandRanks.HandRank>)
    requires |ids| > 0 && forall id :: id in ids ==> id in rankings
    ensures var w := Winners(ids, rankings, MaxRank(RanksInOrder(ids, rankings)));
            |w| > 0
            && forall id :: id in w <==>
                 id in ids && forall o :: o in ids ==> HandRanks.Compare(rankings[o], rankings[id]) <= 0
  {
    var ranks := RanksInOrder(ids, rankings);
    var best := MaxRank(ranks);
    var w := Winners(ids, rankings, best);
    var k :| 0 <= k < |ranks| && ranks[k] == best;
    assert ids[k] in w;
    forall id | id in ids
      ensures id in w <==> forall o :: o in ids ==> HandRanks.Compare(rankings[o], rankings[id]) <= 0
    {
      var i :| 0 <= i < |ids| && ids[i] == id;
      assert rankings[id] in ranks by { assert ranks[i] == rankings[id]; }
      HandRanks.CompareZeroIffEqual(rankings[id], best);
      if id in w {
        forall o | o in ids ensures HandRanks.Compare(rankings[o], rankings[id]) <= 0 {
          var j :| 0 <= j < |ids| && ids[j] == o;
          assert ranks[j] == rankings[o];
        }
      } else {
        assert HandRanks.Compare(rankings[ids[k]], rankings[id]) > 0 by {
          HandRanks.CompareAntisymmetric(rankings[id], best);
        }
      }
    }
  }

  /** What the i-th of n winners receives: pot / n, and the first also gets pot % n. */
  function Share(pot: int, n: int, i: int): int
    requires n > 0
  {
    pot / n + (if i == 0 then pot % n else 0)
  }

  /** The shares paid to the first k winners. */
  function SharesUpTo(pot: int, n: int, k: nat): int
    requires n > 0
  {
    if k == 0 then 0 else SharesUpTo(pot, n, k - 1) + Share(pot, n, k - 1)
  }

  /** Splitting the pot hands out all of it, no more and no less. */
  lemma SharesSumToPot(pot: int, n: int)
    requires n > 0
    ensures SharesUpTo(pot, n, n) == pot
  {
    SharesClosedForm(pot, n, n);
  }

  lemma {:induction false} SharesClosedForm(pot: int, n: int, k: nat)
    requires n > 0
    ensures SharesUpTo(pot, n, k) == k * (pot / n) + (if k > 0 then pot % n else 0)
  {
    if k > 0 {
      SharesClosedForm(pot, n, k - 1);
      assert k * (pot / n) == (k - 1) * (pot / n) + pot / n;
    }
  }

  /** A non-negative pot gives every winner a non-negative share, and the first
      winner the most. */
  lemma SharesNonNegative(pot: int, n: int, i: int)
    requires pot >= 0 && n > 0
    ensures 0 <= Share(pot, n, i) <= Share(pot, n, 0)
  {
  }

  /** The total of a list of payouts. */
  function PaidTotal(ps: seq<Payout>): int
  {
    if ps == [] then 0 else PaidTotal(ps[..|ps| - 1]) + ps[|ps| - 1].amount
  }

  // ---------------------------------------------------------------- dealing

  /** The i-th of the dealt five-card slices. */
  function Slice(cards: seq<Card>, k: nat): seq<Card>
    requires 5 * k + 5 <= |cards|
  {
    cards[5 * k .. 5 * k + 5]
  }

  /** Different slices of a deck without repeated cards share no card: dealt
      hands are disjoint, and each holds five different cards. */
  lemma SlicesDisjoint(cards: seq<Card>, a: nat, b: nat)
    requires Distinct(cards) && 5 * a + 5 <= |cards| && 5 * b + 5 <= |cards|
    ensures Distinct(Slice(cards, a))
    ensures a != b ==> forall c :: c in Slice(cards, a) ==> c !in Slice(cards, b)
  {
    if a != b {
      forall c | c in Slice(cards, a) ensures c !in Slice(cards, b) {
        var i :| 0 <= i < 5 && Slice(cards, a)[i] == c;
        forall j | 0 <= j < 5 ensures Slice(cards, b)[j] != c {
          assert Slice(cards, b)[j] == cards[5 * b + j];
          assert c == cards[5 * a + i];
          assert 5 * a + i != 5 * b + j;
        }
      }
    }
  }

  /** A permutation of a sequence without repeats has none either. */
  lemma PermutationKeepsDistinct(a: seq<Card>, b: seq<Card>)
    requires multiset(a) == multiset(b) && Distinct(b)
    ensures Distinct(a)
  {
    forall i, j | 0 <= i < j < |a| ensures a[i] != a[j] {
      Evaluator.DistinctMultiplicity(b, a[i]);
      RepeatCountsTwice(a, i, j);
    }
  }

  lemma RepeatCountsTwice(a: seq<Card>, i: nat, j: nat)
    requires i < j < |a|
    ensures a[i] == a[j] ==> multiset(a)[a[i]] >= 2
  {
    assert a == a[..j] + [a[j]] + a[j + 1..];
    assert a[i] in a[..j];
  }
}

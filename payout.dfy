/** What distributePot promises: the winners are exactly the best hands, the
    pot is split among them with the remainder to the first, every chip of
    the pot reaches a stack, and only players left with chips stay seated. */
module PayoutLaws {
  import opened Wrappers
  import HandRanks
  import opened Ids
  import opened Players
  import opened Tables
  import opened GameRules
  import opened GameProps

  // ---------------------------------------------------------------- shares

  /** Payouts that carry the shares in order add up to the shares handed out. */
  lemma {:induction false} PaidTotalOfShares(ps: seq<Payout>, pot: int, n: int)
    requires n > 0
    requires forall j :: 0 <= j < |ps| ==> ps[j].amount == Share(pot, n, j)
    ensures PaidTotal(ps) == SharesUpTo(pot, n, |ps|)
  {
    if ps != [] {
      var init := ps[..|ps| - 1];
      assert forall j :: 0 <= j < |init| ==> init[j] == ps[j];
      PaidTotalOfShares(init, pot, n);
    }
  }

  /** Paying the first k winners adds exactly their shares to the listed stacks. */
  lemma {:induction false} PayFirstAddsShares(ids: seq<PlayerId>, seats: Seats, winners: seq<PlayerId>, k: nat, pot: int, n: int)
    requires Distinct(ids) && k <= |winners| && n > 0
    requires forall j :: 0 <= j < k ==> winners[j] in seats && winners[j] in ids
    ensures SumChips(ids, PayFirst(seats, winners, k, pot, n)) == SumChips(ids, seats) + SharesUpTo(pot, n, k)
  {
    if k > 0 {
      PayFirstAddsShares(ids, seats, winners, k - 1, pot, n);
      var before := PayFirst(seats, winners, k - 1, pot, n);
      var w := winners[k - 1];
      SumChipsUpdate(ids, before, w, before[w].(chips := before[w].chips + Share(pot, n, k - 1)));
    }
  }

  /** A seat that is not among the first k winners is not paid. */
  lemma {:induction false} PayFirstSkips(seats: Seats, winners: seq<PlayerId>, k: nat, pot: int, n: int, id: PlayerId)
    requires k <= |winners| && n > 0
    requires forall j :: 0 <= j < k ==> winners[j] in seats
    requires id in seats && id !in winners[..k]
    ensures PayFirst(seats, winners, k, pot, n)[id] == seats[id]
  {
    if k > 0 {
      assert winners[..k] == winners[..k - 1] + [winners[k - 1]];
      PayFirstSkips(seats, winners, k - 1, pot, n, id);
    }
  }

  /** The j-th of the first k distinct winners gains exactly the j-th share. */
  lemma {:induction false} PayFirstPaysOne(seats: Seats, winners: seq<PlayerId>, k: nat, pot: int, n: int, j: nat)
    requires Distinct(winners) && j < k <= |winners| && n > 0
    requires forall i :: 0 <= i < k ==> winners[i] in seats
    ensures var w := winners[j];
      PayFirst(seats, winners, k, pot, n)[w] == seats[w].(chips := seats[w].chips + Share(pot, n, j))
  {
    if j < k - 1 {
      assert winners[j] != winners[k - 1];
      PayFirstPaysOne(seats, winners, k - 1, pot, n, j);
    } else {
      assert winners[j] !in winners[..j];
      PayFirstSkips(seats, winners, j, pot, n, winners[j]);
    }
  }

  /** Each of the first k distinct winners gains exactly their own share; every
      other seat is left as it was. */
  lemma PayFirstPays(seats: Seats, winners: seq<PlayerId>, k: nat, pot: int, n: int)
    requires Distinct(winners) && k <= |winners| && n > 0
    requires forall j :: 0 <= j < k ==> winners[j] in seats
    ensures var paid := PayFirst(seats, winners, k, pot, n);
      && (forall j :: 0 <= j < k ==> paid[winners[j]] == seats[winners[j]].(chips := seats[winners[j]].chips + Share(pot, n, j)))
      && (forall id :: id in seats && id !in winners[..k] ==> paid[id] == seats[id])
  {
    forall j | 0 <= j < k
      ensures PayFirst(seats, winners, k, pot, n)[winners[j]] == seats[winners[j]].(chips := seats[winners[j]].chips + Share(pot, n, j))
    {
      PayFirstPaysOne(seats, winners, k, pot, n, j);
    }
    forall id | id in seats && id !in winners[..k]
      ensures PayFirst(seats, winners, k, pot, n)[id] == seats[id]
    {
      PayFirstSkips(seats, winners, k, pot, n, id);
    }
  }

  // ---------------------------------------------------------------- distributePot

  /** A completed payment hands out the whole pot: the payouts follow the
      winners, the first takes pot / n plus the remainder and every other
      pot / n, each payout records the winner's new stack, and the amounts sum
      to the pot. */
  lemma PayPotSplits(v: View, minPlayers: int, winners: seq<PlayerId>)
    requires |winners| > 0 && Distinct(winners)
    ensures var r := PayPot(v, minPlayers, winners).1;
      var n := |winners|;
      r.Ok? ==>
        && |r.value| == n
        && PaidTotal(r.value) == v.pot
        && r.value[0].amount == v.pot / n + v.pot % n
        && (forall j :: 0 < j < n ==> r.value[j].amount == v.pot / n)
        && (forall j :: 0 <= j < n ==>
              && r.value[j].playerId == winners[j] && winners[j] in v.seats
              && r.value[j].newStack == v.seats[winners[j]].chips + r.value[j].amount)
  {
    var n := |winners|;
    var k := SeatedPrefix(winners, v.seats);
    var r := PayPot(v, minPlayers, winners).1;
    if r.Ok? {
      var paid := PayFirst(v.seats, winners, k, v.pot, n);
      assert k == n;
      assert r.value == seq(n, j requires 0 <= j < n => Payout(winners[j], Share(v.pot, n, j), paid[winners[j]].chips));
      PayFirstPays(v.seats, winners, k, v.pot, n);
      PaidTotalOfShares(r.value, v.pot, n);
      SharesSumToPot(v.pot, n);
    }
  }

  /** The chips of a completed payment all stay on the table: the pot empties
      into the winners' stacks, only players left without chips leave, and the
      game returns to the lobby exactly when enough players remain. */
  lemma PayPotConserves(v: View, minPlayers: int, winners: seq<PlayerId>)
    requires Consistent(v) && |winners| > 0 && Distinct(winners)
    ensures var w, r := PayPot(v, minPlayers, winners).0, PayPot(v, minPlayers, winners).1;
      r.Ok? ==>
        && w.pot == 0
        && Total(w) == Total(v)
        && Consistent(w)
        && w.seats.Keys <= v.seats.Keys
        && (forall id :: id in w.seats ==> w.seats[id].chips > 0)
        && (forall id :: id in v.seats && v.seats[id].chips > 0 ==> id in w.seats)
        && (w.state == LOBBY <==> |w.order| >= minPlayers)
        && (w.state != LOBBY ==> w.state == END)
  {
    var n := |winners|;
    var k := SeatedPrefix(winners, v.seats);
    if k == n {
      var paid := PayFirst(v.seats, winners, k, v.pot, n);
      var u := v.(seats := paid, pot := 0, state := END);
      assert PayPot(v, minPlayers, winners).0 == Sweep(u, minPlayers);
      assert forall j :: 0 <= j < k ==> winners[j] in v.order by {
        assert forall id :: id in v.seats ==> id in Elements(v.order);
      }
      PayPotConsistent(v, minPlayers, winners);
      PayFirstAddsShares(v.order, v.seats, winners, k, v.pot, n);
      SharesSumToPot(v.pot, n);
      PayFirstPays(v.seats, winners, k, v.pot, n);
      SweepKeepsFunded(u, minPlayers);
      forall id | id in v.seats && v.seats[id].chips > 0
        ensures paid[id].chips > 0
      {
        if id in winners[..k] {
          var j :| 0 <= j < k && winners[j] == id;
          SharesNonNegative(v.pot, n, j);
        }
      }
    }
  }

  /** A winner who is no longer seated stops the payments: the winners before
      them keep their shares while the pot still holds every chip, so the
      table then counts those shares twice. */
  lemma PayPotStopsAtMissingWinner(v: View, minPlayers: int, winners: seq<PlayerId>)
    requires Consistent(v) && |winners| > 0
    ensures var w, r := PayPot(v, minPlayers, winners).0, PayPot(v, minPlayers, winners).1;
      var k := SeatedPrefix(winners, v.seats);
      r.Err? ==>
        && k < |winners| && winners[k] !in v.seats
        && r.error == NullPointer
        && w.pot == v.pot && w.state == v.state
        && Total(w) == Total(v) + SharesUpTo(v.pot, |winners|, k)
  {
    var n := |winners|;
    var k := SeatedPrefix(winners, v.seats);
    if k < n {
      assert forall j :: 0 <= j < k ==> winners[j] in v.order by {
        assert forall id :: id in v.seats ==> id in Elements(v.order);
      }
      PayFirstAddsShares(v.order, v.seats, winners, k, v.pot, n);
    }
  }

  /** The sweep keeps exactly the seated players with chips and their chips. */
  lemma SweepKeepsFunded(u: View, minPlayers: int)
    requires Consistent(u)
    ensures var w := Sweep(u, minPlayers);
      && (forall id :: id in w.seats <==> id in u.seats && u.seats[id].chips > 0)
      && (forall id :: id in w.seats ==> w.seats[id] == u.seats[id])
      && Total(w) == Total(u)
      && w.pot == u.pot
      && (w.state == if |w.order| >= minPlayers then LOBBY else u.state)
  {
    var w := Sweep(u, minPlayers);
    FundedSpec(u.order, u.seats);
    assert forall id :: id in u.seats ==> id in Elements(u.order);
    SumChipsAgree(w.order, w.seats, u.seats);
    SumChipsFunded(u.order, u.seats);
  }

  // ---------------------------------------------------------------- the whole call

  /** `id` holds a rank that no other ranking beats. */
  predicate Best(rankings: map<PlayerId, HandRanks.HandRank>, id: PlayerId)
  {
    id in rankings && forall o :: o in rankings ==> HandRanks.Compare(rankings[o], rankings[id]) <= 0
  }

  /** distributePot refuses outside SHOWDOWN and changes nothing; with no
      rankings it fails after moving to PAYOUT. */
  lemma DistributeRefuses(v: View, minPlayers: int, rankings: map<PlayerId, HandRanks.HandRank>, rankOrder: seq<PlayerId>)
    requires Distinct(rankOrder) && forall id :: id in rankOrder <==> id in rankings
    ensures var w, r := Distribute(v, minPlayers, rankings, rankOrder).0, Distribute(v, minPlayers, rankings, rankOrder).1;
      && (v.state != SHOWDOWN ==> w == v && r == Err(InvalidMove(STATE_MISMATCH)))
      && (v.state == SHOWDOWN && rankings == map[] ==> w == v.(state := PAYOUT) && r == Err(NoSuchElement))
  {
  }

  /** The winners distributePot computes are exactly the players whose hand
      nobody beats, each once. */
  lemma WinnersAreBest(rankings: map<PlayerId, HandRanks.HandRank>, rankOrder: seq<PlayerId>)
    requires |rankOrder| > 0 && Distinct(rankOrder) && forall id :: id in rankOrder <==> id in rankings
    ensures var winners := WinnersOf(rankings, rankOrder);
      && Distinct(winners)
      && forall id :: id in winners <==> Best(rankings, id)
  {
    WinnersHoldTheMaximum(rankOrder, rankings);
  }

  /** When distributePot pays, it pays exactly the players whose hand nobody
      beats, tied players each once, in the rankings' iteration order. */
  lemma DistributePaysBest(v: View, minPlayers: int, rankings: map<PlayerId, HandRanks.HandRank>, rankOrder: seq<PlayerId>)
    requires Distinct(rankOrder) && forall id :: id in rankOrder <==> id in rankings
    ensures var r := Distribute(v, minPlayers, rankings, rankOrder).1;
      r.Ok? ==>
        && (forall j :: 0 <= j < |r.value| ==> Best(rankings, r.value[j].playerId))
        && (forall id :: Best(rankings, id) ==> exists j :: 0 <= j < |r.value| && r.value[j].playerId == id)
        && (forall i, j :: 0 <= i < j < |r.value| ==> r.value[i].playerId != r.value[j].playerId)
  {
    if v.state == SHOWDOWN && rankOrder != [] {
      var winners := WinnersOf(rankings, rankOrder);
      var ps := PayPot(v.(state := PAYOUT), minPlayers, winners).1;
      assert Distribute(v, minPlayers, rankings, rankOrder).1 == ps;
      if ps.Ok? {
        PayPotSplits(v.(state := PAYOUT), minPlayers, winners);
        WinnersAreBest(rankings, rankOrder);
        PayoutsFollowWinners(ps.value, winners, rankings);
      }
    }
  }

  /** Payouts made to distinct winners, in order, pay each best player once. */
  lemma PayoutsFollowWinners(ps: seq<Payout>, winners: seq<PlayerId>, rankings: map<PlayerId, HandRanks.HandRank>)
    requires |ps| == |winners| && Distinct(winners)
    requires forall j :: 0 <= j < |ps| ==> ps[j].playerId == winners[j]
    requires forall id :: id in winners <==> Best(rankings, id)
    ensures forall j :: 0 <= j < |ps| ==> Best(rankings, ps[j].playerId)
    ensures forall id :: Best(rankings, id) ==> exists j :: 0 <= j < |ps| && ps[j].playerId == id
    ensures forall i, j :: 0 <= i < j < |ps| ==> ps[i].playerId != ps[j].playerId
  {
    forall id | Best(rankings, id)
      ensures exists j :: 0 <= j < |ps| && ps[j].playerId == id
    {
      var j :| 0 <= j < |winners| && winners[j] == id;
      assert ps[j].playerId == id;
    }
  }

  /** A completed distributePot moves the whole pot into the winners' stacks:
      the payouts sum to the pot, the pot is empty, no chip is created or lost,
      and the table stays consistent. */
  lemma DistributeConserves(v: View, minPlayers: int, rankings: map<PlayerId, HandRanks.HandRank>, rankOrder: seq<PlayerId>)
    requires Consistent(v)
    requires Distinct(rankOrder) && forall id :: id in rankOrder <==> id in rankings
    ensures var w, r := Distribute(v, minPlayers, rankings, rankOrder).0, Distribute(v, minPlayers, rankings, rankOrder).1;
      && Consistent(w)
      && (r.Ok? ==> PaidTotal(r.value) == v.pot && w.pot == 0 && Total(w) == Total(v))
  {
    if v.state == SHOWDOWN && rankOrder != [] {
      var winners := WinnersOf(rankings, rankOrder);
      var u := v.(state := PAYOUT);
      PayPotSplits(u, minPlayers, winners);
      PayPotConserves(u, minPlayers, winners);
      PayPotConsistent(u, minPlayers, winners);
    }
  }
}

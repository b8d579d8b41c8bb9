/** What the game rules keep and promise: the consistency of the table across
    every operation, chip conservation, and the turn and payout properties. */
module GameProps {
  import opened Wrappers
  import opened Cards
  import HandRanks
  import Evaluator
  import opened Ids
  import opened Config
  import opened Players
  import opened Tables
  import opened GameRules

  // ---------------------------------------------------------------- consistency

  lemma DistinctAppend(s: seq<PlayerId>, x: PlayerId)
    requires Distinct(s) && x !in s
    ensures Distinct(s + [x]) && Elements(s + [x]) == Elements(s) + {x}
  {
    assert forall i :: 0 <= i < |s| ==> (s + [x])[i] == s[i];
  }

  /** addPlayer keeps the table consistent. */
  lemma JoinConsistent(v: View, cfg: GameConfig, id: PlayerId, name: Option<string>)
    requires Consistent(v)
    ensures Consistent(Join(v, cfg, id, name).0)
  {
    if Join(v, cfg, id, name).1.Pass? {
      assert id !in v.order by {
        assert id !in v.seats;
      }
      DistinctAppend(v.order, id);
    }
  }

  /** removePlayer keeps the table consistent. */
  lemma LeaveConsistent(v: View, id: PlayerId)
    requires Consistent(v)
    ensures Consistent(Leave(v, id).0)
  {
  }

  /** startGame keeps the table consistent. */
  lemma StartConsistent(v: View, cfg: GameConfig)
    requires Consistent(v)
    ensures Consistent(Start(v, cfg).0)
  {
  }

  /** resetForNextRound keeps the table consistent. */
  lemma NextDealerConsistent(v: View)
    requires Consistent(v)
    ensures Consistent(NextDealer(v).0)
  {
  }

  /** collectAnte keeps the table consistent when the ante is not negative. */
  lemma CollectAnteConsistent(v: View, cfg: GameConfig)
    requires Consistent(v) && cfg.ante >= 0
    ensures Consistent(CollectAnte(v, cfg).0)
  {
    if v.state == ANTE {
      var after := UpdateEach(v.order, v.seats, AnteStep(cfg.ante));
      UpdateEachCoversAll(v.order, v.seats, AnteStep(cfg.ante));
      forall id | id in after
        ensures SeatValid(after[id])
      {
        assert after[id] == AnteSeat(v.seats[id], cfg.ante);
      }
      var payers := Payers(v.order, v.seats, cfg.ante);
      assert cfg.ante * payers >= 0;
    }
  }

  /** startBettingRound keeps the table consistent. */
  lemma StartRoundConsistent(v: View)
    requires Consistent(v)
    ensures Consistent(StartRound(v).0)
  {
    UpdateEachCoversAll(v.order, v.seats, ResetStep);
  }

  /** A bet the stack covers moves chips from the stack to the pot: the table
      stays consistent and the chip total is unchanged. */
  lemma BetConserves(v: View, id: PlayerId, amount: int)
    requires Consistent(v) && id in v.seats && 0 <= amount <= v.seats[id].chips
    ensures Consistent(Bet(v, id, amount))
    ensures Total(Bet(v, id, amount)) == Total(v)
  {
    assert id in v.order by {
      assert id in Elements(v.order);
    }
    SumChipsUpdate(v.order, v.seats, id, BetSeat(v.seats[id], amount));
  }

  /** Dealing keeps every seat valid: a dealt hand holds five cards. */
  lemma {:induction false} DealtSeatsValid(ids: seq<PlayerId>, seats: Seats, cards: seq<Card>, cursor: nat)
    requires forall id :: id in seats ==> SeatValid(seats[id])
    ensures var d := DealFrom(ids, seats, cards, cursor);
      forall id :: id in d.seats ==> SeatValid(d.seats[id])
  {
    if ids != [] && ids[0] in seats && seats[ids[0]].state == ACTIVE {
      var cleared := seats[ids[0]].(hand := [], currentBet := 0);
      if cursor + 5 <= |cards| {
        var dealt := seats[ids[0] := cleared.(hand := cards[cursor..cursor + 5])];
        DealtSeatsValid(ids[1..], dealt, cards, cursor + 5);
        assert DealFrom(ids, seats, cards, cursor) == DealFrom(ids[1..], dealt, cards, cursor + 5);
      } else {
        assert DealFrom(ids, seats, cards, cursor).seats == seats[ids[0] := cleared];
      }
    } else if ids != [] {
      DealtSeatsValid(ids[1..], seats, cards, cursor);
      var d := DealFrom(ids, seats, cards, cursor);
      assert d == DealFrom(ids[1..], seats, cards, cursor);
      assert forall id :: id in d.seats ==> SeatValid(d.seats[id]);
    }
  }

  /** draw's exchange keeps the table consistent: the new hand is at most
      five cards and the deck cursor stays within the deck. */
  lemma ExchangeConsistent(v: View, id: PlayerId, hand: seq<Card>, cursor: nat)
    requires Consistent(v) && id in v.seats && |hand| <= MaxHandSize
    requires v.deck.Some? && cursor <= |v.deck.value.cards|
    ensures Consistent(Refill(v, id, hand, cursor))
  {
    assert id in Elements(v.order);
  }

  /** The sweep keeps the table consistent. */
  lemma SweepConsistent(v: View, minPlayers: int)
    requires Consistent(v)
    ensures Consistent(Sweep(v, minPlayers))
  {
    FundedSpec(v.order, v.seats);
  }

  /** Paying a non-negative pot keeps every seat valid. */
  lemma {:induction false} PayFirstValid(seats: Seats, winners: seq<PlayerId>, k: nat, pot: int, n: int)
    requires k <= |winners| && n > 0 && pot >= 0
    requires forall j :: 0 <= j < k ==> winners[j] in seats
    requires forall id :: id in seats ==> SeatValid(seats[id])
    ensures forall id :: id in seats ==> SeatValid(PayFirst(seats, winners, k, pot, n)[id])
  {
    if k > 0 {
      PayFirstValid(seats, winners, k - 1, pot, n);
      SharesNonNegative(pot, n, k - 1);
    }
  }

  /** distributePot's payments keep the table consistent. */
  lemma PayPotConsistent(v: View, minPlayers: int, winners: seq<PlayerId>)
    requires Consistent(v) && |winners| > 0
    ensures var k := SeatedPrefix(winners, v.seats);
      Consistent(v.(seats := PayFirst(v.seats, winners, k, v.pot, |winners|)))
    ensures Consistent(PayPot(v, minPlayers, winners).0)
  {
    var k := SeatedPrefix(winners, v.seats);
    PayFirstValid(v.seats, winners, k, v.pot, |winners|);
    var w := v.(seats := PayFirst(v.seats, winners, k, v.pot, |winners|));
    SweepConsistent(w.(pot := 0, state := END), minPlayers);
  }

  // ---------------------------------------------------------------- showdown

  /** The ranks of the contenders whose hands are five cards. */
  function ContenderRanks(seats: Seats): map<PlayerId, HandRanks.HandRank>
  {
    map id | id in seats && Contends(seats[id]) && |seats[id].hand| == 5
      :: Evaluator.Evaluate(seats[id].hand).value
  }

  /** showdown's loop fails, with EvaluationFailure, exactly when some
      contender among `ids` holds other than five cards. */
  lemma {:induction false} RankFromFails(ids: seq<PlayerId>, seats: Seats, ranks: map<PlayerId, HandRanks.HandRank>)
    ensures RankFrom(ids, seats, ranks).Err? <==> exists id :: id in ids && Unrankable(seats, id)
    ensures RankFrom(ids, seats, ranks).Err? ==> RankFrom(ids, seats, ranks).error == EvaluationFailure
  {
    if ids != [] {
      var id := ids[0];
      if Unrankable(seats, id) {
        assert RankFrom(ids, seats, ranks) == Err(EvaluationFailure);
      } else {
        var next := if id in seats && Contends(seats[id]) then ranks[id := Evaluator.Evaluate(seats[id].hand).value] else ranks;
        RankFromFails(ids[1..], seats, next);
        assert RankFrom(ids, seats, ranks) == RankFrom(ids[1..], seats, next);
        assert forall x :: x in ids <==> x == id || x in ids[1..];
      }
    }
  }

  /** The entries of `m` whose keys are listed in `ids`. */
  function Restrict<K, V>(ids: seq<K>, m: map<K, V>): map<K, V>
  {
    map k | k in ids && k in m :: m[k]
  }

  /** Restricting to one more key adds that key's entry, if it has one. */
  lemma RestrictCons<K, V>(ids: seq<K>, m: map<K, V>, acc: map<K, V>)
    requires ids != []
    ensures (if ids[0] in m then acc[ids[0] := m[ids[0]]] else acc) + Restrict(ids[1..], m)
      == acc + Restrict(ids, m)
  {
    assert forall x :: x in ids <==> x == ids[0] || x in ids[1..];
  }

  /** When showdown's loop succeeds it has added every contender's rank to
      those it started with. */
  lemma {:induction false} RankFromRanks(ids: seq<PlayerId>, seats: Seats, ranks: map<PlayerId, HandRanks.HandRank>)
    requires RankFrom(ids, seats, ranks).Ok?
    ensures RankFrom(ids, seats, ranks).value == ranks + Restrict(ids, ContenderRanks(seats))
  {
    if ids != [] {
      var id := ids[0];
      var all := ContenderRanks(seats);
      assert !Unrankable(seats, id);
      var next := if id in all then ranks[id := all[id]] else ranks;
      assert RankFrom(ids, seats, ranks) == RankFrom(ids[1..], seats, next);
      RankFromRanks(ids[1..], seats, next);
      RestrictCons(ids, all, ranks);
    }
  }

  /** Restricting to a list that holds every key changes nothing. */
  lemma RestrictAll<K, V>(ids: seq<K>, m: map<K, V>)
    requires forall k :: k in m ==> k in ids
    ensures Restrict(ids, m) == m
  {
  }

  /** With no unrankable contender, every contender is ranked. */
  lemma ContenderRanksAll(seats: Seats)
    requires forall id :: id in seats && Contends(seats[id]) ==> |seats[id].hand| == 5
    ensures ContenderRanks(seats)
      == map id | id in seats && Contends(seats[id]) :: Evaluator.Evaluate(seats[id].hand).value
  {
  }

  /** Run over the whole join order, showdown's loop ranks exactly the
      contenders and fails exactly when one of them holds other than five cards. */
  lemma ShowdownRanksContenders(v: View)
    requires Consistent(v)
    ensures var r := RankFrom(v.order, v.seats, map[]);
      && (r.Err? <==> exists id | id in v.seats :: Unrankable(v.seats, id))
      && (r.Err? ==> r.error == EvaluationFailure)
      && (r.Ok? ==> r.value == map id | id in v.seats && Contends(v.seats[id]) :: Evaluator.Evaluate(v.seats[id].hand).value)
  {
    assert forall id :: id in v.order <==> id in v.seats by {
      assert forall id :: id in v.order <==> id in Elements(v.order);
    }
    RankFromFails(v.order, v.seats, map[]);
    if RankFrom(v.order, v.seats, map[]).Ok? {
      RankFromRanks(v.order, v.seats, map[]);
      RestrictAll(v.order, ContenderRanks(v.seats));
      ContenderRanksAll(v.seats);
      assert map[] + ContenderRanks(v.seats) == ContenderRanks(v.seats);
    }
  }
}

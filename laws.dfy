/** What PokerGame's operations promise beyond consistency: chips are never
    created or lost, actions out of turn change nothing, and the turn, draw
    and payout rules. */
module GameLaws {
  import opened Wrappers
  import opened Cards
  import opened Decks
  import HandRanks
  import opened Ids
  import opened Config
  import opened Players
  import opened Tables
  import opened GameRules
  import opened GameProps
  import JavaStrings

  // ---------------------------------------------------------------- holdings

  /** `w` has the players, stacks, hands and pot of `v`. */
  predicate SameHoldings(v: View, w: View)
  {
    w.order == v.order && w.seats.Keys == v.seats.Keys && w.pot == v.pot && w.deck == v.deck
    && forall id :: id in v.seats ==> w.seats[id].chips == v.seats[id].chips && w.seats[id].hand == v.seats[id].hand
  }

  /** Views with the same holdings hold the same chips. */
  lemma HoldingsKeepTotal(v: View, w: View)
    requires SameHoldings(v, w)
    ensures Total(w) == Total(v)
  {
    SumChipsAgree(v.order, w.seats, v.seats);
  }

  /** Resetting every player for a round keeps the holdings. */
  lemma ResetKeepsHoldings(v: View)
    requires Consistent(v)
    ensures SameHoldings(v, v.(seats := UpdateEach(v.order, v.seats, ResetStep)))
  {
    UpdateEachCoversAll(v.order, v.seats, ResetStep);
  }

  /** startBettingRound moves no chip and no card, and keeps the table consistent. */
  lemma StartRoundKeepsHoldings(v: View)
    requires Consistent(v)
    ensures SameHoldings(v, StartRound(v).0) && Consistent(StartRound(v).0)
  {
    ResetKeepsHoldings(v);
    StartRoundConsistent(v);
  }

  /** advanceTurn moves no chip and no card, and keeps the table consistent. */
  lemma AdvanceKeepsHoldings(v: View)
    requires Consistent(v)
    ensures SameHoldings(v, Advance(v).0) && Consistent(Advance(v).0)
  {
    var w := v.(actionsInRound := v.actionsInRound + 1);
    if v.state == DRAW {
      StartRoundKeepsHoldings(w.(state := BET2));
    }
  }

  // ---------------------------------------------------------------- lobby

  /** addPlayer seats the newcomer with the initial stack, an empty hand and
      no bet, adding exactly that stack to the table; the first player to join
      takes the dealer button. A refused join changes nothing. */
  lemma JoinAddsStack(v: View, cfg: GameConfig, id: PlayerId, name: Option<string>)
    requires Consistent(v)
    ensures var w, out := Join(v, cfg, id, name).0, Join(v, cfg, id, name).1;
      && (out.Fail? ==> w == v)
      && (out.Pass? ==>
            && v.state == LOBBY && |v.order| < cfg.maxPlayers && id !in v.seats
            && w.order == v.order + [id]
            && w.seats == v.seats[id := Seat(cfg.initialChips, 0, ACTIVE, [])]
            && Total(w) == Total(v) + cfg.initialChips
            && (v.dealerId.None? ==> w.dealerId == Some(id))
            && (v.dealerId.Some? ==> w.dealerId == v.dealerId))
  {
    var w, out := Join(v, cfg, id, name).0, Join(v, cfg, id, name).1;
    if out.Pass? {
      assert id !in v.order by {
        assert id !in Elements(v.order);
      }
      SumChipsAgree(v.order, w.seats, v.seats);
      SumChipsAppend(v.order, id, w.seats);
    }
  }

  /** addPlayer's refusals, each reported exactly when the earlier checks pass
      and its own fails: not in the lobby, then a full table, then an id already
      seated, then the new player's blank name or negative stack. */
  lemma JoinRefusals(v: View, cfg: GameConfig, id: PlayerId, name: Option<string>)
    ensures var out := Join(v, cfg, id, name).1;
      && (out == Fail(InvalidMove(STATE_MISMATCH)) <==> v.state != LOBBY)
      && (out == Fail(InvalidMove(GAME_FULL)) <==> v.state == LOBBY && |v.order| >= cfg.maxPlayers)
      && (out == Fail(InvalidMove(ALREADY_JOINED)) <==>
            v.state == LOBBY && |v.order| < cfg.maxPlayers && id in v.seats)
      && (out == Fail(PlayerFailure(BlankName)) <==>
            v.state == LOBBY && |v.order| < cfg.maxPlayers && id !in v.seats && (name.None? || JavaStrings.IsBlank(name.value)))
      && (out.Pass? <==>
            v.state == LOBBY && |v.order| < cfg.maxPlayers && id !in v.seats
            && name.Some? && !JavaStrings.IsBlank(name.value) && cfg.initialChips >= 0)
  {
  }

  /** removePlayer takes the leaver's seat and exactly their stack off the
      table; a departing dealer hands the button to the first remaining player. */
  lemma LeaveRemovesStack(v: View, id: PlayerId)
    requires Consistent(v)
    ensures var w, out := Leave(v, id).0, Leave(v, id).1;
      && (out.Fail? <==> id !in v.seats)
      && (out.Fail? ==> w == v && out.error == InvalidMove(PLAYER_NOT_FOUND))
      && (out.Pass? ==>
            && id !in w.seats && id !in w.order
            && Total(w) == Total(v) - v.seats[id].chips
            && (w.dealerId.Some? && v.dealerId.Some? && w.dealerId != v.dealerId ==> w.dealerId.value in w.seats))
  {
    if id in v.seats {
      assert id in v.order by {
        assert id in Elements(v.order);
      }
      SumChipsRemove(v.order, id, v.seats);
      LeaveConsistent(v, id);
    }
  }

  /** startGame: the turn order holds exactly the seated players, starts at
      the dealer and goes round the table in join order from there. */
  lemma StartRotatesToDealer(v: View, cfg: GameConfig)
    requires Consistent(v)
    ensures var w, out := Start(v, cfg).0, Start(v, cfg).1;
      && (out.Fail? ==> w == v)
      && (v.state != LOBBY ==> out == Fail(InvalidMove(STATE_MISMATCH)))
      && (v.state == LOBBY && |v.order| < cfg.minPlayers ==> out == Fail(InvalidMove(NOT_ENOUGH_PLAYERS)))
      && (out.Pass? ==>
            && w.state == ANTE && |w.turnOrder| > 0
            && multiset(w.turnOrder) == multiset(v.order)
            && Some(w.turnOrder[0]) == v.dealerId
            && forall i :: 0 <= i < |w.turnOrder| ==>
                 w.turnOrder[i] == v.order[(IndexOfId(v.order, v.dealerId.value) + i) % |v.order|])
  {
    var w, out := Start(v, cfg).0, Start(v, cfg).1;
    if out.Pass? {
      var k := IndexOfId(v.order, v.dealerId.value);
      RotatePermutes(v.order, k);
      RotateIndex(v.order, k);
      RotateStep(v.order, k);
    }
  }

  /** resetForNextRound moves the button one seat on, to a seated player. */
  lemma NextDealerSeated(v: View)
    requires Consistent(v)
    ensures var w, out := NextDealer(v).0, NextDealer(v).1;
      && (out.Fail? ==> w == v)
      && (out.Pass? ==>
            && 0 <= w.dealerIndex < |v.order| && w.dealerId.Some? && w.dealerId.value in w.seats
            && w.dealerId == Some(v.order[w.dealerIndex])
            && w.dealerIndex == (v.dealerIndex + 1) % |v.order|)
  {
    var w, out := NextDealer(v).0, NextDealer(v).1;
    if out.Pass? {
      assert v.order[w.dealerIndex] in Elements(v.order);
    }
  }

  // ---------------------------------------------------------------- ante

  /** collectAnte: a player short of the ante sits out with the stack
      untouched; every other player pays exactly the ante; the pot grows by
      what was paid and no chip is created or lost. */
  lemma AnteConserves(v: View, cfg: GameConfig)
    requires Consistent(v) && v.state == ANTE
    ensures var w, out := CollectAnte(v, cfg).0, CollectAnte(v, cfg).1;
      && out.Pass? && w.state == DEAL
      && Total(w) == Total(v)
      && w.pot == v.pot + cfg.ante * Payers(v.order, v.seats, cfg.ante)
      && w.seats.Keys == v.seats.Keys
      && forall id :: id in v.seats ==>
           if v.seats[id].chips < cfg.ante then w.seats[id] == v.seats[id].(state := SITTING_OUT)
           else w.seats[id].chips == v.seats[id].chips - cfg.ante
                && w.seats[id].currentBet == v.seats[id].currentBet + cfg.ante
  {
    UpdateEachCoversAll(v.order, v.seats, AnteStep(cfg.ante));
    AnteConservesChips(v.order, v.seats, cfg.ante);
  }

  // ---------------------------------------------------------------- betting

  /** check moves no chip and keeps the table consistent. */
  lemma CheckConserves(v: View, id: PlayerId)
    requires Consistent(v)
    ensures Consistent(Check(v, id).0) && Total(Check(v, id).0) == Total(v)
  {
    AdvanceKeepsHoldings(v);
    HoldingsKeepTotal(v, Advance(v).0);
  }

  /** check: a refusal by validateTurn, or CANNOT_CHECK when the player has not
      matched the table bet, changes nothing; otherwise the action is counted
      and the turn advances, with no chip or card moving. */
  lemma CheckOutcome(v: View, id: PlayerId)
    requires Consistent(v)
    ensures var w, out := Check(v, id).0, Check(v, id).1;
      && (TurnError(v, id).Some? ==> w == v && out == Fail(TurnError(v, id).value))
      && (TurnError(v, id).None? && v.currentBet > v.seats[id].currentBet ==>
            w == v && out == Fail(InvalidMove(CANNOT_CHECK)))
      && (TurnError(v, id).None? && v.currentBet <= v.seats[id].currentBet ==>
            (w, out) == Advance(v) && SameHoldings(v, w))
  {
    AdvanceKeepsHoldings(v);
  }

  /** call moves the call amount from the caller's stack into the pot, and no
      other chip: the chip total is unchanged and the table stays consistent. */
  lemma CallConserves(v: View, id: PlayerId)
    requires Consistent(v)
    ensures Consistent(Call(v, id).0) && Total(Call(v, id).0) == Total(v)
    ensures TurnError(v, id).None? && CallAmount(v.currentBet, v.seats[id]) >= 0 ==>
      Call(v, id).0.pot == v.pot + CallAmount(v.currentBet, v.seats[id])
  {
    if TurnError(v, id).None? {
      var amount := CallAmount(v.currentBet, v.seats[id]);
      if amount >= 0 {
        var b := Bet(v, id, amount);
        BetConserves(v, id, amount);
        AdvanceKeepsHoldings(b);
        HoldingsKeepTotal(b, Advance(b).0);
      }
    }
  }

  /** raise moves the call plus the raise from the raiser's stack into the pot,
      and no other chip. */
  lemma RaiseConserves(v: View, fixedBet: int, id: PlayerId, amount: int)
    requires Consistent(v)
    ensures Consistent(Raise(v, fixedBet, id, amount).0) && Total(Raise(v, fixedBet, id, amount).0) == Total(v)
  {
    if TurnError(v, id).None? {
      var s := v.seats[id];
      var total := (v.currentBet - s.currentBet) + amount;
      if 0 <= total <= s.chips && amount >= fixedBet {
        var b := Bet(v, id, total);
        BetConserves(v, id, total);
        var w := RaiseBet(v, id, total);
        assert Raise(v, fixedBet, id, amount) == Advance(w);
        assert Consistent(w) && Total(w) == Total(b);
        AdvanceKeepsHoldings(w);
        HoldingsKeepTotal(w, Advance(w).0);
      }
    }
  }

  /** fold moves no chip and keeps the table consistent. */
  lemma FoldConserves(v: View, id: PlayerId)
    requires Consistent(v)
    ensures Consistent(Fold(v, id).0) && Total(Fold(v, id).0) == Total(v)
  {
    if TurnError(v, id).None? {
      var w := v.(seats := v.seats[id := v.seats[id].(state := FOLDED)]);
      assert SameHoldings(v, w);
      HoldingsKeepTotal(v, w);
      AdvanceKeepsHoldings(w);
      HoldingsKeepTotal(w, Advance(w).0);
    }
  }

  // ---------------------------------------------------------------- turns

  /** A betting action by a player whose turn it is not, or who is not
      ACTIVE, is refused with validateTurn's error and changes nothing. */
  lemma OutOfTurnChangesNothing(v: View, fixedBet: int, id: PlayerId, amount: int)
    requires v.currentTurn.Some? && (v.currentTurn.value != id || id !in v.seats || v.seats[id].state != ACTIVE)
    ensures var e := TurnError(v, id);
      && e.Some?
      && (v.currentTurn.value != id ==> e.value == InvalidMove(OUT_OF_TURN))
      && (v.currentTurn.value == id && id in v.seats ==> e.value == InvalidMove(PLAYER_NOT_ACTIVE))
      && Check(v, id) == (v, Fail(e.value))
      && Call(v, id) == (v, Fail(e.value))
      && Raise(v, fixedBet, id, amount) == (v, Fail(e.value))
      && Fold(v, id) == (v, Fail(e.value))
  {
  }

  /** A fold that leaves exactly one active player ends the betting: the
      phase becomes SHOWDOWN and the turn does not move. */
  lemma LastActiveWins(v: View, id: PlayerId)
    requires TurnError(v, id).None?
    requires CountActive(v.order, v.seats[id := v.seats[id].(state := FOLDED)]) == 1
    ensures Fold(v, id).1.Pass?
    ensures Fold(v, id).0.state == SHOWDOWN && Fold(v, id).0.currentTurn == v.currentTurn
    ensures Fold(v, id).0.seats[id].state == FOLDED
  {
  }

  /** advanceTurn keeps a player's bet level with the table bet: when the
      betting round restarts both go to zero. */
  lemma AdvanceKeepsMatched(v: View, id: PlayerId)
    requires Consistent(v) && id in v.seats && v.currentBet == v.seats[id].currentBet
    ensures var w, out := Advance(v).0, Advance(v).1;
      out.Pass? ==> id in w.seats && w.currentBet == w.seats[id].currentBet
  {
    var w := v.(actionsInRound := v.actionsInRound + 1);
    if v.state == DRAW {
      var u := w.(state := BET2);
      UpdateEachCoversAll(u.order, u.seats, ResetStep);
    }
  }

  /** A successful raise puts the call plus the raise into the pot and lifts
      the table bet to the raiser's new bet. */
  lemma RaiseLiftsTableBet(v: View, fixedBet: int, id: PlayerId, amount: int)
    requires Consistent(v) && TurnError(v, id).None?
    ensures var total := (v.currentBet - v.seats[id].currentBet) + amount;
      var w, out := Raise(v, fixedBet, id, amount).0, Raise(v, fixedBet, id, amount).1;
      && (total > v.seats[id].chips ==> w == v && out == Fail(InvalidMove(NOT_ENOUGH_CHIPS)))
      && (total <= v.seats[id].chips && amount < fixedBet ==> w == v && out == Fail(InvalidMove(RAISE_TOO_SMALL)))
      && (out.Pass? ==> w.pot == v.pot + total && w.currentBet == w.seats[id].currentBet)
  {
    var s := v.seats[id];
    var total := (v.currentBet - s.currentBet) + amount;
    if 0 <= total <= s.chips && amount >= fixedBet {
      var r := RaiseBet(v, id, total);
      assert Raise(v, fixedBet, id, amount) == Advance(r);
      BetConserves(v, id, total);
      AdvanceKeepsMatched(r, id);
      AdvanceKeepsHoldings(r);
    }
  }

  // ---------------------------------------------------------------- dealing

  /** Dealing touches no stack and no player state. */
  lemma {:induction false} DealFromKeepsStacks(ids: seq<PlayerId>, seats: Seats, cards: seq<Card>, cursor: nat)
    ensures var d := DealFrom(ids, seats, cards, cursor);
      forall id :: id in seats ==> d.seats[id].chips == seats[id].chips && d.seats[id].state == seats[id].state
  {
    if ids != [] && ids[0] in seats && seats[ids[0]].state == ACTIVE {
      var cleared := seats[ids[0]].(hand := [], currentBet := 0);
      if cursor + 5 <= |cards| {
        var dealt := seats[ids[0] := cleared.(hand := cards[cursor..cursor + 5])];
        DealFromKeepsStacks(ids[1..], dealt, cards, cursor + 5);
        assert DealFrom(ids, seats, cards, cursor) == DealFrom(ids[1..], dealt, cards, cursor + 5);
      }
    } else if ids != [] {
      DealFromKeepsStacks(ids[1..], seats, cards, cursor);
      var d := DealFrom(ids, seats, cards, cursor);
      assert d == DealFrom(ids[1..], seats, cards, cursor);
      assert forall id :: id in seats ==> d.seats[id].chips == seats[id].chips && d.seats[id].state == seats[id].state;
    }
  }

  /** A deal that lasts gives every listed active player five cards and moves
      the deck cursor on by five per active player. */
  lemma {:induction false} DealFromFillsHands(ids: seq<PlayerId>, seats: Seats, cards: seq<Card>, cursor: nat)
    ensures var d := DealFrom(ids, seats, cards, cursor);
      && (cursor <= |cards| ==> d.cursor <= |cards| && (d.complete <==> cursor + 5 * CountActive(ids, seats) <= |cards|))
      && (d.complete ==>
            && d.cursor == cursor + 5 * CountActive(ids, seats)
            && forall id :: id in ids && id in ActiveIds(seats) ==> |d.seats[id].hand| == 5)
  {
    if ids != [] {
      var id := ids[0];
      var d := DealFrom(ids, seats, cards, cursor);
      if id in seats && seats[id].state == ACTIVE {
        var cleared := seats[id].(hand := [], currentBet := 0);
        if cursor + 5 <= |cards| {
          var dealt := seats[id := cleared.(hand := cards[cursor..cursor + 5])];
          assert ActiveIds(dealt) == ActiveIds(seats);
          CountActiveSameActive(ids[1..], dealt, seats);
          DealFromFillsHands(ids[1..], dealt, cards, cursor + 5);
          assert d == DealFrom(ids[1..], dealt, cards, cursor + 5);
          DealLeavesLaterHands(ids[1..], dealt, cards, cursor + 5, id);
          assert forall x :: x in ids <==> x == id || x in ids[1..];
        }
      } else {
        DealFromFillsHands(ids[1..], seats, cards, cursor);
        assert d == DealFrom(ids[1..], seats, cards, cursor);
        assert forall x :: x in ids <==> x == id || x in ids[1..];
      }
    }
  }

  /** The count of active players depends only on who is active. */
  lemma {:induction false} CountActiveSameActive(ids: seq<PlayerId>, a: Seats, b: Seats)
    requires ActiveIds(a) == ActiveIds(b)
    ensures CountActive(ids, a) == CountActive(ids, b)
  {
    if ids != [] {
      CountActiveSameActive(ids[1..], a, b);
    }
  }

  /** A player who is already dealt five cards and comes up again is dealt
      five again; one who does not come up keeps the hand. */
  lemma {:induction false} DealLeavesLaterHands(ids: seq<PlayerId>, seats: Seats, cards: seq<Card>, cursor: nat, k: PlayerId)
    requires k in seats && |seats[k].hand| == 5
    ensures var d := DealFrom(ids, seats, cards, cursor);
      d.complete ==> |d.seats[k].hand| == 5
  {
    if ids != [] {
      var id := ids[0];
      if id in seats && seats[id].state == ACTIVE {
        var cleared := seats[id].(hand := [], currentBet := 0);
        if cursor + 5 <= |cards| {
          var dealt := seats[id := cleared.(hand := cards[cursor..cursor + 5])];
          DealLeavesLaterHands(ids[1..], dealt, cards, cursor + 5, k);
          assert DealFrom(ids, seats, cards, cursor) == DealFrom(ids[1..], dealt, cards, cursor + 5);
        }
      } else {
        DealLeavesLaterHands(ids[1..], seats, cards, cursor, k);
        assert DealFrom(ids, seats, cards, cursor) == DealFrom(ids[1..], seats, cards, cursor);
      }
    }
  }

  /** The table once dealInitialCards' loop has run: consistent, with the
      same chips. */
  lemma DealtTable(v: View, cards: seq<Card>)
    requires Consistent(v)
    ensures var d := DealFrom(v.order, v.seats, cards, 0);
      var u := v.(seats := d.seats, deck := Some(DeckView(cards, d.cursor)));
      Consistent(u) && Total(u) == Total(v)
  {
    var d := DealFrom(v.order, v.seats, cards, 0);
    DealFromKeepsStacks(v.order, v.seats, cards, 0);
    DealFromFillsHands(v.order, v.seats, cards, 0);
    DealtSeatsValid(v.order, v.seats, cards, 0);
    SumChipsAgree(v.order, d.seats, v.seats);
  }

  /** dealInitialCards moves no chip and keeps the table consistent. */
  lemma DealConserves(v: View, cards: seq<Card>)
    requires Consistent(v) && v.state == DEAL
    ensures Total(Deal(v, cards).0) == Total(v) && Consistent(Deal(v, cards).0)
  {
    var d := DealFrom(v.order, v.seats, cards, 0);
    DealtTable(v, cards);
    var u := v.(seats := d.seats, deck := Some(DeckView(cards, d.cursor)));
    if d.complete {
      var b := u.(state := BET1);
      assert Deal(v, cards) == StartRound(b);
      StartRoundKeepsHoldings(b);
      HoldingsKeepTotal(b, StartRound(b).0);
    }
  }

  /** dealInitialCards fails exactly when the deck is shorter than five cards
      per active player; otherwise every active player holds five cards, five
      per player have left the deck and the first betting round begins. */
  lemma DealFillsHands(v: View, cards: seq<Card>)
    requires Consistent(v) && v.state == DEAL
    ensures var w, out := Deal(v, cards).0, Deal(v, cards).1;
      && (out == Fail(DeckFailure(Exhausted)) <==> 5 * CountActive(v.order, v.seats) > |cards|)
      && (out.Pass? ==>
            && w.state == BET1
            && w.deck == Some(DeckView(cards, 5 * CountActive(v.order, v.seats)))
            && forall id :: id in ActiveIds(v.seats) ==> |w.seats[id].hand| == 5)
  {
    var d := DealFrom(v.order, v.seats, cards, 0);
    DealFromFillsHands(v.order, v.seats, cards, 0);
    DealtTable(v, cards);
    var u := v.(seats := d.seats, deck := Some(DeckView(cards, d.cursor)));
    if d.complete {
      assert forall id :: id in ActiveIds(v.seats) ==> id in v.order by {
        assert forall id :: id in v.seats ==> id in Elements(v.order);
      }
      var b := u.(state := BET1);
      assert Deal(v, cards) == StartRound(b);
      StartRoundKeepsHoldings(b);
      assert StartRound(b).1.Pass? || StartRound(b).1 == Fail(NoActivePlayers);
    } else {
      assert Deal(v, cards) == (u, Fail(DeckFailure(Exhausted)));
    }
  }

  // ---------------------------------------------------------------- draw

  /** The three ways an exchange ends: a bad index, a hand that would overflow,
      or the refilled hand and a turn that moves on. */
  lemma ExchangeCases(v: View, id: PlayerId, indices: seq<int>)
    requires id in v.seats && v.deck.Some?
    requires |indices| <= |v.deck.value.cards| - v.deck.value.cursor
    ensures var sel := Selected(v.seats[id].hand, indices);
      var e := Exchange(v, id, indices);
      var c := v.deck.value.cursor + |indices|;
      var drawn := v.deck.value.cards[v.deck.value.cursor .. c];
      && (sel.Err? ==> e == (v, Err(PlayerFailure(sel.error))))
      && (sel.Ok? && |RemoveAll(v.seats[id].hand, sel.value)| + |drawn| > MaxHandSize ==>
            e == (Refill(v, id, RemoveAll(v.seats[id].hand, sel.value), c), Err(PlayerFailure(HandOverflow))))
      && (sel.Ok? && |RemoveAll(v.seats[id].hand, sel.value)| + |drawn| <= MaxHandSize ==>
            var u := Refill(v, id, RemoveAll(v.seats[id].hand, sel.value) + drawn, c);
            && e.0 == Advance(u).0
            && (e.1.Ok? <==> Advance(u).1.Pass?)
            && (e.1.Ok? ==> e.1.value == drawn))
  {
  }

  /** Refilling a hand moves no chip and keeps the table consistent. */
  lemma RefillConserves(v: View, id: PlayerId, hand: seq<Card>, cursor: nat)
    requires Consistent(v) && id in v.seats && |hand| <= MaxHandSize
    requires v.deck.Some? && cursor <= |v.deck.value.cards|
    ensures Consistent(Refill(v, id, hand, cursor)) && Total(Refill(v, id, hand, cursor)) == Total(v)
  {
    ExchangeConsistent(v, id, hand, cursor);
    SumChipsAgree(v.order, Refill(v, id, hand, cursor).seats, v.seats);
  }

  /** The exchange of a draw whose checks passed moves no chip and keeps the
      table consistent. */
  lemma ExchangeConserves(v: View, id: PlayerId, indices: seq<int>)
    requires Consistent(v) && id in v.seats && v.deck.Some?
    requires |indices| <= |v.deck.value.cards| - v.deck.value.cursor
    ensures Consistent(Exchange(v, id, indices).0) && Total(Exchange(v, id, indices).0) == Total(v)
  {
    ExchangeCases(v, id, indices);
    var w := Exchange(v, id, indices).0;
    var sel := Selected(v.seats[id].hand, indices);
    if sel.Ok? {
      var dv := v.deck.value;
      var drawn := dv.cards[dv.cursor .. dv.cursor + |indices|];
      var kept := RemoveAll(v.seats[id].hand, sel.value);
      if |kept| + |drawn| > MaxHandSize {
        RefillConserves(v, id, kept, dv.cursor + |indices|);
        assert w == Refill(v, id, kept, dv.cursor + |indices|);
      } else {
        var u := Refill(v, id, kept + drawn, dv.cursor + |indices|);
        RefillConserves(v, id, kept + drawn, dv.cursor + |indices|);
        AdvanceKeepsHoldings(u);
        HoldingsKeepTotal(u, Advance(u).0);
        assert w == Advance(u).0;
      }
    } else {
      assert w == v;
    }
  }

  /** draw moves no chip and keeps the table consistent; when one of its
      checks fails it changes nothing. */
  lemma DrawConserves(v: View, maxDraw: int, id: PlayerId, indices: seq<int>)
    requires Consistent(v)
    ensures var w, r := Draw(v, maxDraw, id, indices).0, Draw(v, maxDraw, id, indices).1;
      && Consistent(w) && Total(w) == Total(v)
      && (DrawError(v, maxDraw, id, indices).Some? ==> w == v && r == Err(DrawError(v, maxDraw, id, indices).value))
  {
    if DrawError(v, maxDraw, id, indices).None? {
      ExchangeConserves(v, id, indices);
    }
  }

  /** A successful exchange hands back the next cards of the deck, one per
      discarded card; the discarded cards leave the hand and the new ones go
      to its end. */
  lemma ExchangeHands(v: View, id: PlayerId, indices: seq<int>)
    requires Consistent(v) && id in v.seats && v.deck.Some?
    requires |indices| <= |v.deck.value.cards| - v.deck.value.cursor
    ensures var w, r := Exchange(v, id, indices).0, Exchange(v, id, indices).1;
      r.Ok? ==>
        && Selected(v.seats[id].hand, indices).Ok?
        && r.value == v.deck.value.cards[v.deck.value.cursor .. v.deck.value.cursor + |indices|]
        && w.deck == Some(DeckView(v.deck.value.cards, v.deck.value.cursor + |indices|))
        && id in w.seats
        && w.seats[id].hand == RemoveAll(v.seats[id].hand, Selected(v.seats[id].hand, indices).value) + r.value
  {
    ExchangeSucceeds(v, id, indices);
    SucceededShape(v, id, indices, Exchange(v, id, indices));
  }

  /** The facts of ExchangeHands, for any outcome shaped as ExchangeSucceeds describes. */
  lemma SucceededShape(v: View, id: PlayerId, indices: seq<int>, e: (View, Result<seq<Card>, GameError>))
    requires Consistent(v) && id in v.seats && v.deck.Some?
    requires |indices| <= |v.deck.value.cards| - v.deck.value.cursor
    requires e.1.Ok? ==>
      && Selected(v.seats[id].hand, indices).Ok?
      && |RemoveAll(v.seats[id].hand, Selected(v.seats[id].hand, indices).value)| + |indices| <= MaxHandSize
      && e.1.value == v.deck.value.cards[v.deck.value.cursor .. v.deck.value.cursor + |indices|]
      && var w := Advance(Refill(v, id,
           RemoveAll(v.seats[id].hand, Selected(v.seats[id].hand, indices).value)
             + v.deck.value.cards[v.deck.value.cursor .. v.deck.value.cursor + |indices|],
           v.deck.value.cursor + |indices|)).0;
         e.0.deck == w.deck && e.0.seats == w.seats
    ensures e.1.Ok? ==>
        && Selected(v.seats[id].hand, indices).Ok?
        && e.1.value == v.deck.value.cards[v.deck.value.cursor .. v.deck.value.cursor + |indices|]
        && e.0.deck == Some(DeckView(v.deck.value.cards, v.deck.value.cursor + |indices|))
        && id in e.0.seats
        && e.0.seats[id].hand == RemoveAll(v.seats[id].hand, Selected(v.seats[id].hand, indices).value) + e.1.value
  {
    if e.1.Ok? {
      var hand := RemoveAll(v.seats[id].hand, Selected(v.seats[id].hand, indices).value)
        + v.deck.value.cards[v.deck.value.cursor .. v.deck.value.cursor + |indices|];
      var u := Refill(v, id, hand, v.deck.value.cursor + |indices|);
      ExchangeConsistent(v, id, hand, v.deck.value.cursor + |indices|);
      AdvanceKeepsHoldings(u);
      RefillHolds(v, id, hand, v.deck.value.cursor + |indices|);
      HoldingOf(u, Advance(u).0, id);
    }
  }

  /** What a successful exchange is: the selection was valid, the refilled
      hand fits, and the player's hand and the deck are those of the refilled
      table once the turn has moved on. */
  lemma ExchangeSucceeds(v: View, id: PlayerId, indices: seq<int>)
    requires id in v.seats && v.deck.Some?
    requires |indices| <= |v.deck.value.cards| - v.deck.value.cursor
    ensures Exchange(v, id, indices).1.Ok? ==>
      && Selected(v.seats[id].hand, indices).Ok?
      && |RemoveAll(v.seats[id].hand, Selected(v.seats[id].hand, indices).value)| + |indices| <= MaxHandSize
      && Exchange(v, id, indices).1.value == v.deck.value.cards[v.deck.value.cursor .. v.deck.value.cursor + |indices|]
      && var w := Advance(Refill(v, id,
           RemoveAll(v.seats[id].hand, Selected(v.seats[id].hand, indices).value)
             + v.deck.value.cards[v.deck.value.cursor .. v.deck.value.cursor + |indices|],
           v.deck.value.cursor + |indices|)).0;
         Exchange(v, id, indices).0.deck == w.deck && Exchange(v, id, indices).0.seats == w.seats
  {
    ExchangeCases(v, id, indices);
  }

  /** After a refill the player holds the new hand and the deck is dealt up to the cursor. */
  lemma RefillHolds(v: View, id: PlayerId, hand: seq<Card>, cursor: nat)
    requires id in v.seats && v.deck.Some?
    ensures var u := Refill(v, id, hand, cursor);
      id in u.seats && u.seats[id].hand == hand && u.deck == Some(DeckView(v.deck.value.cards, cursor))
  {
  }

  /** What views with the same holdings agree on for one player. */
  lemma HoldingOf(u: View, w: View, id: PlayerId)
    requires SameHoldings(u, w) && id in u.seats
    ensures id in w.seats && w.seats[id].hand == u.seats[id].hand && w.deck == u.deck
  {
  }

  /** A successful draw hands back exactly as many cards as were discarded,
      the next ones in the deck; the discarded cards leave the hand and the new
      ones go to its end. A hand without repeated cards keeps its size. */
  lemma DrawKeepsHandSize(v: View, maxDraw: int, id: PlayerId, indices: seq<int>)
    requires Consistent(v)
    ensures var w, r := Draw(v, maxDraw, id, indices).0, Draw(v, maxDraw, id, indices).1;
      r.Ok? ==>
        && v.deck.Some? && id in v.seats && id in w.seats
        && v.deck.value.cursor + |indices| <= |v.deck.value.cards|
        && |r.value| == |indices|
        && Selected(v.seats[id].hand, indices).Ok?
        && w.seats[id].hand == RemoveAll(v.seats[id].hand, Selected(v.seats[id].hand, indices).value) + r.value
        && (Distinct(v.seats[id].hand) ==> |w.seats[id].hand| == |v.seats[id].hand|)
  {
    if DrawError(v, maxDraw, id, indices).None? {
      ExchangeHands(v, id, indices);
      var w, r := Draw(v, maxDraw, id, indices).0, Draw(v, maxDraw, id, indices).1;
      if r.Ok? && Distinct(v.seats[id].hand) {
        DiscardAndRefillKeepsSize(v.seats[id].hand, indices, r.value);
      }
    }
  }
}

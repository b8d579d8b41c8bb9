/** PokerGame: the engine object. Its fields change in place; every public
    operation is proved to act on the table exactly as the matching function
    of GameRules says. */
module Game {
  import opened Wrappers
  import opened Cards
  import opened Decks
  import HandRanks
  import Evaluator
  import opened Ids
  import opened Config
  import opened Players
  import opened Tables
  import opened GameRules
  import opened GameProps

  class PokerGame {
    const gameId: GameId
    const config: GameConfig
    var order: seq<PlayerId>              // the players map's keys, in join order
    var seats: Seats                      // the players map: each player's changing fields
    var state: GameState
    var deck: Deck?
    var pot: int
    var currentBet: int
    var currentTurn: Option<PlayerId>
    var dealerId: Option<PlayerId>
    var dealerIndex: int
    var turnOrder: seq<PlayerId>
    var actionsInRound: int
    var roundComplete: bool               // written, never read

    /** The config passed validation and the game as a value is consistent. */
    ghost predicate Valid()
      reads this, deck
    {
      IsValid(config) && Consistent(AsView())
    }

    /** The whole game as a value. */
    ghost function AsView(): View
      reads this, deck
    {
      View(state, order, seats,
           if deck == null then None else Some(DeckView(deck.cards, deck.currentIndex)),
           pot, currentBet, currentTurn, dealerId, dealerIndex, turnOrder, actionsInRound)
    }

    /** The constructor once validate() has passed. */
    constructor (gameId: GameId, config: GameConfig)
      requires IsValid(config)
      ensures Valid()
      ensures this.gameId == gameId && this.config == config
      ensures AsView() == Initial()
    {
      this.gameId := gameId;
      this.config := config;
      order := [];
      seats := map[];
      state := LOBBY;
      deck := null;
      pot := 0;
      currentBet := 0;
      currentTurn := None;
      dealerId := None;
      dealerIndex := 0;
      turnOrder := [];
      actionsInRound := 0;
      roundComplete := false;
    }

    /** new PokerGame(gameId, config): refused, with validate()'s error, for an invalid config. */
    static method Create(gameId: GameId, config: GameConfig) returns (r: Result<PokerGame, ConfigError>)
      ensures r.Ok? <==> IsValid(config)
      ensures r.Err? ==> Validate(config) == Fail(r.error)
      ensures r.Ok? ==> fresh(r.value) && r.value.Valid() && r.value.AsView() == Initial()
    {
      var checked := Validate(config);
      if checked.Fail? {
        return Err(checked.error);
      }
      var g := new PokerGame(gameId, config);
      r := Ok(g);
    }

    /** addPlayer. */
    method AddPlayer(id: PlayerId, name: Option<string>) returns (r: Result<Player, GameError>)
      requires Valid()
      modifies this
      ensures Valid()
      ensures (AsView(), OutcomeOf(r)) == Join(old(AsView()), config, id, name)
      ensures r.Ok? ==> fresh(r.value) && r.value.id == id && id in seats && r.value.Snapshot() == seats[id]
    {
      ghost var v := AsView();
      if state != LOBBY {
        r := Err(InvalidMove(STATE_MISMATCH));
      } else if |order| >= config.maxPlayers {
        r := Err(InvalidMove(GAME_FULL));
      } else if id in seats {
        r := Err(InvalidMove(ALREADY_JOINED));
      } else {
        var created := Player.Create(Some(id), name, config.initialChips);
        if created.Err? {
          r := Err(PlayerFailure(created.error));
        } else {
          var p := created.value;
          seats := seats[id := p.Snapshot()];
          order := order + [id];
          if dealerId.None? {
            dealerId := Some(id);
            dealerIndex := 0;
          }
          r := Ok(p);
        }
      }
      JoinConsistent(v, config, id, name);
    }

    /** removePlayer. */
    method RemovePlayer(id: PlayerId) returns (r: Outcome<GameError>)
      requires Valid()
      modifies this
      ensures Valid()
      ensures (AsView(), r) == Leave(old(AsView()), id)
    {
      if id !in seats {
        return Fail(InvalidMove(PLAYER_NOT_FOUND));
      }
      ghost var v := AsView();
      seats := seats - {id};
      order := RemoveId(order, id);
      if dealerId == Some(id) && |order| > 0 {
        dealerId := Some(order[0]);
      }
      r := Pass;
      LeaveConsistent(v, id);
    }

    /** startGame: the join order is rotated one place at a time until the
        dealer is at its head. */
    method StartGame() returns (r: Outcome<GameError>)
      requires Valid()
      modifies this
      ensures Valid()
      ensures (AsView(), r) == Start(old(AsView()), config)
    {
      if state != LOBBY {
        return Fail(InvalidMove(STATE_MISMATCH));
      }
      if |order| < config.minPlayers {
        return Fail(InvalidMove(NOT_ENOUGH_PLAYERS));
      }
      if dealerId.None? || dealerId.value !in order {
        return Fail(Diverges);
      }
      ghost var v := AsView();
      var ring := RotateToFront(order, dealerId.value);
      turnOrder := ring;
      state := ANTE;
      r := Pass;
      StartConsistent(v, config);
    }

    /** startGame's loop: the head of the list goes to the back until `dealer` is at the front. */
    static method RotateToFront(ids: seq<PlayerId>, dealer: PlayerId) returns (ring: seq<PlayerId>)
      requires dealer in ids
      ensures ring == Rotate(ids, IndexOfId(ids, dealer))
      ensures ring[0] == dealer
    {
      ring := ids;
      ghost var k := 0;
      ghost var target := IndexOfId(ids, dealer);
      assert ids == Rotate(ids, 0);
      assert forall j :: 0 <= j < target ==> ids[j] != dealer by {
        assert forall j :: 0 <= j < target ==> ids[j] == ids[..target][j];
      }
      while ring[0] != dealer
        invariant 0 <= k <= target && ring == Rotate(ids, k)
        decreases target - k
      {
        RotateStep(ids, k);
        ring := ring[1..] + [ring[0]];
        k := k + 1;
      }
      RotateStep(ids, k);
    }

    /** findNextActivePlayer: walks the turn order from just past `after`. */
    method FindNextActivePlayer(after: Option<PlayerId>) returns (r: Option<PlayerId>)
      ensures r == NextActive(turnOrder, after, ActiveIds(seats))
    {
      var n := |turnOrder|;
      if n == 0 {
        return None;
      }
      ghost var active := ActiveIds(seats);
      var start := StartIndex(turnOrder, after);
      var i := 1;
      while i <= n
        invariant 1 <= i <= n + 1
        invariant ScanFrom(turnOrder, start, active, i) == ScanFrom(turnOrder, start, active, 1)
        decreases n + 1 - i
      {
        var index := (start + i) % n;
        assert index == Pos(start, i, n);
        var id := turnOrder[index];
        if id in seats && seats[id].state == ACTIVE {
          return Some(id);
        }
        i := i + 1;
      }
      return None;
    }

    /** getActivePlayerCount: how many players are ACTIVE. */
    method ActivePlayerCount() returns (n: nat)
      ensures n == CountActive(order, seats)
    {
      n := 0;
      for i := 0 to |order|
        invariant n + CountActive(order[i..], seats) == CountActive(order, seats)
      {
        assert order[i..][1..] == order[i + 1..];
        if order[i] in seats && seats[order[i]].state == ACTIVE {
          n := n + 1;
        }
      }
    }

    /** validateTurn: the reason `id` may not act now, if any. */
    method ValidateTurn(id: PlayerId) returns (e: Option<GameError>)
      ensures e == TurnError(AsView(), id)
    {
      if currentTurn.None? {
        return Some(NullPointer);
      }
      if currentTurn.value != id {
        return Some(InvalidMove(OUT_OF_TURN));
      }
      if id !in seats {
        return Some(InvalidMove(PLAYER_NOT_FOUND));
      }
      if seats[id].state != ACTIVE {
        return Some(InvalidMove(PLAYER_NOT_ACTIVE));
      }
      return None;
    }

    // ------------------------------------------------------------ ante and deal

    /** collectAnte: short stacks sit out, every other player pays the ante into the pot. */
    method CollectAnte() returns (r: Outcome<GameError>)
      requires Valid()
      modifies this
      ensures Valid()
      ensures (AsView(), r) == GameRules.CollectAnte(old(AsView()), config)
    {
      ghost var v := AsView();
      if state != ANTE {
        return Fail(InvalidMove(STATE_MISMATCH));
      }
      var paying;
      seats, paying := AnteRound(order, seats, config.ante);
      pot := pot + config.ante * paying;
      state := DEAL;
      r := Pass;
      CollectAnteConsistent(v, config);
    }

    /** collectAnte's loop over the players in join order: a stack below the
        ante sits out, any other bets the ante; `paying` counts the bets. */
    static method AnteRound(ids: seq<PlayerId>, before: Seats, ante: int) returns (st: Seats, paying: nat)
      requires Distinct(ids) && forall id :: id in ids ==> id in before
      ensures st == UpdateEach(ids, before, AnteStep(ante))
      ensures paying == Payers(ids, before, ante)
    {
      st := before;
      paying := 0;
      for i := 0 to |ids|
        invariant UpdateEach(ids[i..], st, AnteStep(ante)) == UpdateEach(ids, before, AnteStep(ante))
        invariant st.Keys == before.Keys
        invariant paying + Payers(ids[i..], st, ante) == Payers(ids, before, ante)
      {
        assert ids[i..][1..] == ids[i + 1..];
        var id := ids[i];
        var s := st[id];
        assert id !in ids[i + 1..];
        assert Payers(ids[i..], st, ante) == (if s.chips >= ante then 1 else 0) + Payers(ids[i + 1..], st, ante);
        PayersIgnoresOthers(ids[i + 1..], st, id, AnteSeat(s, ante), ante);
        if s.chips < ante {
          st := st[id := s.(state := SITTING_OUT)];
        } else {
          st := st[id := BetSeat(s, ante)];
          paying := paying + 1;
        }
      }
    }

    /** dealInitialCards: a new deck shuffled with `rnd`; each active player in
        join order gets a cleared hand refilled with the next five cards; then
        the first betting round starts. */
    method DealInitialCards(rnd: nat -> nat) returns (r: Outcome<GameError>)
      requires Valid()
      modifies this
      ensures Valid()
      ensures old(state) != DEAL ==> r == Fail(InvalidMove(STATE_MISMATCH)) && AsView() == old(AsView())
      ensures old(state) == DEAL ==>
        deck != null && fresh(deck) && multiset(deck.cards) == multiset(SortedCards())
        && (AsView(), r) == Deal(old(AsView()), deck.cards)
    {
      ghost var v := AsView();
      if state != DEAL {
        return Fail(InvalidMove(STATE_MISMATCH));
      }
      var d := new Deck.Sorted();
      d.Shuffle(rnd);
      deck := d;
      var st, complete := DealRound(order, seats, d);
      seats := st;
      DealtSeatsValid(v.order, v.seats, d.cards, 0);
      if !complete {
        return Fail(DeckFailure(Exhausted));
      }
      state := BET1;
      r := StartBettingRound();
    }

    /** dealInitialCards' loop: an active player's hand is cleared and then
        refilled with five cards drawn from `d`; a short deck stops the loop. */
    static method DealRound(ids: seq<PlayerId>, before: Seats, d: Deck) returns (st: Seats, complete: bool)
      requires d.Valid()
      modifies d`currentIndex
      ensures d.Valid()
      ensures DealFrom(ids, before, d.cards, old(d.currentIndex)) == Dealt(st, d.currentIndex, complete)
    {
      st := before;
      complete := true;
      var i := 0;
      while i < |ids|
        invariant 0 <= i <= |ids| && d.Valid()
        invariant DealFrom(ids[i..], st, d.cards, d.currentIndex) == DealFrom(ids, before, d.cards, old(d.currentIndex))
        modifies d`currentIndex
      {
        assert ids[i..][1..] == ids[i + 1..];
        var id := ids[i];
        if id in st && st[id].state == ACTIVE {
          var cleared := st[id].(hand := [], currentBet := 0);
          var got := d.DrawMany(5);
          if got.Err? {
            st := st[id := cleared];
            complete := false;
            return;
          }
          st := st[id := cleared.(hand := got.value)];
        }
        i := i + 1;
      }
    }

    // ------------------------------------------------------------ betting rounds

    /** startBettingRound: the table bet and the action count go to zero, the
        turn goes to the first active player after the dealer, and only then is
        every player reset for the round. */
    method StartBettingRound() returns (r: Outcome<GameError>)
      requires Valid()
      modifies this`currentBet, this`actionsInRound, this`roundComplete, this`currentTurn, this`seats
      ensures Valid()
      ensures (AsView(), r) == StartRound(old(AsView()))
    {
      ghost var v := AsView();
      ghost var w := v.(currentBet := 0, actionsInRound := 0);
      currentBet := 0;
      actionsInRound := 0;
      roundComplete := false;
      var next := FindNextActivePlayer(dealerId);
      StartRoundConsistent(v);
      if next.None? {
        assert AsView() == w;
        return Fail(NoActivePlayers);
      }
      currentTurn := next;
      var reset := ResetRound(order, seats);
      seats := reset;
      r := Pass;
      assert AsView() == w.(currentTurn := next, seats := UpdateEach(v.order, v.seats, ResetStep));
    }

    /** startBettingRound's loop: resetForNewRound on every player in join order. */
    static method ResetRound(ids: seq<PlayerId>, before: Seats) returns (st: Seats)
      requires forall id :: id in ids ==> id in before
      ensures st == UpdateEach(ids, before, ResetStep)
    {
      st := before;
      for i := 0 to |ids|
        invariant st.Keys == before.Keys
        invariant UpdateEach(ids[i..], st, ResetStep) == UpdateEach(ids, before, ResetStep)
      {
        assert ids[i..][1..] == ids[i + 1..];
        var id := ids[i];
        st := st[id := ResetSeat(st[id])];
      }
    }

    /** startSecondBettingRound. */
    method StartSecondBettingRound() returns (r: Outcome<GameError>)
      requires Valid()
      modifies this
      ensures Valid()
      ensures (AsView(), r) == StartSecondRound(old(AsView()))
    {
      if state != DRAW {
        return Fail(InvalidMove(STATE_MISMATCH));
      }
      state := BET2;
      r := StartBettingRound();
    }

    /** The turn passes to the next active player after `after`. */
    method PassTurn(after: Option<PlayerId>) returns (r: Outcome<GameError>)
      requires Valid()
      modifies this`currentTurn
      ensures Valid()
      ensures (AsView(), r) == MoveTurn(old(AsView()), after)
    {
      var next := FindNextActivePlayer(after);
      if next.None? {
        return Fail(NoActivePlayers);
      }
      currentTurn := next;
      r := Pass;
    }

    /** advanceTurn. */
    method AdvanceTurn() returns (r: Outcome<GameError>)
      requires Valid()
      modifies this
      ensures Valid()
      ensures (AsView(), r) == Advance(old(AsView()))
    {
      actionsInRound := actionsInRound + 1;
      var active := ActivePlayerCount();
      if actionsInRound >= active {
        if AllMatched(seats, currentBet) {
          if state == BET1 {
            state := DRAW;
            actionsInRound := 0;
            r := PassTurn(dealerId);
          } else if state == BET2 {
            state := SHOWDOWN;
            r := Pass;
          } else if state == DRAW {
            r := StartSecondBettingRound();
          } else {
            r := Pass;
          }
          return;
        }
      }
      r := PassTurn(currentTurn);
    }

    // ------------------------------------------------------------ player actions

    /** check. */
    method Check(id: PlayerId) returns (r: Outcome<GameError>)
      requires Valid()
      modifies this
      ensures Valid()
      ensures (AsView(), r) == GameRules.Check(old(AsView()), id)
    {
      var e := ValidateTurn(id);
      if e.Some? {
        return Fail(e.value);
      }
      if currentBet > seats[id].currentBet {
        return Fail(InvalidMove(CANNOT_CHECK));
      }
      r := AdvanceTurn();
    }

    /** call: an all-in for a stack smaller than the call. */
    method Call(id: PlayerId) returns (r: Outcome<GameError>)
      requires Valid()
      modifies this
      ensures Valid()
      ensures (AsView(), r) == GameRules.Call(old(AsView()), id)
    {
      ghost var v := AsView();
      var e := ValidateTurn(id);
      if e.Some? {
        return Fail(e.value);
      }
      var s := seats[id];
      var amount := currentBet - s.currentBet;
      if amount > s.chips {
        amount := s.chips;
      }
      if amount < 0 {
        return Fail(PlayerFailure(NegativeBet));
      }
      seats := seats[id := BetSeat(s, amount)];
      pot := pot + amount;
      assert AsView() == Bet(v, id, amount);
      BetConserves(v, id, amount);
      r := AdvanceTurn();
    }

    /** raise. */
    method Raise(id: PlayerId, amount: int) returns (r: Outcome<GameError>)
      requires Valid()
      modifies this
      ensures Valid()
      ensures (AsView(), r) == GameRules.Raise(old(AsView()), config.fixedBet, id, amount)
    {
      ghost var v := AsView();
      var e := ValidateTurn(id);
      if e.Some? {
        return Fail(e.value);
      }
      var s := seats[id];
      var total := (currentBet - s.currentBet) + amount;
      if total > s.chips {
        return Fail(InvalidMove(NOT_ENOUGH_CHIPS));
      }
      if amount < config.fixedBet {
        return Fail(InvalidMove(RAISE_TOO_SMALL));
      }
      if total < 0 {
        return Fail(PlayerFailure(NegativeBet));
      }
      seats := seats[id := BetSeat(s, total)];
      pot := pot + total;
      assert AsView() == Bet(v, id, total);
      BetConserves(v, id, total);
      currentBet := seats[id].currentBet;
      r := AdvanceTurn();
    }

    /** fold. */
    method Fold(id: PlayerId) returns (r: Outcome<GameError>)
      requires Valid()
      modifies this
      ensures Valid()
      ensures (AsView(), r) == GameRules.Fold(old(AsView()), id)
    {
      ghost var v := AsView();
      var e := ValidateTurn(id);
      if e.Some? {
        return Fail(e.value);
      }
      seats := seats[id := seats[id].(state := FOLDED)];
      assert AsView() == v.(seats := v.seats[id := v.seats[id].(state := FOLDED)]);
      var active := ActivePlayerCount();
      if active == 1 {
        state := SHOWDOWN;
        return Pass;
      }
      r := AdvanceTurn();
    }

    /** draw: returns the replacement cards. */
    method Draw(id: PlayerId, indices: seq<int>) returns (r: Result<seq<Card>, GameError>)
      requires Valid()
      modifies this, deck
      ensures Valid()
      ensures (AsView(), r) == GameRules.Draw(old(AsView()), config.maxDraw, id, indices)
    {
      if state != DRAW {
        return Err(InvalidMove(STATE_MISMATCH));
      }
      if currentTurn.None? {
        return Err(NullPointer);
      }
      if currentTurn.value != id {
        return Err(InvalidMove(OUT_OF_TURN));
      }
      if |indices| > config.maxDraw {
        return Err(InvalidMove(ILLEGAL_DRAW));
      }
      if !Distinct(indices) {
        return Err(InvalidMove(ILLEGAL_DRAW));
      }
      for k := 0 to |indices|
        invariant forall j :: 0 <= j < k ==> 0 <= indices[j] < 5
      {
        if indices[k] < 0 || indices[k] >= 5 {
          return Err(InvalidMove(ILLEGAL_DRAW));
        }
      }
      if deck == null {
        return Err(NullPointer);
      }
      if deck.Remaining() < |indices| {
        return Err(InvalidMove(ILLEGAL_DRAW));
      }
      if id !in seats {
        return Err(NullPointer);
      }
      r := ExchangeCards(id, indices);
    }

    /** draw after its checks: swaps the selected cards for new ones from the deck. */
    method ExchangeCards(id: PlayerId, indices: seq<int>) returns (r: Result<seq<Card>, GameError>)
      requires Valid() && id in seats && deck != null
      requires |indices| <= deck.Remaining()
      modifies this, deck
      ensures Valid()
      ensures (AsView(), r) == Exchange(old(AsView()), id, indices)
    {
      ghost var v := AsView();
      var s := seats[id];
      var sel := Selected(s.hand, indices);
      if sel.Err? {
        return Err(PlayerFailure(sel.error));
      }
      var kept := RemoveAll(s.hand, sel.value);
      ghost var dv := v.deck.value;
      var got := deck.DrawMany(|indices|);
      var drawn := got.value;
      ghost var after := Some(DeckView(dv.cards, dv.cursor + |indices|));
      assert drawn == dv.cards[dv.cursor .. dv.cursor + |indices|];
      if |kept| + |drawn| > MaxHandSize {
        seats := seats[id := s.(hand := kept)];
        assert AsView() == v.(seats := v.seats[id := s.(hand := kept)], deck := after);
        return Err(PlayerFailure(HandOverflow));
      }
      seats := seats[id := s.(hand := kept + drawn)];
      ghost var w := v.(seats := v.seats[id := s.(hand := kept + drawn)], deck := after);
      assert AsView() == w;
      ExchangeConsistent(v, id, kept + drawn, dv.cursor + |indices|);
      var out := AdvanceTurn();
      r := if out.Pass? then Ok(drawn) else Err(out.error);
    }

    // ------------------------------------------------------------ showdown and payout

    /** showdown: ranks the hand of every active or all-in player. */
    method Showdown() returns (r: Result<map<PlayerId, HandRanks.HandRank>, GameError>)
      requires Valid()
      modifies this`state
      ensures Valid()
      ensures (AsView(), r) == GameRules.Showdown(old(AsView()))
    {
      if state != BET2 && state != SHOWDOWN {
        return Err(InvalidMove(STATE_MISMATCH));
      }
      state := SHOWDOWN;
      r := RankContenders(order, seats);
      ShowdownRanksContenders(old(AsView()));
    }

    /** showdown's loop: evaluates each contender's hand in join order; the
        first hand that is not five cards stops it. */
    static method RankContenders(ids: seq<PlayerId>, st: Seats) returns (r: Result<map<PlayerId, HandRanks.HandRank>, GameError>)
      ensures r == RankFrom(ids, st, map[])
    {
      var ranks := map[];
      for i := 0 to |ids|
        invariant RankFrom(ids[i..], st, ranks) == RankFrom(ids, st, map[])
      {
        assert ids[i..][1..] == ids[i + 1..];
        var id := ids[i];
        if id in st && Contends(st[id]) {
          var e := Evaluator.Evaluate(st[id].hand);
          if e.Err? {
            return Err(EvaluationFailure);
          }
          ranks := ranks[id := e.value];
        }
      }
      r := Ok(ranks);
    }

    /** distributePot: `rankOrder` is the order in which the rankings map is
        iterated. */
    method DistributePot(rankings: map<PlayerId, HandRanks.HandRank>, rankOrder: seq<PlayerId>)
      returns (r: Result<seq<Payout>, GameError>)
      requires Valid()
      requires Distinct(rankOrder) && forall id :: id in rankOrder <==> id in rankings
      modifies this
      ensures Valid()
      ensures (AsView(), r) == Distribute(old(AsView()), config.minPlayers, rankings, rankOrder)
    {
      if state != SHOWDOWN {
        return Err(InvalidMove(STATE_MISMATCH));
      }
      state := PAYOUT;
      if |rankOrder| == 0 {
        return Err(NoSuchElement);
      }
      var best := MaxRank(RanksInOrder(rankOrder, rankings));
      var winners := Winners(rankOrder, rankings, best);
      WinnersNonEmpty(rankOrder, rankings);
      r := PayShares(winners);
    }

    /** distributePot's payments, the emptied pot and the sweep of the table. */
    method PayShares(winners: seq<PlayerId>) returns (r: Result<seq<Payout>, GameError>)
      requires Valid() && |winners| > 0 && Distinct(winners)
      modifies this
      ensures Valid()
      ensures (AsView(), r) == PayPot(old(AsView()), config.minPlayers, winners)
    {
      ghost var v := AsView();
      var paid, payouts, k := PayWinners(seats, winners, pot);
      seats := paid;
      PayPotConsistent(v, config.minPlayers, winners);
      if k < |winners| {
        return Err(NullPointer);
      }
      pot := 0;
      state := END;
      SweepTable();
      r := Ok(payouts);
    }

    /** distributePot's removeIf: the players left without chips leave; the game
        goes back to the lobby if enough players remain. */
    method SweepTable()
      requires Valid()
      modifies this
      ensures Valid()
      ensures AsView() == Sweep(old(AsView()), config.minPlayers)
    {
      ghost var v := AsView();
      var survivors := RemoveBroke(order, seats);
      seats := map id | id in seats && id in survivors :: seats[id];
      order := survivors;
      if |survivors| >= config.minPlayers {
        state := LOBBY;
      }
      SweepConsistent(v, config.minPlayers);
    }

    /** distributePot's payment loop: each winner in turn gets an equal share,
        the first also the remainder; a winner who is no longer seated stops it. */
    static method PayWinners(before: Seats, winners: seq<PlayerId>, pot: int) returns (paid: Seats, payouts: seq<Payout>, k: nat)
      requires |winners| > 0 && Distinct(winners)
      ensures k == SeatedPrefix(winners, before)
      ensures paid == PayFirst(before, winners, k, pot, |winners|)
      ensures k == |winners| ==>
        payouts == seq(|winners|, j requires 0 <= j < |winners| => Payout(winners[j], Share(pot, |winners|, j), paid[winners[j]].chips))
    {
      var n := |winners|;
      var share := pot / n;
      var remainder := pot % n;
      paid := before;
      payouts := [];
      k := 0;
      while k < n
        invariant 0 <= k <= n && |payouts| == k
        invariant forall j :: 0 <= j < k ==> winners[j] in before
        invariant paid == PayFirst(before, winners, k, pot, n)
        invariant forall j :: 0 <= j < k ==> payouts[j] == Payout(winners[j], Share(pot, n, j), paid[winners[j]].chips)
      {
        var w := winners[k];
        if w !in paid {
          return;
        }
        var amount := share + (if k == 0 then remainder else 0);
        assert amount == Share(pot, n, k);
        paid := paid[w := paid[w].(chips := paid[w].chips + amount)];
        payouts := payouts + [Payout(w, amount, paid[w].chips)];
        k := k + 1;
      }
    }

    /** distributePot's removeIf: the players still holding chips, in join order. */
    static method RemoveBroke(ids: seq<PlayerId>, st: Seats) returns (kept: seq<PlayerId>)
      ensures kept == Funded(ids, st)
    {
      kept := [];
      for i := 0 to |ids|
        invariant kept + Funded(ids[i..], st) == Funded(ids, st)
      {
        assert ids[i..][1..] == ids[i + 1..];
        if ids[i] in st && st[ids[i]].chips > 0 {
          kept := kept + [ids[i]];
        }
      }
    }

    /** resetForNextRound: moves the dealer button one seat on. */
    method ResetForNextRound() returns (r: Outcome<GameError>)
      requires Valid()
      modifies this
      ensures Valid()
      ensures (AsView(), r) == NextDealer(old(AsView()))
    {
      if state != LOBBY {
        return Fail(InvalidMove(STATE_MISMATCH));
      }
      if |order| == 0 {
        return Fail(DivisionByZero);
      }
      ghost var v := AsView();
      dealerIndex := (dealerIndex + 1) % |order|;
      dealerId := Some(order[dealerIndex]);
      r := Pass;
      NextDealerConsistent(v);
    }
  }
}

/** PokerGame's rules as functions on a value view of the table. Each function
    is one operation of the engine: it takes the view before the call and
    gives the view after it together with the outcome, including the partly
    applied changes the engine leaves behind when it throws half-way. */
module GameRules {
  import opened Wrappers
  import opened JavaStrings
  import opened Cards
  import opened Decks
  import HandRanks
  import Evaluator
  import opened Ids
  import opened Config
  import opened Players
  import opened Tables

  /** The phases of a game. */
  datatype GameState = LOBBY | ANTE | DEAL | BET1 | DRAW | BET2 | SHOWDOWN | PAYOUT | END

  /** The codes carried by InvalidMoveException and its subclasses. */
  datatype MoveCode =
    | STATE_MISMATCH | GAME_FULL | ALREADY_JOINED | PLAYER_NOT_FOUND | NOT_ENOUGH_PLAYERS
    | CANNOT_CHECK | NOT_ENOUGH_CHIPS | RAISE_TOO_SMALL | OUT_OF_TURN | PLAYER_NOT_ACTIVE
    | ILLEGAL_DRAW

  /** What a game operation throws. */
  datatype GameError =
    | InvalidMove(code: MoveCode)     // InvalidMoveException or a subclass
    | NullPointer                     // NullPointerException (no current turn, no deck, missing player)
    | PlayerFailure(playerError: PlayerError)
    | DeckFailure(deckError: DeckError)
    | NoActivePlayers                 // IllegalStateException from findNextActivePlayer
    | NoSuchElement                   // orElseThrow on no rankings
    | DivisionByZero                  // ArithmeticException: modulo an empty table
    | EvaluationFailure               // the evaluator refused a hand that is not five cards
    | Diverges                        // startGame's rotation never reaches the dealer

  /** A deck as the game sees it: the card order and the cursor. */
  datatype DeckView = DeckView(cards: seq<Card>, cursor: nat)

  /** The game's state as a value. `order` lists the players map's keys in
      join order; `seats` holds each player's changing fields. */
  datatype View = View(
    state: GameState,
    order: seq<PlayerId>,
    seats: Seats,
    deck: Option<DeckView>,
    pot: int,
    currentBet: int,
    currentTurn: Option<PlayerId>,
    dealerId: Option<PlayerId>,
    dealerIndex: int,
    turnOrder: seq<PlayerId>,
    actionsInRound: int)

  /** A new game: the lobby, no players, no deck, an empty pot. */
  function Initial(): View
  {
    View(LOBBY, [], map[], None, 0, 0, None, None, 0, [], 0)
  }

  /** Whether an operation that also returns a value succeeded. */
  function OutcomeOf<T>(r: Result<T, GameError>): Outcome<GameError>
  {
    if r.Ok? then Pass else Fail(r.error)
  }

  /** Every chip at the table: the pot plus every stack. */
  function Total(v: View): int
  {
    v.pot + SumChips(v.order, v.seats)
  }

  /** What the engine keeps true of its fields between calls. */
  predicate Consistent(v: View)
  {
    Distinct(v.order)
    && v.seats.Keys == Elements(v.order)
    && (forall id :: id in v.seats ==> SeatValid(v.seats[id]))
    && v.pot >= 0 && v.dealerIndex >= 0
    && (v.deck.Some? ==> v.deck.value.cursor <= |v.deck.value.cards|)
  }

  // ---------------------------------------------------------------- lobby

  /** addPlayer: only in the lobby, below the seat limit and for a new id; the
      newcomer gets the initial stack, and the first one also the dealer button. */
  function Join(v: View, cfg: GameConfig, id: PlayerId, name: Option<string>): (View, Outcome<GameError>)
  {
    if v.state != LOBBY then (v, Fail(InvalidMove(STATE_MISMATCH)))
    else if |v.order| >= cfg.maxPlayers then (v, Fail(InvalidMove(GAME_FULL)))
    else if id in v.seats then (v, Fail(InvalidMove(ALREADY_JOINED)))
    else if name.None? || IsBlank(name.value) then (v, Fail(PlayerFailure(BlankName)))
    else if cfg.initialChips < 0 then (v, Fail(PlayerFailure(NegativeInitialChips)))
    else
      var first := v.dealerId.None?;
      (v.(order := v.order + [id],
          seats := v.seats[id := Seat(cfg.initialChips, 0, ACTIVE, [])],
          dealerId := if first then Some(id) else v.dealerId,
          dealerIndex := if first then 0 else v.dealerIndex),
       Pass)
  }

  /** removePlayer, in any phase: the player leaves; a departing dealer hands the
      button to the longest-seated remaining player. */
  function Leave(v: View, id: PlayerId): (View, Outcome<GameError>)
  {
    if id !in v.seats then (v, Fail(InvalidMove(PLAYER_NOT_FOUND)))
    else
      var order := RemoveId(v.order, id);
      (v.(order := order,
          seats := v.seats - {id},
          dealerId := if v.dealerId == Some(id) && |order| > 0 then Some(order[0]) else v.dealerId),
       Pass)
  }

  /** startGame: the turn order is the join order rotated to start at the dealer. */
  function Start(v: View, cfg: GameConfig): (View, Outcome<GameError>)
  {
    if v.state != LOBBY then (v, Fail(InvalidMove(STATE_MISMATCH)))
    else if |v.order| < cfg.minPlayers then (v, Fail(InvalidMove(NOT_ENOUGH_PLAYERS)))
    else if v.dealerId.None? || v.dealerId.value !in v.order then (v, Fail(Diverges))
    else
      (v.(turnOrder := Rotate(v.order, IndexOfId(v.order, v.dealerId.value)), state := ANTE), Pass)
  }

  /** collectAnte: short stacks sit out, every other player pays the ante into the pot. */
  function CollectAnte(v: View, cfg: GameConfig): (View, Outcome<GameError>)
  {
    if v.state != ANTE then (v, Fail(InvalidMove(STATE_MISMATCH)))
    else
      (v.(seats := UpdateEach(v.order, v.seats, AnteStep(cfg.ante)),
          pot := v.pot + cfg.ante * Payers(v.order, v.seats, cfg.ante),
          state := DEAL),
       Pass)
  }

  // ---------------------------------------------------------------- dealing

  /** Seats after dealing, the deck cursor, and whether the deck lasted. */
  datatype Dealt = Dealt(seats: Seats, cursor: nat, complete: bool)

  /** dealInitialCards' loop from player `ids[0]` on: an active player's hand
      is cleared, then refilled with the next five cards; the deal stops with
      that player's hand empty when fewer than five cards remain. */
  function DealFrom(ids: seq<PlayerId>, seats: Seats, cards: seq<Card>, cursor: nat): (d: Dealt)
    ensures d.seats.Keys == seats.Keys
    ensures cursor <= d.cursor
  {
    if ids == [] then Dealt(seats, cursor, true)
    else if ids[0] in seats && seats[ids[0]].state == ACTIVE then
      var cleared := seats[ids[0]].(hand := [], currentBet := 0);
      if cursor + 5 > |cards| then Dealt(seats[ids[0] := cleared], cursor, false)
      else DealFrom(ids[1..], seats[ids[0] := cleared.(hand := cards[cursor..cursor + 5])], cards, cursor + 5)
    else DealFrom(ids[1..], seats, cards, cursor)
  }

  /** dealInitialCards with `cards` as the freshly shuffled deck. */
  function Deal(v: View, cards: seq<Card>): (View, Outcome<GameError>)
  {
    if v.state != DEAL then (v, Fail(InvalidMove(STATE_MISMATCH)))
    else
      var d := DealFrom(v.order, v.seats, cards, 0);
      var w := v.(seats := d.seats, deck := Some(DeckView(cards, d.cursor)));
      if !d.complete then (w, Fail(DeckFailure(Exhausted)))
      else StartRound(w.(state := BET1))
  }

  // ---------------------------------------------------------------- turns

  /** Moves the turn to the next active player after `after`, or fails leaving it. */
  function MoveTurn(v: View, after: Option<PlayerId>): (View, Outcome<GameError>)
  {
    match NextActive(v.turnOrder, after, ActiveIds(v.seats))
    case None => (v, Fail(NoActivePlayers))
    case Some(next) => (v.(currentTurn := Some(next)), Pass)
  }

  /** startBettingRound: the table bet and the action count go to zero, the
      turn goes to the first active player after the dealer, and only then is
      every player reset for the round. */
  function StartRound(v: View): (View, Outcome<GameError>)
  {
    var w := v.(currentBet := 0, actionsInRound := 0);
    match NextActive(v.turnOrder, v.dealerId, ActiveIds(v.seats))
    case None => (w, Fail(NoActivePlayers))
    case Some(next) => (w.(currentTurn := Some(next), seats := UpdateEach(v.order, v.seats, ResetStep)), Pass)
  }

  /** startSecondBettingRound. */
  function StartSecondRound(v: View): (View, Outcome<GameError>)
  {
    if v.state != DRAW then (v, Fail(InvalidMove(STATE_MISMATCH)))
    else StartRound(v.(state := BET2))
  }

  /** advanceTurn: counts the action; once every active player has acted and
      matched the bet, the phase moves on (BET1 to DRAW, BET2 to SHOWDOWN, DRAW
      to the second round); otherwise the turn passes on. */
  function Advance(v: View): (View, Outcome<GameError>)
  {
    var acts := v.actionsInRound + 1;
    var w := v.(actionsInRound := acts);
    if acts >= CountActive(v.order, v.seats) && AllMatched(v.seats, v.currentBet) then
      if v.state == BET1 then MoveTurn(w.(state := DRAW, actionsInRound := 0), v.dealerId)
      else if v.state == BET2 then (w.(state := SHOWDOWN), Pass)
      else if v.state == DRAW then StartSecondRound(w)
      else (w, Pass)
    else MoveTurn(w, v.currentTurn)
  }

  /** validateTurn: why `id` may not act now, if it may not. */
  function TurnError(v: View, id: PlayerId): (e: Option<GameError>)
    ensures e.None? <==> v.currentTurn == Some(id) && id in v.seats && v.seats[id].state == ACTIVE
  {
    if v.currentTurn.None? then Some(NullPointer)
    else if v.currentTurn.value != id then Some(InvalidMove(OUT_OF_TURN))
    else if id !in v.seats then Some(InvalidMove(PLAYER_NOT_FOUND))
    else if v.seats[id].state != ACTIVE then Some(InvalidMove(PLAYER_NOT_ACTIVE))
    else None
  }

  // ---------------------------------------------------------------- betting

  /** player.bet(amount) followed by pot += amount. */
  function Bet(v: View, id: PlayerId, amount: int): View
    requires id in v.seats
  {
    v.(pot := v.pot + amount, seats := v.seats[id := BetSeat(v.seats[id], amount)])
  }

  /** check: allowed only when the player has already matched the table bet. */
  function Check(v: View, id: PlayerId): (View, Outcome<GameError>)
  {
    var e := TurnError(v, id);
    if e.Some? then (v, Fail(e.value))
    else if v.currentBet > v.seats[id].currentBet then (v, Fail(InvalidMove(CANNOT_CHECK)))
    else Advance(v)
  }

  /** The amount a call moves: the difference to the table bet, capped at the stack. */
  function CallAmount(tableBet: int, s: Seat): int
  {
    if tableBet - s.currentBet > s.chips then s.chips else tableBet - s.currentBet
  }

  /** call: the player bets the call amount, which goes into the pot. */
  function Call(v: View, id: PlayerId): (View, Outcome<GameError>)
  {
    var e := TurnError(v, id);
    if e.Some? then (v, Fail(e.value))
    else
      var amount := CallAmount(v.currentBet, v.seats[id]);
      if amount < 0 then (v, Fail(PlayerFailure(NegativeBet)))
      else Advance(Bet(v, id, amount))
  }

  /** raise: the player pays the call plus `amount`; the stack must cover it
      (checked first) and `amount` must reach the fixed bet; the table bet
      becomes the raiser's bet. */
  function Raise(v: View, fixedBet: int, id: PlayerId, amount: int): (View, Outcome<GameError>)
  {
    var e := TurnError(v, id);
    if e.Some? then (v, Fail(e.value))
    else
      var s := v.seats[id];
      var total := (v.currentBet - s.currentBet) + amount;
      if total > s.chips then (v, Fail(InvalidMove(NOT_ENOUGH_CHIPS)))
      else if amount < fixedBet then (v, Fail(InvalidMove(RAISE_TOO_SMALL)))
      else if total < 0 then (v, Fail(PlayerFailure(NegativeBet)))
      else Advance(RaiseBet(v, id, total))
  }

  /** A raise's bet: the raiser pays `total` into the pot and the table bet
      becomes the raiser's bet. */
  function RaiseBet(v: View, id: PlayerId, total: int): View
    requires id in v.seats
  {
    var w := Bet(v, id, total);
    w.(currentBet := w.seats[id].currentBet)
  }

  /** fold: when one active player is left the game jumps to the showdown and
      the turn stays where it was. */
  function Fold(v: View, id: PlayerId): (View, Outcome<GameError>)
  {
    var e := TurnError(v, id);
    if e.Some? then (v, Fail(e.value))
    else
      var w := v.(seats := v.seats[id := v.seats[id].(state := FOLDED)]);
      if CountActive(w.order, w.seats) == 1 then (w.(state := SHOWDOWN), Pass)
      else Advance(w)
  }

  // ---------------------------------------------------------------- draw

  /** draw's checks, in their order: the first that fails gives the error. */
  function DrawError(v: View, maxDraw: int, id: PlayerId, indices: seq<int>): Option<GameError>
  {
    if v.state != DRAW then Some(InvalidMove(STATE_MISMATCH))
    else if v.currentTurn.None? then Some(NullPointer)
    else if v.currentTurn.value != id then Some(InvalidMove(OUT_OF_TURN))
    else if |indices| > maxDraw then Some(InvalidMove(ILLEGAL_DRAW))
    else if !Distinct(indices) then Some(InvalidMove(ILLEGAL_DRAW))
    else if exists k :: 0 <= k < |indices| && !(0 <= indices[k] < 5) then Some(InvalidMove(ILLEGAL_DRAW))
    else if v.deck.None? then Some(NullPointer)
    else if |v.deck.value.cards| - v.deck.value.cursor < |indices| then Some(InvalidMove(ILLEGAL_DRAW))
    else if id !in v.seats then Some(NullPointer)
    else None
  }

  /** draw once its checks passed: the selected cards leave the hand, as many
      come off the deck and go to the end of it, and the turn moves on; a hand
      that would grow past five cards keeps only what is left of it. */
  function Exchange(v: View, id: PlayerId, indices: seq<int>): (View, Result<seq<Card>, GameError>)
    requires id in v.seats && v.deck.Some?
    requires |indices| <= |v.deck.value.cards| - v.deck.value.cursor
  {
    var s := v.seats[id];
    var sel := Selected(s.hand, indices);
    if sel.Err? then (v, Err(PlayerFailure(sel.error)))
    else
      var dv := v.deck.value;
      var drawn := dv.cards[dv.cursor .. dv.cursor + |indices|];
      var kept := RemoveAll(s.hand, sel.value);
      if |kept| + |drawn| > MaxHandSize then
        (Refill(v, id, kept, dv.cursor + |indices|), Err(PlayerFailure(HandOverflow)))
      else
        var next := Advance(Refill(v, id, kept + drawn, dv.cursor + |indices|));
        (next.0, if next.1.Pass? then Ok(drawn) else Err(next.1.error))
  }

  /** The table once the player holds `hand` and the deck has been dealt up to `cursor`. */
  function Refill(v: View, id: PlayerId, hand: seq<Card>, cursor: nat): View
    requires id in v.seats && v.deck.Some?
  {
    v.(seats := v.seats[id := v.seats[id].(hand := hand)], deck := Some(DeckView(v.deck.value.cards, cursor)))
  }

  /** draw: in the DRAW phase and on the player's turn, swaps the cards at
      `indices` for as many from the deck; the replacements go to the end of
      the hand. Every check on the indices and the deck comes before any change. */
  function Draw(v: View, maxDraw: int, id: PlayerId, indices: seq<int>): (View, Result<seq<Card>, GameError>)
  {
    match DrawError(v, maxDraw, id, indices)
    case Some(e) => (v, Err(e))
    case None => Exchange(v, id, indices)
  }

  // ---------------------------------------------------------------- showdown and payout

  /** A player whose hand is judged at the showdown. */
  predicate Contends(s: Seat)
  {
    s.state == ACTIVE || s.state == ALL_IN
  }

  /** A contender whose hand is not five cards, which stops the showdown. */
  predicate Unrankable(seats: Seats, id: PlayerId)
  {
    id in seats && Contends(seats[id]) && |seats[id].hand| != 5
  }

  /** showdown: from BET2 (or again in SHOWDOWN) every active or all-in player's
      hand is evaluated; one hand that is not five cards fails the whole call,
      after the phase has already become SHOWDOWN. */
  function Showdown(v: View): (View, Result<map<PlayerId, HandRanks.HandRank>, GameError>)
  {
    if v.state != BET2 && v.state != SHOWDOWN then (v, Err(InvalidMove(STATE_MISMATCH)))
    else
      var w := v.(state := SHOWDOWN);
      if exists id | id in v.seats :: Unrankable(v.seats, id) then
        (w, Err(EvaluationFailure))
      else
        (w, Ok(map id | id in v.seats && Contends(v.seats[id]) :: Evaluator.Evaluate(v.seats[id].hand).value))
  }

  /** showdown's loop over the join order from `ids[0]` on, `ranks` holding
      the hands already ranked: the first contender whose hand is not five
      cards stops it. */
  function RankFrom(ids: seq<PlayerId>, seats: Seats, ranks: map<PlayerId, HandRanks.HandRank>)
    : Result<map<PlayerId, HandRanks.HandRank>, GameError>
  {
    if ids == [] then Ok(ranks)
    else if ids[0] in seats && Contends(seats[ids[0]]) then
      var e := Evaluator.Evaluate(seats[ids[0]].hand);
      if e.Err? then Err(EvaluationFailure)
      else RankFrom(ids[1..], seats, ranks[ids[0] := e.value])
    else RankFrom(ids[1..], seats, ranks)
  }

  /** The number of leading winners who are seated. */
  function SeatedPrefix(winners: seq<PlayerId>, seats: Seats): (k: nat)
    ensures k <= |winners|
    ensures forall j :: 0 <= j < k ==> winners[j] in seats
    ensures k < |winners| ==> winners[k] !in seats
  {
    if winners == [] || winners[0] !in seats then 0
    else 1 + SeatedPrefix(winners[1..], seats)
  }

  /** The seats after the first k winners have received their shares of the pot. */
  function PayFirst(seats: Seats, winners: seq<PlayerId>, k: nat, pot: int, n: int): (r: Seats)
    requires k <= |winners| && n > 0
    requires forall j :: 0 <= j < k ==> winners[j] in seats
    ensures r.Keys == seats.Keys
  {
    if k == 0 then seats
    else
      var before := PayFirst(seats, winners, k - 1, pot, n);
      var w := winners[k - 1];
      before[w := before[w].(chips := before[w].chips + Share(pot, n, k - 1))]
  }

  /** The players whose rank compares equal to the best one, in the rankings'
      iteration order `rankOrder`. */
  function WinnersOf(rankings: map<PlayerId, HandRanks.HandRank>, rankOrder: seq<PlayerId>): (w: seq<PlayerId>)
    requires |rankOrder| > 0 && Distinct(rankOrder) && forall id :: id in rankOrder ==> id in rankings
    ensures |w| > 0 && Distinct(w)
  {
    WinnersNonEmpty(rankOrder, rankings);
    Winners(rankOrder, rankings, MaxRank(RanksInOrder(rankOrder, rankings)))
  }

  /** distributePot: the winners split the pot, the first of them taking the
      remainder; a winner who has left the table stops the payments half-way. */
  function Distribute(v: View, minPlayers: int, rankings: map<PlayerId, HandRanks.HandRank>, rankOrder: seq<PlayerId>)
    : (View, Result<seq<Payout>, GameError>)
    requires Distinct(rankOrder) && forall id :: id in rankOrder <==> id in rankings
  {
    if v.state != SHOWDOWN then (v, Err(InvalidMove(STATE_MISMATCH)))
    else if rankOrder == [] then (v.(state := PAYOUT), Err(NoSuchElement))
    else PayPot(v.(state := PAYOUT), minPlayers, WinnersOf(rankings, rankOrder))
  }

  /** distributePot once the winners are known: the i-th seated winner gets
      Share(pot, n, i); each payout records the winner's new stack. Then the
      pot empties, the phase becomes END and the table is swept. */
  function PayPot(v: View, minPlayers: int, winners: seq<PlayerId>): (View, Result<seq<Payout>, GameError>)
    requires |winners| > 0
  {
    var n := |winners|;
    var k := SeatedPrefix(winners, v.seats);
    var paid := PayFirst(v.seats, winners, k, v.pot, n);
    if k < n then (v.(seats := paid), Err(NullPointer))
    else
      var payouts := seq(n, j requires 0 <= j < n => Payout(winners[j], Share(v.pot, n, j), paid[winners[j]].chips));
      (Sweep(v.(seats := paid, pot := 0, state := END), minPlayers), Ok(payouts))
  }

  /** removeIf(chips <= 0) on the players map, then LOBBY if enough players remain. */
  function Sweep(v: View, minPlayers: int): View
  {
    var survivors := Funded(v.order, v.seats);
    v.(order := survivors,
       seats := map id | id in v.seats && id in survivors :: v.seats[id],
       state := if |survivors| >= minPlayers then LOBBY else v.state)
  }

  /** resetForNextRound: the dealer button moves one seat on in join order. */
  function NextDealer(v: View): (View, Outcome<GameError>)
  {
    if v.state != LOBBY then (v, Fail(InvalidMove(STATE_MISMATCH)))
    else if |v.order| == 0 then (v, Fail(DivisionByZero))
    else
      var i := (v.dealerIndex + 1) % |v.order|;
      (v.(dealerIndex := i, dealerId := Some(v.order[i])), Pass)
  }
}

/** The messages of the line protocol as ServerMessage and ClientMessage build
    them, and what the receiving side reads back from their written form. */
module Messages {
  import opened Wrappers
  import opened JavaStrings
  import opened Decimal
  import opened Protocol
  import opened ProtocolLaws

  // ---------------------------------------------------------------- server to client

  /** ok(): an acknowledgement without parameters. */
  function Acknowledge(): Message
  {
    Message(None, None, "OK", map[])
  }

  /** ok(message). */
  function AcknowledgeWith(text: string): Message
  {
    Message(None, None, "OK", map["MESSAGE" := text])
  }

  /** error(code, reason). */
  function ErrorReply(code: string, reason: string): Message
  {
    Message(None, None, "ERR", map["CODE" := code, "REASON" := reason])
  }

  /** welcome(gameId, playerId): the ids travel as parameters, not in the header. */
  function Welcome(gameId: string, playerId: string): Message
  {
    Message(None, None, "WELCOME", map["GAME" := gameId, "PLAYER" := playerId])
  }

  function Lobby(gameId: string, players: string): Message
  {
    Message(Some(gameId), None, "LOBBY", map["PLAYERS" := players])
  }

  function Started(gameId: string, dealerId: string, ante: int, bet: int): Message
  {
    Message(Some(gameId), None, "STARTED",
      map["DEALER" := dealerId, "ANTE" := IntToString(ante), "BET" := IntToString(bet)])
  }

  function AnteRequest(gameId: string, playerId: string, amount: int): Message
  {
    Message(Some(gameId), None, "ANTE", map["PLAYER" := playerId, "AMOUNT" := IntToString(amount)])
  }

  function AnteOk(gameId: string, playerId: string, stack: int): Message
  {
    Message(Some(gameId), None, "ANTE_OK", map["PLAYER" := playerId, "STACK" := IntToString(stack)])
  }

  function Deal(gameId: string, playerId: string, cards: string): Message
  {
    Message(Some(gameId), None, "DEAL", map["PLAYER" := playerId, "CARDS" := cards])
  }

  function Turn(gameId: string, playerId: string, phase: string, callAmount: int, minRaise: int): Message
  {
    Message(Some(gameId), None, "TURN",
      map["PLAYER" := playerId, "PHASE" := phase,
          "CALL" := IntToString(callAmount), "MINRAISE" := IntToString(minRaise)])
  }

  /** action(gameId, playerId, type, args): ARGS is sent only for non-null, non-empty args. */
  function ActionNotice(gameId: string, playerId: string, kind: string, args: Option<string>): Message
  {
    var params := map["PLAYER" := playerId, "TYPE" := kind];
    Message(Some(gameId), None, "ACTION",
      if args.Some? && args.value != [] then params["ARGS" := args.value] else params)
  }

  function DrawOk(gameId: string, playerId: string, count: int, newCards: string): Message
  {
    Message(Some(gameId), None, "DRAWOK",
      map["PLAYER" := playerId, "COUNT" := IntToString(count), "NEW" := newCards])
  }

  function Round(gameId: string, pot: int, highestBet: int): Message
  {
    Message(Some(gameId), None, "ROUND", map["POT" := IntToString(pot), "HIGHESTBET" := IntToString(highestBet)])
  }

  function Showdown(gameId: string, playerId: string, hand: string, rank: string): Message
  {
    Message(Some(gameId), None, "SHOWDOWN", map["PLAYER" := playerId, "HAND" := hand, "RANK" := rank])
  }

  function Winner(gameId: string, playerId: string, pot: int, rank: string): Message
  {
    Message(Some(gameId), None, "WINNER",
      map["PLAYER" := playerId, "POT" := IntToString(pot), "RANK" := rank])
  }

  function Payout(gameId: string, playerId: string, amount: int, stack: int): Message
  {
    Message(Some(gameId), None, "PAYOUT",
      map["PLAYER" := playerId, "AMOUNT" := IntToString(amount), "STACK" := IntToString(stack)])
  }

  function End(gameId: string, reason: string): Message
  {
    Message(Some(gameId), None, "END", map["REASON" := reason])
  }

  // ---------------------------------------------------------------- client to server

  function Hello(version: string): Message
  {
    Message(None, None, "HELLO", map["VERSION" := version])
  }

  /** create(ante, bet): the limit is always FIXED. */
  function Create(ante: int, bet: int): Message
  {
    Message(None, None, "CREATE", map["ANTE" := IntToString(ante), "BET" := IntToString(bet), "LIMIT" := "FIXED"])
  }

  function Join(gameId: string, name: string): Message
  {
    Message(None, None, "JOIN", map["GAME" := gameId, "NAME" := name])
  }

  /** The requests made in a game carry both ids in the header. */
  function InGame(gameId: string, playerId: string, action: string): Message
  {
    Message(Some(gameId), Some(playerId), action, map[])
  }

  function Leave(gameId: string, playerId: string): Message { InGame(gameId, playerId, "LEAVE") }
  function Start(gameId: string, playerId: string): Message { InGame(gameId, playerId, "START") }
  function Call(gameId: string, playerId: string): Message { InGame(gameId, playerId, "CALL") }
  function Check(gameId: string, playerId: string): Message { InGame(gameId, playerId, "CHECK") }
  function Fold(gameId: string, playerId: string): Message { InGame(gameId, playerId, "FOLD") }
  function Status(gameId: string, playerId: string): Message { InGame(gameId, playerId, "STATUS") }
  function Quit(gameId: string, playerId: string): Message { InGame(gameId, playerId, "QUIT") }

  function Bet(gameId: string, playerId: string, amount: int): Message
  {
    InGame(gameId, playerId, "BET").(params := map["AMOUNT" := IntToString(amount)])
  }

  function Draw(gameId: string, playerId: string, cardIndices: string): Message
  {
    InGame(gameId, playerId, "DRAW").(params := map["CARDS" := cardIndices])
  }

  // ---------------------------------------------------------------- what the receiver reads

  /** A parameter value that is read back unchanged and is not empty. */
  predicate IsValue(v: string)
  {
    v != [] && IsPlainValue(v)
  }

  /** The decimal text of an int is a non-empty value without '=' or blanks. */
  lemma IntTextIsValue(n: int)
    ensures IsValue(IntToString(n))
  {
    var s := IntToString(n);
    var d := NatDigits(if n < 0 then -n else n);
    assert IsDigit(d[|d| - 1]);
    assert s[|s| - 1] == d[|d| - 1];
    forall i | 0 <= i < |s| ensures s[i] != '=' {
      if n < 0 && i > 0 {
        assert s[i] == d[i - 1] && IsDigit(d[i - 1]);
      } else if n >= 0 {
        assert IsDigit(d[i]);
      }
    }
  }

  /** The int a receiver gets back from a parameter written with String.valueOf. */
  lemma IntParamReadBack(m: Message, key: string, n: int)
    requires IsInt32(n) && key in m.params && m.params[key] == IntToString(n)
    ensures GetIntParam(m, key) == Ok(n)
  {
    IntRoundTrip(n);
  }

  /** The header ids a game-scoped server message reads back as. */
  predicate GameScoped(m: Message, gameId: string)
  {
    m.gameId == Some(gameId) && m.playerId.None?
  }

  /** Every message the server sends inside a game names the game and no
      player in its header; the replies to the connection name neither. */
  lemma ServerScopes(g: string, p: string, s: string, n: int, args: Option<string>)
    ensures GameScoped(Lobby(g, s), g) && GameScoped(Started(g, p, n, n), g)
    ensures GameScoped(AnteRequest(g, p, n), g) && GameScoped(AnteOk(g, p, n), g)
    ensures GameScoped(Deal(g, p, s), g) && GameScoped(Turn(g, p, s, n, n), g)
    ensures GameScoped(ActionNotice(g, p, s, args), g) && GameScoped(DrawOk(g, p, n, s), g)
    ensures GameScoped(Round(g, n, n), g) && GameScoped(Showdown(g, p, s, s), g)
    ensures GameScoped(Winner(g, p, n, s), g) && GameScoped(Payout(g, p, n, n), g)
    ensures GameScoped(End(g, s), g)
    ensures var none := (Option<string>.None, Option<string>.None);
      (Acknowledge().gameId, Acknowledge().playerId) == none
      && (AcknowledgeWith(s).gameId, AcknowledgeWith(s).playerId) == none
      && (ErrorReply(s, s).gameId, ErrorReply(s, s).playerId) == none
      && (Welcome(g, p).gameId, Welcome(g, p).playerId) == none
  {
  }

  /** ARGS is present exactly when action() was given non-empty args, and then
      carries them; PLAYER and TYPE are always there. */
  lemma ActionArgs(g: string, p: string, kind: string, args: Option<string>)
    ensures var m := ActionNotice(g, p, kind, args);
      ("ARGS" in m.params <==> args.Some? && args.value != [])
      && ("ARGS" in m.params ==> m.params["ARGS"] == args.value)
      && m.params.Keys <= {"PLAYER", "TYPE", "ARGS"}
      && m.params["PLAYER"] == p && m.params["TYPE"] == kind
  {
  }

  /** The upper-case names the protocol uses for actions and keys. */
  predicate IsName(s: string)
  {
    s != [] && forall i :: 0 <= i < |s| ==> 'A' <= s[i] <= 'Z' || s[i] == '_'
  }

  lemma NameIsToken(s: string)
    requires IsName(s)
    ensures IsToken(s) && s != "-" && IsValue(s)
  {
    assert s[0] != '-';
  }

  /** The action names and keys the read-back lemmas below rely on. */
  lemma Names()
    ensures IsName("ERR") && IsName("CODE") && IsName("REASON")
    ensures IsName("TURN") && IsName("PLAYER") && IsName("PHASE") && IsName("CALL") && IsName("MINRAISE")
    ensures IsName("CREATE") && IsName("ANTE") && IsName("BET") && IsName("LIMIT") && IsName("FIXED")
    ensures IsName("AMOUNT")
  {
  }

  /** Adding a name and a value keeps a parameter map writable. */
  lemma PlainAdd(params: map<string, string>, k: string, v: string)
    requires PlainParams(params, true) && IsName(k) && IsValue(v)
    ensures PlainParams(params[k := v], true)
  {
    NameIsToken(k);
  }

  /** An error reply with a plain code and reason is read back as sent. */
  lemma ErrorReadBack(code: string, reason: string, keys: seq<string>)
    requires IsValue(code) && IsValue(reason)
    requires IterationOrder(keys, ErrorReply(code, reason).params)
    requires |ProtocolString(ErrorReply(code, reason), keys)| <= MaxLineLength
    ensures ParseLine(Some(ProtocolString(ErrorReply(code, reason), keys))) == Ok(ErrorReply(code, reason))
  {
    var p0: map<string, string> := map[];
    var p1 := p0["CODE" := code];
    var p2 := p1["REASON" := reason];
    Names();
    NameIsToken("ERR");
    PlainAdd(p0, "CODE", code);
    PlainAdd(p1, "REASON", reason);
    assert ErrorReply(code, reason) == Message(None, None, "ERR", p2);
    RoundTrip(ErrorReply(code, reason), keys);
  }

  /** The TURN notice reads back as sent, and the amounts to call and to
      raise come back as the ints the server wrote. */
  lemma TurnReadBack(g: string, p: string, phase: string, callAmount: int, minRaise: int, keys: seq<string>)
    requires IsToken(g) && g != "-" && IsValue(p) && IsValue(phase)
    requires IsInt32(callAmount) && IsInt32(minRaise)
    requires IterationOrder(keys, Turn(g, p, phase, callAmount, minRaise).params)
    requires |ProtocolString(Turn(g, p, phase, callAmount, minRaise), keys)| <= MaxLineLength
    ensures var m := Turn(g, p, phase, callAmount, minRaise);
      ParseLine(Some(ProtocolString(m, keys))) == Ok(m)
      && GetIntParam(m, "CALL") == Ok(callAmount) && GetIntParam(m, "MINRAISE") == Ok(minRaise)
  {
    var call, raise := IntToString(callAmount), IntToString(minRaise);
    var p0: map<string, string> := map[];
    var p1 := p0["PLAYER" := p];
    var p2 := p1["PHASE" := phase];
    var p3 := p2["CALL" := call];
    var p4 := p3["MINRAISE" := raise];
    Names();
    IntTextIsValue(callAmount);
    IntTextIsValue(minRaise);
    NameIsToken("TURN");
    PlainAdd(p0, "PLAYER", p);
    PlainAdd(p1, "PHASE", phase);
    PlainAdd(p2, "CALL", call);
    PlainAdd(p3, "MINRAISE", raise);
    var m := Message(Some(g), None, "TURN", p4);
    assert Turn(g, p, phase, callAmount, minRaise) == m;
    RoundTrip(m, keys);
    IntParamReadBack(m, "CALL", callAmount);
    IntParamReadBack(m, "MINRAISE", minRaise);
  }

  /** CREATE reads back as sent, with the ante and the bet as ints. */
  lemma CreateReadBack(ante: int, bet: int, keys: seq<string>)
    requires IsInt32(ante) && IsInt32(bet)
    requires IterationOrder(keys, Create(ante, bet).params)
    requires |ProtocolString(Create(ante, bet), keys)| <= MaxLineLength
    ensures ParseLine(Some(ProtocolString(Create(ante, bet), keys))) == Ok(Create(ante, bet))
    ensures GetIntParam(Create(ante, bet), "ANTE") == Ok(ante) && GetIntParam(Create(ante, bet), "BET") == Ok(bet)
  {
    var a, b := IntToString(ante), IntToString(bet);
    var p0: map<string, string> := map[];
    var p1 := p0["ANTE" := a];
    var p2 := p1["BET" := b];
    var p3 := p2["LIMIT" := "FIXED"];
    Names();
    IntTextIsValue(ante);
    IntTextIsValue(bet);
    NameIsToken("CREATE");
    NameIsToken("FIXED");
    PlainAdd(p0, "ANTE", a);
    PlainAdd(p1, "BET", b);
    PlainAdd(p2, "LIMIT", "FIXED");
    var m := Message(None, None, "CREATE", p3);
    assert Create(ante, bet) == m;
    RoundTrip(m, keys);
    IntParamReadBack(m, "ANTE", ante);
    IntParamReadBack(m, "BET", bet);
  }

  /** BET reads back as sent, with both header ids and the amount as an int. */
  lemma BetReadBack(g: string, p: string, amount: int, keys: seq<string>)
    requires IsToken(g) && g != "-" && IsToken(p) && p != "-" && IsInt32(amount)
    requires IterationOrder(keys, Bet(g, p, amount).params)
    requires |ProtocolString(Bet(g, p, amount), keys)| <= MaxLineLength
    ensures ParseLine(Some(ProtocolString(Bet(g, p, amount), keys))) == Ok(Bet(g, p, amount))
    ensures GetIntParam(Bet(g, p, amount), "AMOUNT") == Ok(amount)
  {
    var m := Bet(g, p, amount);
    Names();
    IntTextIsValue(amount);
    NameIsToken("BET");
    PlainAdd(map[], "AMOUNT", IntToString(amount));
    RoundTrip(m, keys);
    IntParamReadBack(m, "AMOUNT", amount);
  }
}

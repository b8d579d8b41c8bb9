/** The server's side of one connection: the read buffer cut into lines, the
    write queue, and which handler a line reaches or which error it draws. */
module Server {
  import opened Wrappers
  import opened JavaStrings
  import opened Decimal
  import opened Ids
  import opened Protocol
  import opened ProtocolLaws
  import Messages

  // ---------------------------------------------------------------- line framing

  /** The lines processMessages hands on from buffered text: every segment that
      a '\n' ends, trimmed, leaving out those that trim to nothing. */
  function Lines(s: string): seq<string>
    decreases |s|
  {
    var nl := IndexOf(s, '\n', 0);
    if nl < 0 then []
    else
      var message := Trim(s[..nl]);
      (if message == [] then [] else [message]) + Lines(s[nl + 1..])
  }

  /** Lines as processMessage receives them: non-empty and already trimmed. */
  predicate AllTrimmed(lines: seq<string>)
  {
    forall i :: 0 <= i < |lines| ==> lines[i] != [] && Trim(lines[i]) == lines[i]
  }

  /** Every line handed on is non-empty and already trimmed. */
  lemma {:induction false} LinesAreTrimmed(s: string)
    ensures AllTrimmed(Lines(s))
    decreases |s|
  {
    var nl := IndexOf(s, '\n', 0);
    if nl >= 0 {
      var message := Trim(s[..nl]);
      var t := s[nl + 1..];
      assert |t| < |s|;
      LinesAreTrimmed(t);
      assert AllTrimmed(if message == [] then [] else [message]);
    }
  }

  /** The text processMessages keeps for the next read: what follows the last '\n'. */
  function Pending(s: string): (r: string)
    decreases |s|
  {
    var nl := IndexOf(s, '\n', 0);
    if nl < 0 then s else Pending(s[nl + 1..])
  }

  /** The buffer keeps exactly the text after the last '\n' (all of it when there is none). */
  lemma {:induction false} PendingIsTail(s: string)
    ensures |Pending(s)| <= |s| && Pending(s) == s[|s| - |Pending(s)|..]
    ensures forall i :: 0 <= i < |Pending(s)| ==> Pending(s)[i] != '\n'
    ensures |Pending(s)| < |s| ==> s[|s| - |Pending(s)| - 1] == '\n'
    decreases |s|
  {
    var nl := IndexOf(s, '\n', 0);
    if nl < 0 {
      assert Pending(s) == s;
    } else {
      var t := s[nl + 1..];
      assert |t| < |s|;
      assert Pending(s) == Pending(t);
      PendingIsTail(t);
      var r := Pending(t);
      assert s[|s| - |r|..] == t[|t| - |r|..];
      if |r| == |t| {
        assert s[|s| - |r| - 1] == s[nl];
      } else {
        assert s[|s| - |r| - 1] == t[|t| - |r| - 1];
      }
    }
  }

  /** One round of processMessages' loop: the first line is handed on (unless
      it trims to nothing) and the text after its '\n' is processed next. */
  lemma LinesStep(s: string, nl: int)
    requires nl == IndexOf(s, '\n', 0) && nl >= 0
    ensures var message := Trim(s[..nl]);
      Lines(s) == (if message == [] then [] else [message]) + Lines(s[nl + 1..])
      && Pending(s) == Pending(s[nl + 1..])
  {
  }

  /** Text without a '\n' yields no line and stays buffered whole. */
  lemma NoNewline(s: string)
    requires forall i :: 0 <= i < |s| ==> s[i] != '\n'
    ensures Lines(s) == [] && Pending(s) == s
  {
    assert IndexOf(s, '\n', 0) < 0;
  }

  /** Appending text after the first '\n' leaves the line it ends alone. */
  lemma FirstNewlineOfAppend(a: string, b: string, nl: int)
    requires nl == IndexOf(a, '\n', 0) && nl >= 0
    ensures IndexOf(a + b, '\n', 0) == nl
    ensures (a + b)[..nl] == a[..nl] && (a + b)[nl + 1..] == a[nl + 1..] + b
  {
    FirstIndex(a + b, '\n', nl);
  }

  lemma Associative<T>(x: seq<T>, y: seq<T>, z: seq<T>)
    ensures x + (y + z) == (x + y) + z
  {
  }

  /** Receiving a and then b hands on the same lines as receiving a + b at
      once: a line split across reads is handed on once, when its '\n' arrives. */
  lemma {:induction false} ChunksCompose(a: string, b: string)
    ensures Lines(a + b) == Lines(a) + Lines(Pending(a) + b)
    decreases |a|
  {
    var nl := IndexOf(a, '\n', 0);
    if nl >= 0 {
      var rest := a[nl + 1..];
      assert |rest| < |a|;
      var message := Trim(a[..nl]);
      var head := if message == [] then [] else [message];
      ComposeStep(a, b, nl);
      ChunksCompose(rest, b);
      var tail := Lines(Pending(rest) + b);
      Associative(head, Lines(rest), tail);
    } else {
      NoNewline(a);
    }
  }

  /** The line the first '\n' of a ends is handed on before anything b adds. */
  lemma ComposeStep(a: string, b: string, nl: int)
    requires nl == IndexOf(a, '\n', 0) && nl >= 0
    ensures var message := Trim(a[..nl]);
      var head := if message == [] then [] else [message];
      Lines(a + b) == head + Lines(a[nl + 1..] + b) && Lines(a) == head + Lines(a[nl + 1..])
      && Pending(a) == Pending(a[nl + 1..])
  {
    FirstNewlineOfAppend(a, b, nl);
    LinesStep(a + b, nl);
    LinesStep(a, nl);
  }

  /** ... and keeps the same text for the next read. */
  lemma {:induction false} ChunksKeep(a: string, b: string)
    ensures Pending(a + b) == Pending(Pending(a) + b)
    decreases |a|
  {
    var nl := IndexOf(a, '\n', 0);
    if nl >= 0 {
      var rest := a[nl + 1..];
      assert |rest| < |a|;
      FirstNewlineOfAppend(a, b, nl);
      LinesStep(a + b, nl);
      LinesStep(a, nl);
      ChunksKeep(rest, b);
    } else {
      NoNewline(a);
    }
  }

  /** send(): a message gets a trailing '\n' unless it already ends with one. */
  function Terminated(message: string): (r: string)
    ensures r != [] && r[|r| - 1] == '\n'
    ensures message != [] && message[|message| - 1] == '\n' ==> r == message
    ensures (message == [] || message[|message| - 1] != '\n') ==> r == message + "\n"
  {
    if message != [] && message[|message| - 1] == '\n' then message else message + "\n"
  }

  /** The text a queue of messages puts on the wire. */
  function Wire(queue: seq<string>): string
  {
    if queue == [] then [] else Terminated(queue[0]) + Wire(queue[1..])
  }

  /** A message of one line, already trimmed, as toProtocolString writes it. */
  predicate IsOneLine(message: string)
  {
    message != [] && Trim(message) == message && forall i :: 0 <= i < |message| ==> message[i] != '\n'
  }

  /** What send queues, processMessages on the other end hands on line by line
      in the same order, with nothing left over. */
  lemma {:induction false} WireReadBack(queue: seq<string>)
    requires forall i :: 0 <= i < |queue| ==> IsOneLine(queue[i])
    ensures Lines(Wire(queue)) == queue && Pending(Wire(queue)) == []
  {
    if queue != [] {
      var m := queue[0];
      var rest := Wire(queue[1..]);
      assert Terminated(m) == m + "\n";
      assert Wire(queue) == m + "\n" + rest;
      FirstIndex(m + "\n" + rest, '\n', |m|);
      assert (m + "\n" + rest)[..|m|] == m;
      assert (m + "\n" + rest)[|m| + 1..] == rest;
      WireReadBack(queue[1..]);
    }
  }

  // ---------------------------------------------------------------- card positions

  /** The pieces between separators, the last one included (may be empty). */
  function SplitAll(s: string, sep: char): (r: seq<string>)
    decreases |s|
    ensures r != []
  {
    var i := IndexOf(s, sep, 0);
    if i < 0 then [s] else [s[..i]] + SplitAll(s[i + 1..], sep)
  }

  /** Trailing empty pieces removed. */
  function DropTrailingEmpty(parts: seq<string>): (r: seq<string>)
    ensures r <= parts && (r != [] ==> r[|r| - 1] != [])
    ensures forall i :: |r| <= i < |parts| ==> parts[i] == []
  {
    if parts != [] && parts[|parts| - 1] == [] then DropTrailingEmpty(parts[..|parts| - 1]) else parts
  }

  /** String.split on a one-character pattern: the string itself when the
      separator does not occur; otherwise the pieces without trailing empty ones. */
  function Split(s: string, sep: char): seq<string>
  {
    if IndexOf(s, sep, 0) < 0 then [s] else DropTrailingEmpty(SplitAll(s, sep))
  }

  /** equalsIgnoreCase("none"). */
  predicate IsNoneWord(s: string)
  {
    |s| == 4 && s[0] in "nN" && s[1] in "oO" && s[2] in "nN" && s[3] in "eE"
  }

  /** Integer.parseInt of each trimmed piece, in order; None when one of them
      is not an int (the NumberFormatException). */
  function ParseEach(pieces: seq<string>): (r: Option<seq<int>>)
    ensures r.Some? <==> forall i :: 0 <= i < |pieces| ==> ParseInt(Trim(pieces[i])).Some?
    ensures r.Some? ==> |r.value| == |pieces|
    ensures r.Some? ==> forall i :: 0 <= i < |pieces| ==> Some(r.value[i]) == ParseInt(Trim(pieces[i]))
  {
    if pieces == [] then Some([])
    else
      var head := ParseInt(Trim(pieces[0]));
      var tail := ParseEach(pieces[1..]);
      if head.None? || tail.None? then None else Some([head.value] + tail.value)
  }

  /** parseCardIndices: null, "" and "none" in any case name no card; otherwise
      the comma-separated positions, each trimmed and parsed. */
  function ParseCardIndices(cards: Option<string>): Option<seq<int>>
  {
    if cards.None? || cards.value == [] || IsNoneWord(cards.value) then Some([])
    else ParseEach(Split(cards.value, ','))
  }

  /** The decimal texts of a list of positions. */
  function Texts(ns: seq<int>): (r: seq<string>)
    ensures |r| == |ns| && forall i :: 0 <= i < |ns| ==> r[i] == IntToString(ns[i])
  {
    if ns == [] then [] else [IntToString(ns[0])] + Texts(ns[1..])
  }

  /** Pieces without the separator, joined with it, split back into themselves. */
  lemma {:induction false} SplitJoin(parts: seq<string>, sep: char)
    requires parts != []
    requires forall i, j :: 0 <= i < |parts| && 0 <= j < |parts[i]| ==> parts[i][j] != sep
    ensures SplitAll(Join(parts, [sep]), sep) == parts
  {
    if |parts| == 1 {
      assert IndexOf(parts[0], sep, 0) < 0;
    } else {
      var p := parts[0];
      var rest := Join(parts[1..], [sep]);
      assert Join(parts, [sep]) == p + [sep] + rest;
      FirstIndex(p + [sep] + rest, sep, |p|);
      assert (p + [sep] + rest)[..|p|] == p;
      assert (p + [sep] + rest)[|p| + 1..] == rest;
      SplitJoin(parts[1..], sep);
    }
  }

  /** A joined list of positions is a non-empty parameter value that starts
      with a digit or '-', holds no ',' inside a piece and no '='. */
  lemma {:induction false} JoinedTextIsValue(ns: seq<int>)
    requires ns != []
    ensures var t := Join(Texts(ns), ",");
      Messages.IsValue(t) && (IsDigit(t[0]) || t[0] == '-')
  {
    var p := IntToString(ns[0]);
    Messages.IntTextIsValue(ns[0]);
    IntTextStart(ns[0]);
    if |ns| > 1 {
      JoinedTextIsValue(ns[1..]);
      var rest := Join(Texts(ns[1..]), ",");
      assert Texts(ns)[1..] == Texts(ns[1..]);
      var t := p + "," + rest;
      assert Join(Texts(ns), ",") == t;
      assert t[|t| - 1] == rest[|rest| - 1];
      forall i | 0 <= i < |t| ensures t[i] != '=' {
        if i > |p| {
          assert t[i] == rest[i - |p| - 1];
        }
      }
    }
  }

  /** The decimal text of an int starts with a digit or a minus sign and holds no ','. */
  lemma IntTextStart(n: int)
    ensures var s := IntToString(n);
      s != [] && (IsDigit(s[0]) || s[0] == '-') && forall i :: 0 <= i < |s| ==> s[i] != ','
  {
    var s := IntToString(n);
    var d := NatDigits(if n < 0 then -n else n);
    forall i | 0 <= i < |s| ensures s[i] != ',' {
      if n < 0 && i > 0 {
        assert s[i] == d[i - 1] && IsDigit(d[i - 1]);
      } else if n >= 0 {
        assert IsDigit(d[i]);
      }
    }
    if n >= 0 {
      assert IsDigit(d[0]);
    }
  }

  /** Text that starts with a digit or a minus sign is not "none" in any case. */
  lemma NotNoneWord(t: string)
    requires t != [] && (IsDigit(t[0]) || t[0] == '-')
    ensures !IsNoneWord(t)
  {
  }

  /** Joined positions split back into their decimal texts. */
  lemma SplitJoined(ns: seq<int>)
    requires ns != []
    ensures Split(Join(Texts(ns), ","), ',') == Texts(ns)
  {
    var parts := Texts(ns);
    var t := Join(parts, ",");
    forall i, j | 0 <= i < |parts| && 0 <= j < |parts[i]| ensures parts[i][j] != ',' {
      IntTextStart(ns[i]);
    }
    SplitJoin(parts, ',');
    if IndexOf(t, ',', 0) >= 0 {
      IntTextStart(ns[|ns| - 1]);
      assert DropTrailingEmpty(parts) == parts;
    } else {
      assert SplitAll(t, ',') == [t];
    }
  }

  /** The decimal texts of ints parse back into them. */
  lemma ParseTexts(ns: seq<int>)
    requires forall i :: 0 <= i < |ns| ==> IsInt32(ns[i])
    ensures ParseEach(Texts(ns)) == Some(ns)
  {
    var parts := Texts(ns);
    forall i | 0 <= i < |parts| ensures ParseInt(Trim(parts[i])) == Some(ns[i]) {
      Messages.IntTextIsValue(ns[i]);
      IntRoundTrip(ns[i]);
    }
    var r := ParseEach(parts);
    assert r.value == ns;
  }

  /** Positions joined with ',' are parsed back into the same positions. */
  lemma CardIndicesRoundTrip(ns: seq<int>)
    requires ns != [] && forall i :: 0 <= i < |ns| ==> IsInt32(ns[i])
    ensures ParseCardIndices(Some(Join(Texts(ns), ","))) == Some(ns)
  {
    var t := Join(Texts(ns), ",");
    JoinedTextIsValue(ns);
    NotNoneWord(t);
    SplitJoined(ns);
    ParseTexts(ns);
  }

  // ---------------------------------------------------------------- dispatch

  /** What a handler was asked to do. The handlers' effects on the games are
      not part of this model; BET and DRAW carry what they decoded first. */
  datatype Request =
    | Handle(action: string)     // HELLO, CREATE, JOIN, LEAVE, START, CHECK, CALL or FOLD
    | Raise(amount: int)         // BET, with its AMOUNT
    | Exchange(indices: seq<int>) // DRAW, with its CARDS positions

  /** An ERR reply; a reason of None stands for an exception's own message. */
  datatype Refusal = Refusal(code: string, reason: Option<string>)

  /** The actions processMessage hands to a handler. */
  const Actions: set<string> := {"HELLO", "CREATE", "JOIN", "LEAVE", "START", "CHECK", "CALL", "BET", "FOLD", "DRAW"}

  /** The actions refused unless the connection has both a game and a player. */
  const SeatedActions: set<string> := {"LEAVE", "CHECK", "CALL", "BET", "FOLD", "DRAW"}

  const NotInGame := Refusal("NOT_IN_GAME", Some("Not in a game"))

  function Lookup(params: map<string, string>, key: string): Option<string>
  {
    if key in params then Some(params[key]) else None
  }

  /** Integer.parseInt of a parameter that may be missing (null throws too). */
  function IntOf(value: Option<string>): (r: Option<int>)
    ensures r.Some? ==> value.Some? && ParseInt(value.value) == r
  {
    if value.None? then None else ParseInt(value.value)
  }

  /** The handler a parsed message reaches, or the error sent back instead,
      given the game and the player this connection has joined. */
  function Dispatch(m: Message, gameId: Option<GameId>, playerId: Option<PlayerId>): Result<Request, Refusal>
  {
    var a := m.action;
    if a !in Actions then Err(Refusal("UNKNOWN_ACTION", Some("Unknown action: " + a)))
    else if a in SeatedActions && (gameId.None? || playerId.None?) then Err(NotInGame)
    else if a == "START" && gameId.None? then Err(NotInGame)
    else if a == "BET" then
      var amount := IntOf(Lookup(m.params, "AMOUNT"));
      if amount.None? then Err(Refusal("ACTION_FAILED", None)) else Ok(Raise(amount.value))
    else if a == "DRAW" then
      var indices := ParseCardIndices(Lookup(m.params, "CARDS"));
      if indices.None? then Err(Refusal("ACTION_FAILED", None)) else Ok(Exchange(indices.value))
    else Ok(Handle(a))
  }

  /** processMessage: a line that does not parse draws INVALID_FORMAT. */
  function Route(line: string, gameId: Option<GameId>, playerId: Option<PlayerId>): Result<Request, Refusal>
  {
    match ParseLine(Some(line))
    case Err(_) => Err(Refusal("INVALID_FORMAT", Some("Invalid message format")))
    case Ok(m) => Dispatch(m, gameId, playerId)
  }

  /** The errors processMessage and the guards send, each exactly when its
      case occurs; a message that parses is never refused as malformed. */
  lemma DispatchRefusals(m: Message, gameId: Option<GameId>, playerId: Option<PlayerId>)
    ensures var r := Dispatch(m, gameId, playerId);
      (r.Err? && r.error.code == "UNKNOWN_ACTION" <==> m.action !in Actions)
      && (r.Err? && r.error.code == "NOT_IN_GAME" <==>
            (m.action in SeatedActions && (gameId.None? || playerId.None?))
            || (m.action == "START" && gameId.None?))
      && (r.Err? && r.error.code == "ACTION_FAILED" ==> m.action in {"BET", "DRAW"})
      && !(r.Err? && r.error.code == "INVALID_FORMAT")
  {
  }

  /** A line that does not parse, and only such a line, draws INVALID_FORMAT. */
  lemma RouteRefusals(line: string, gameId: Option<GameId>, playerId: Option<PlayerId>)
    ensures var r := Route(line, gameId, playerId);
      r.Err? && r.error.code == "INVALID_FORMAT" <==> ParseLine(Some(line)).Err?
  {
    var p := ParseLine(Some(line));
    if p.Ok? {
      DispatchRefusals(p.value, gameId, playerId);
    }
  }

  /** A BET the client library writes reaches the bet handler with its amount
      when the connection is seated, and is refused NOT_IN_GAME otherwise. */
  lemma BetRouted(g: string, p: string, amount: int, keys: seq<string>, gameId: Option<GameId>, playerId: Option<PlayerId>)
    requires IsToken(g) && g != "-" && IsToken(p) && p != "-" && IsInt32(amount)
    requires IterationOrder(keys, Messages.Bet(g, p, amount).params)
    requires |ProtocolString(Messages.Bet(g, p, amount), keys)| <= MaxLineLength
    ensures Route(ProtocolString(Messages.Bet(g, p, amount), keys), gameId, playerId)
      == if gameId.Some? && playerId.Some? then Ok(Raise(amount)) else Err(NotInGame)
  {
    Messages.BetReadBack(g, p, amount, keys);
    IntRoundTrip(amount);
    BetDispatch(Messages.Bet(g, p, amount), amount, gameId, playerId);
  }

  /** The bet handler gets the amount a BET carries once the guard lets it through. */
  lemma BetDispatch(m: Message, amount: int, gameId: Option<GameId>, playerId: Option<PlayerId>)
    requires m.action == "BET" && "AMOUNT" in m.params && ParseInt(m.params["AMOUNT"]) == Some(amount)
    ensures Dispatch(m, gameId, playerId)
      == if gameId.Some? && playerId.Some? then Ok(Raise(amount)) else Err(NotInGame)
  {
  }

  /** A DRAW naming positions joined with ',' reaches the draw handler with those positions. */
  lemma DrawRouted(g: string, p: string, ns: seq<int>, keys: seq<string>, gameId: GameId, playerId: PlayerId)
    requires IsToken(g) && g != "-" && IsToken(p) && p != "-"
    requires ns != [] && forall i :: 0 <= i < |ns| ==> IsInt32(ns[i])
    requires IterationOrder(keys, Messages.Draw(g, p, Join(Texts(ns), ",")).params)
    requires |ProtocolString(Messages.Draw(g, p, Join(Texts(ns), ",")), keys)| <= MaxLineLength
    ensures Route(ProtocolString(Messages.Draw(g, p, Join(Texts(ns), ",")), keys), Some(gameId), Some(playerId))
      == Ok(Exchange(ns))
  {
    var m := Messages.Draw(g, p, Join(Texts(ns), ","));
    JoinedTextIsValue(ns);
    Messages.Names();
    assert Messages.IsName("DRAW") && Messages.IsName("CARDS");
    Messages.NameIsToken("DRAW");
    Messages.PlainAdd(map[], "CARDS", Join(Texts(ns), ","));
    RoundTrip(m, keys);
    CardIndicesRoundTrip(ns);
  }

  /** A request without parameters made in a game reads back as written. */
  lemma InGameReadBack(g: string, p: string, action: string)
    requires IsToken(g) && g != "-" && IsToken(p) && p != "-" && Messages.IsName(action)
    requires |ProtocolString(Messages.InGame(g, p, action), [])| <= MaxLineLength
    ensures ParseLine(Some(ProtocolString(Messages.InGame(g, p, action), []))) == Ok(Messages.InGame(g, p, action))
  {
    Messages.NameIsToken(action);
    RoundTrip(Messages.InGame(g, p, action), []);
  }

  /** A line that parses to an action no handler serves draws UNKNOWN_ACTION. */
  lemma UnknownRouted(line: string, m: Message, gameId: Option<GameId>, playerId: Option<PlayerId>)
    requires ParseLine(Some(line)) == Ok(m) && m.action !in Actions
    ensures Route(line, gameId, playerId) == Err(Refusal("UNKNOWN_ACTION", Some("Unknown action: " + m.action)))
  {
  }

  /** STATUS and QUIT, which the client library can build, are not served: the
      handler answers UNKNOWN_ACTION whatever the connection's state. */
  lemma StatusAndQuitUnknown(g: string, p: string, gameId: Option<GameId>, playerId: Option<PlayerId>)
    requires IsToken(g) && g != "-" && IsToken(p) && p != "-"
    requires |ProtocolString(Messages.Status(g, p), [])| <= MaxLineLength
    requires |ProtocolString(Messages.Quit(g, p), [])| <= MaxLineLength
    ensures Route(ProtocolString(Messages.Status(g, p), []), gameId, playerId)
      == Err(Refusal("UNKNOWN_ACTION", Some("Unknown action: " + "STATUS")))
    ensures Route(ProtocolString(Messages.Quit(g, p), []), gameId, playerId)
      == Err(Refusal("UNKNOWN_ACTION", Some("Unknown action: " + "QUIT")))
  {
    Messages.Names();
    assert Messages.IsName("STATUS") && Messages.IsName("QUIT");
    InGameReadBack(g, p, "STATUS");
    InGameReadBack(g, p, "QUIT");
    NotServed();
    UnknownRouted(ProtocolString(Messages.Status(g, p), []), Messages.Status(g, p), gameId, playerId);
    UnknownRouted(ProtocolString(Messages.Quit(g, p), []), Messages.Quit(g, p), gameId, playerId);
  }

  lemma NotServed()
    ensures "STATUS" !in Actions && "QUIT" !in Actions
  {
  }

  // ---------------------------------------------------------------- the connection

  /** The order toProtocolString writes an error's parameters in: the
      iteration order of a HashMap holding CODE and REASON. */
  const ErrorKeys: seq<string> := ["CODE", "REASON"]

  /** CODE, then REASON, is one iteration order of an error's two parameters. */
  lemma ErrorKeysOrder(code: string, reason: string)
    ensures IterationOrder(ErrorKeys, Messages.ErrorReply(code, reason).params)
  {
    assert Messages.ErrorReply(code, reason).params.Keys == {"CODE", "REASON"};
  }

  /** The line sendError queues: ERR with CODE and REASON, ended by '\n'. */
  function ErrorLine(code: string, reason: string): string
  {
    ErrorKeysOrder(code, reason);
    Terminated(ProtocolString(Messages.ErrorReply(code, reason), ErrorKeys))
  }

  /** The ERR line processMessage queues for a line that no handler receives
      (INVALID_FORMAT, UNKNOWN_ACTION, NOT_IN_GAME). An ACTION_FAILED refusal,
      whose reason is the text of a Java exception, queues nothing here. */
  function RefusalReply(line: string, gameId: Option<GameId>, playerId: Option<PlayerId>): (r: seq<string>)
    ensures |r| <= 1
    ensures r != [] ==> Route(line, gameId, playerId).Err?
  {
    match Route(line, gameId, playerId)
    case Err(Refusal(code, Some(reason))) => [ErrorLine(code, reason)]
    case _ => []
  }

  /** The ERR lines queued for a run of lines, in the order of the lines. */
  function RefusalReplies(lines: seq<string>, gameId: Option<GameId>, playerId: Option<PlayerId>): (r: seq<string>)
    ensures |r| <= |lines|
  {
    if lines == [] then [] else RefusalReply(lines[0], gameId, playerId) + RefusalReplies(lines[1..], gameId, playerId)
  }

  /** Replies to consecutive runs of lines follow one another. */
  lemma {:induction false} RefusalRepliesAppend(a: seq<string>, b: seq<string>, gameId: Option<GameId>, playerId: Option<PlayerId>)
    ensures RefusalReplies(a + b, gameId, playerId) == RefusalReplies(a, gameId, playerId) + RefusalReplies(b, gameId, playerId)
  {
    if a == [] {
      assert a + b == b;
    } else {
      assert (a + b)[0] == a[0] && (a + b)[1..] == a[1..] + b;
      RefusalRepliesAppend(a[1..], b, gameId, playerId);
      Associative(RefusalReply(a[0], gameId, playerId), RefusalReplies(a[1..], gameId, playerId), RefusalReplies(b, gameId, playerId));
    }
  }

  /** One line's reply, then the replies to the lines after it. */
  lemma ReplyStep(queue: seq<string>, line: string, later: seq<string>, gameId: Option<GameId>, playerId: Option<PlayerId>)
    ensures queue + RefusalReplies([line] + later, gameId, playerId)
      == (queue + RefusalReply(line, gameId, playerId)) + RefusalReplies(later, gameId, playerId)
  {
    assert ([line] + later)[0] == line && ([line] + later)[1..] == later;
    Associative(queue, RefusalReply(line, gameId, playerId), RefusalReplies(later, gameId, playerId));
  }

  /** The reply to a line, read off the refusal it draws. */
  lemma ReplyOfRefusal(line: string, gameId: Option<GameId>, playerId: Option<PlayerId>, routed: Result<Request, Refusal>)
    requires routed == Route(line, gameId, playerId)
    ensures routed.Err? && routed.error.reason.Some? ==>
      RefusalReply(line, gameId, playerId) == [ErrorLine(routed.error.code, routed.error.reason.value)]
    ensures !(routed.Err? && routed.error.reason.Some?) ==> RefusalReply(line, gameId, playerId) == []
  {
  }

  /** A line naming an action no handler serves is answered by one ERR line
      with code UNKNOWN_ACTION and the action in the reason. */
  lemma UnknownActionReplied(line: string, m: Message, gameId: Option<GameId>, playerId: Option<PlayerId>)
    requires ParseLine(Some(line)) == Ok(m) && m.action !in Actions
    ensures RefusalReply(line, gameId, playerId)
      == [ErrorLine("UNKNOWN_ACTION", "Unknown action: " + m.action)]
  {
    UnknownRouted(line, m, gameId, playerId);
    ReplyOfRefusal(line, gameId, playerId, Route(line, gameId, playerId));
  }

  /** A line that does not parse is answered by one INVALID_FORMAT line. */
  lemma MalformedReplied(line: string, gameId: Option<GameId>, playerId: Option<PlayerId>)
    requires ParseLine(Some(line)).Err?
    ensures RefusalReply(line, gameId, playerId)
      == [ErrorLine("INVALID_FORMAT", "Invalid message format")]
  {
  }

  class ClientHandler {
    /** messageBuilder: text received and not yet ended by a '\n'. */
    var buffer: string
    /** The lines handed to processMessage so far, oldest first. */
    var dispatched: seq<string>
    /** Messages waiting to be written to the channel, oldest first. */
    var writeQueue: seq<string>
    var currentGameId: Option<GameId>
    var playerId: Option<PlayerId>

    constructor ()
      ensures buffer == [] && dispatched == [] && writeQueue == []
      ensures currentGameId.None? && playerId.None?
    {
      buffer := [];
      dispatched := [];
      writeQueue := [];
      currentGameId := None;
      playerId := None;
    }

    /** processMessages: hands every complete line of the buffer to
        processMessage, which queues an ERR line for each one it refuses, and
        keeps the rest of the buffer. */
    method ProcessMessages()
      modifies this
      ensures dispatched == old(dispatched) + Lines(old(buffer))
      ensures buffer == Pending(old(buffer))
      ensures writeQueue == old(writeQueue) + RefusalReplies(Lines(old(buffer)), currentGameId, playerId)
      ensures currentGameId == old(currentGameId) && playerId == old(playerId)
    {
      var buffered := buffer;
      while IndexOf(buffered, '\n', 0) != -1
        invariant dispatched + Lines(buffered) == old(dispatched) + Lines(old(buffer))
        invariant writeQueue + RefusalReplies(Lines(buffered), currentGameId, playerId)
          == old(writeQueue) + RefusalReplies(Lines(old(buffer)), currentGameId, playerId)
        invariant Pending(buffered) == Pending(old(buffer))
        invariant buffer == old(buffer)
        invariant currentGameId == old(currentGameId) && playerId == old(playerId)
        decreases |buffered|
      {
        var newlineIndex := IndexOf(buffered, '\n', 0);
        LinesStep(buffered, newlineIndex);
        var message := Trim(buffered[..newlineIndex]);
        var rest := buffered[newlineIndex + 1..];
        if message != [] {
          Associative(dispatched, [message], Lines(rest));
          ReplyStep(writeQueue, message, Lines(rest), currentGameId, playerId);
          ProcessMessage(message);
        } else {
          assert Lines(buffered) == Lines(rest) by {
            assert [] + Lines(rest) == Lines(rest);
          }
        }
        buffered := rest;
      }
      assert Lines(buffered) == [] && Pending(buffered) == buffered;
      assert writeQueue + RefusalReplies([], currentGameId, playerId) == writeQueue;
      buffer := buffered;
    }

    /** processMessage: the line is routed; a refusal that carries its reason
        is answered with an ERR line, and any other line goes to its handler. */
    method ProcessMessage(line: string)
      modifies this
      ensures dispatched == old(dispatched) + [line]
      ensures writeQueue == old(writeQueue) + RefusalReply(line, currentGameId, playerId)
      ensures buffer == old(buffer) && currentGameId == old(currentGameId) && playerId == old(playerId)
    {
      dispatched := dispatched + [line];
      var routed := Route(line, currentGameId, playerId);
      ReplyOfRefusal(line, currentGameId, playerId, routed);
      if routed.Err? && routed.error.reason.Some? {
        SendError(routed.error.code, routed.error.reason.value);
      }
    }

    /** handleRead after a successful read: the chunk is appended and processed. */
    method Receive(chunk: string)
      modifies this
      ensures dispatched == old(dispatched) + Lines(old(buffer) + chunk)
      ensures buffer == Pending(old(buffer) + chunk)
      ensures writeQueue == old(writeQueue) + RefusalReplies(Lines(old(buffer) + chunk), currentGameId, playerId)
      ensures currentGameId == old(currentGameId) && playerId == old(playerId)
    {
      buffer := buffer + chunk;
      ProcessMessages();
    }

    /** send: the message, ended by a '\n', joins the tail of the write queue. */
    method Send(message: string)
      modifies this
      ensures writeQueue == old(writeQueue) + [Terminated(message)]
      ensures buffer == old(buffer) && dispatched == old(dispatched)
      ensures currentGameId == old(currentGameId) && playerId == old(playerId)
    {
      var line := message;
      if !(|line| > 0 && line[|line| - 1] == '\n') {
        line := line + "\n";
      }
      writeQueue := writeQueue + [line];
    }

    /** sendError: an ERR reply with the code and the reason. */
    method SendError(code: string, reason: string)
      modifies this
      ensures writeQueue == old(writeQueue) + [ErrorLine(code, reason)]
      ensures buffer == old(buffer) && dispatched == old(dispatched)
      ensures currentGameId == old(currentGameId) && playerId == old(playerId)
    {
      var text := ToProtocolString(Messages.ErrorReply(code, reason), ErrorKeys);
      Send(text);
    }
  }

  /** Two reads in a row leave the connection as one read of both chunks would. */
  lemma ReceiveTwice(buffer: string, a: string, b: string)
    ensures Lines(buffer + a) + Lines(Pending(buffer + a) + b) == Lines(buffer + a + b)
    ensures Pending(Pending(buffer + a) + b) == Pending(buffer + a + b)
  {
    ChunksCompose(buffer + a, b);
    ChunksKeep(buffer + a, b);
  }
}

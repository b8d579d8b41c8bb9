/** The line protocol: GAME_ID PLAYER_ID ACTION followed by KEY=VALUE
    parameters whose values may hold spaces. Message.parse, toProtocolString
    and the parameter accessors. */
module Protocol {
  import opened Wrappers
  import opened JavaStrings
  import opened Decimal

  /** The longest line parse accepts. */
  const MaxLineLength := 512

  /** The codes of the ProtocolExceptions the accessors and the parser throw. */
  datatype ProtocolCode = INVALID_FORMAT | MESSAGE_TOO_LONG | MISSING_PARAM | INVALID_PARAM

  /** A protocol message (Message and its ParsedMessage container): the header
      ids, None where Java holds null, the action and the parameters. */
  datatype Message = Message(gameId: Option<string>, playerId: Option<string>, action: string, params: map<string, string>)

  // ---------------------------------------------------------------- scanning the parameters

  /** The number of spaces `t` starts with. */
  function Spaces(t: string): (n: nat)
    ensures n <= |t|
  {
    if t != [] && t[0] == ' ' then 1 + Spaces(t[1..]) else 0
  }

  /** `t` starts with a run of non-space characters ending in '=': a KEY=. */
  predicate KeyAhead(t: string)
  {
    t != [] && (t[0] == '=' || (t[0] != ' ' && KeyAhead(t[1..])))
  }

  /** `t` starts with a space that, past any further spaces, is followed by a KEY=. */
  predicate ParamAt(t: string)
  {
    t != [] && t[0] == ' ' && KeyAhead(t[Spaces(t)..])
  }

  /** How far `t` runs before the first space that a KEY= follows. */
  function ValueSpan(t: string): (n: nat)
    ensures n <= |t|
  {
    if t == [] || ParamAt(t) then 0 else 1 + ValueSpan(t[1..])
  }

  /** The length of the value at the start of `u`, the text after a KEY=.
      parse starts looking for the next KEY= one character into the value
      (`skipFirst`); searching from the value's first character is the
      corrected rule. */
  function ValueLength(u: string, skipFirst: bool): (n: nat)
    ensures n <= |u|
  {
    if !skipFirst then ValueSpan(u)
    else if u == [] then 0
    else 1 + ValueSpan(u[1..])
  }

  /** parse's parameter loop over the text `t` still to scan, `acc` holding the
      parameters already read: the key runs from past the leading spaces to the
      next '=', the value, trimmed, up to where the next KEY= begins; a later
      key replaces an earlier one. */
  function ScanFrom(t: string, acc: map<string, string>, skipFirst: bool): map<string, string>
    decreases |t|
  {
    if t == [] then acc
    else
      var e := IndexOf(t, '=', 0);
      if e < 0 then acc
      else
        var key := t[Spaces(t[..e])..e];
        var u := t[e + 1..];
        var n := ValueLength(u, skipFirst);
        ScanFrom(u[n..], acc[key := Trim(u[..n])], skipFirst)
  }

  /** The parameters parse reads from the text after the action. */
  function ParamsOf(text: string): map<string, string>
  {
    ScanFrom(text, map[], true)
  }

  /** The parameters read with the corrected value rule. */
  function IntendedParamsOf(text: string): map<string, string>
  {
    ScanFrom(text, map[], false)
  }

  // ---------------------------------------------------------------- parse

  /** A header id as read: "-" stands for null. */
  function IdOf(token: string): Option<string>
  {
    if token == "-" then None else Some(token)
  }

  /** Message.parse: null or blank lines and lines over 512 characters are
      refused; the trimmed line must hold three space-separated tokens; what
      follows the action is scanned for parameters. */
  function ParseLine(line: Option<string>): Result<Message, ProtocolCode>
  {
    if line.None? || IsBlank(line.value) then Err(INVALID_FORMAT)
    else if |line.value| > MaxLineLength then Err(MESSAGE_TOO_LONG)
    else ParseTrimmed(Trim(line.value))
  }

  /** The trimmed line: the game id up to the first space. */
  function ParseTrimmed(trimmed: string): Result<Message, ProtocolCode>
  {
    var first := IndexOf(trimmed, ' ', 0);
    if first < 0 then Err(INVALID_FORMAT)
    else ParseAfterGame(IdOf(trimmed[..first]), Trim(trimmed[first + 1..]))
  }

  /** What follows the game id, trimmed: the player id up to the next space,
      then the action and the parameters. */
  function ParseAfterGame(gameId: Option<string>, rest: string): Result<Message, ProtocolCode>
  {
    var second := IndexOf(rest, ' ', 0);
    if second < 0 then Err(INVALID_FORMAT)
    else
      var tail := Trim(rest[second + 1..]);
      Ok(Message(gameId, IdOf(rest[..second]), ActionOf(tail), ParamsOf(ParamsTextOf(tail))))
  }

  /** The action: the text after the ids up to the next space. */
  function ActionOf(tail: string): string
  {
    var third := IndexOf(tail, ' ', 0);
    if third < 0 then tail else tail[..third]
  }

  /** The trimmed text after the action, "" when there is none. */
  function ParamsTextOf(tail: string): string
  {
    var third := IndexOf(tail, ' ', 0);
    if third < 0 then "" else Trim(tail[third + 1..])
  }

  // ---------------------------------------------------------------- scanning lemmas the loops use

  /** Spaces counts exactly the leading run of spaces. */
  lemma {:induction false} SpacesIs(t: string, k: nat)
    requires k <= |t| && (forall j :: 0 <= j < k ==> t[j] == ' ') && (k < |t| ==> t[k] != ' ')
    ensures Spaces(t) == k
  {
    if k > 0 {
      SpacesIs(t[1..], k - 1);
    }
  }

  /** indexOf from a position finds what indexOf finds in the suffix. */
  lemma IndexOfSuffix(s: string, c: char, from: nat)
    requires from <= |s|
    ensures var r := IndexOf(s[from..], c, 0);
      IndexOf(s, c, from) == if r < 0 then -1 else from + r
  {
    var r := IndexOf(s[from..], c, 0);
    var q := IndexOf(s, c, from);
    if q >= 0 {
      assert s[from..][q - from] == s[q];
    }
    if r >= 0 {
      assert s[from..][r] == s[from + r];
    }
  }

  /** A KEY= lies ahead exactly when there is an '=' and no space before it. */
  lemma {:induction false} KeyAheadIff(t: string)
    ensures KeyAhead(t) <==>
      IndexOf(t, '=', 0) >= 0 && forall k :: 0 <= k < IndexOf(t, '=', 0) ==> t[k] != ' '
  {
    if t != [] && t[0] != '=' {
      KeyAheadIff(t[1..]);
      IndexOfSuffix(t, '=', 1);
      assert IndexOf(t, '=', 0) == IndexOf(t, '=', 1);
      forall k | 1 <= k < |t| ensures t[k] == t[1..][k - 1] { }
    }
  }

  /** ValueSpan is the first place a KEY= follows a space. */
  lemma {:induction false} ValueSpanIs(t: string, k: nat)
    requires k <= |t| && (forall j :: 0 <= j < k ==> !ParamAt(t[j..])) && (k < |t| ==> ParamAt(t[k..]))
    ensures ValueSpan(t) == k
  {
    if k > 0 {
      assert !ParamAt(t[0..]) by { assert t[0..] == t; }
      forall j | 0 <= j < k - 1 ensures !ParamAt(t[1..][j..]) {
        assert t[1..][j..] == t[j + 1..];
      }
      assert k - 1 < |t| - 1 ==> t[1..][k - 1..] == t[k..];
      ValueSpanIs(t[1..], k - 1);
    } else {
      assert t != [] ==> t[0..] == t;
    }
  }

  // ---------------------------------------------------------------- the parse loops

  /** The inner scan of parse: from the space at i, skip the spaces, then look
      for an '=' with no space before it. */
  method ParamFollows(p: string, i: nat) returns (b: bool)
    requires i < |p| && p[i] == ' '
    ensures b == ParamAt(p[i..])
  {
    var nextSpace := SkipSpaces(p, i, |p|);
    assert p[i..|p|] == p[i..];
    assert p[i..][nextSpace - i..] == p[nextSpace..];
    if nextSpace >= |p| {
      return false;
    }
    var nextEquals := IndexOf(p, '=', nextSpace);
    IndexOfSuffix(p, '=', nextSpace);
    KeyAheadIff(p[nextSpace..]);
    if nextEquals <= 0 {
      return false;
    }
    b := NoSpaceIn(p, nextSpace, nextEquals);
    assert forall k :: 0 <= k < nextEquals - nextSpace ==> p[nextSpace..][k] == p[nextSpace + k];
  }

  /** The for loop over [from, to) that stops at the first space. */
  method NoSpaceIn(p: string, from: nat, to: nat) returns (b: bool)
    requires from <= to <= |p|
    ensures b <==> forall k :: from <= k < to ==> p[k] != ' '
  {
    for j := from to to
      invariant forall k :: from <= k < j ==> p[k] != ' '
    {
      if p[j] == ' ' {
        return false;
      }
    }
    return true;
  }

  /** Where the value that starts at valueStart ends: at the first space from
      valueStart + 1 on that a KEY= follows, or at the end of the text. */
  method FindValueEnd(p: string, valueStart: nat) returns (valueEnd: nat)
    requires valueStart <= |p|
    ensures valueEnd == valueStart + ValueLength(p[valueStart..], true)
  {
    var u := p[valueStart..];
    if valueStart == |p| {
      return |p|;
    }
    var t := u[1..];
    assert forall j :: 0 <= j <= |t| ==> t[j..] == p[valueStart + 1 + j..];
    var i := valueStart + 1;
    while i < |p|
      invariant valueStart + 1 <= i <= |p|
      invariant forall j :: 0 <= j < i - valueStart - 1 ==> !ParamAt(t[j..])
    {
      if p[i] == ' ' {
        var found := ParamFollows(p, i);
        if found {
          ValueSpanIs(t, i - valueStart - 1);
          return i;
        }
      }
      i := i + 1;
    }
    ValueSpanIs(t, |t|);
    valueEnd := |p|;
  }

  /** parse's parameter loop: each round reads one KEY=VALUE and moves past the
      value, so the position strictly advances. */
  method ScanParams(p: string) returns (params: map<string, string>)
    ensures params == ParamsOf(p)
  {
    params := map[];
    var pos := 0;
    assert p[0..] == p;
    while pos < |p|
      invariant 0 <= pos <= |p|
      invariant ScanFrom(p[pos..], params, true) == ParamsOf(p)
      decreases |p| - pos
    {
      var equalsPos := IndexOf(p, '=', pos);
      if equalsPos < 0 {
        IndexOfSuffix(p, '=', pos);
        break;
      }
      var keyStart := SkipSpaces(p, pos, equalsPos);
      var valueEnd := FindValueEnd(p, equalsPos + 1);
      ScanStep(p, pos, equalsPos, keyStart, valueEnd, params);
      params := params[p[keyStart..equalsPos] := Trim(p[equalsPos + 1..valueEnd])];
      pos := valueEnd;
    }
  }

  /** The first position from `from` on that is not a space, stopping at `to`. */
  method SkipSpaces(p: string, from: nat, to: nat) returns (k: nat)
    requires from <= to <= |p|
    ensures k == from + Spaces(p[from..to])
  {
    k := from;
    while k < to && p[k] == ' '
      invariant from <= k <= to
      invariant forall j :: from <= j < k ==> p[j] == ' '
    {
      k := k + 1;
    }
    SpacesIs(p[from..to], k - from);
  }

  /** One round of the parameter loop, in positions of the whole text. */
  lemma ScanStep(p: string, pos: nat, equalsPos: nat, keyStart: nat, valueEnd: nat, acc: map<string, string>)
    requires pos < |p| && equalsPos == IndexOf(p, '=', pos)
    requires keyStart == pos + Spaces(p[pos..equalsPos])
    requires valueEnd == equalsPos + 1 + ValueLength(p[equalsPos + 1..], true)
    ensures ScanFrom(p[pos..], acc, true)
      == ScanFrom(p[valueEnd..], acc[p[keyStart..equalsPos] := Trim(p[equalsPos + 1..valueEnd])], true)
  {
    var t := p[pos..];
    IndexOfSuffix(p, '=', pos);
    var e := equalsPos - pos;
    var n := valueEnd - equalsPos - 1;
    ScanRound(t, acc, true, e, n);
    SliceFacts(p, pos, equalsPos, keyStart, valueEnd);
  }

  /** One round of the scan: the key before the first '=', the value after it. */
  lemma ScanRound(t: string, acc: map<string, string>, skipFirst: bool, e: nat, n: nat)
    requires t != [] && e == IndexOf(t, '=', 0) && n == ValueLength(t[e + 1..], skipFirst)
    ensures ScanFrom(t, acc, skipFirst)
      == ScanFrom(t[e + 1..][n..], acc[t[Spaces(t[..e])..e] := Trim(t[e + 1..][..n])], skipFirst)
  {
  }

  /** The slices ScanStep relates, in positions of the suffix and of the whole text. */
  lemma SliceFacts(p: string, pos: nat, equalsPos: nat, keyStart: nat, valueEnd: nat)
    requires pos <= keyStart <= equalsPos < valueEnd <= |p|
    ensures var t := p[pos..]; var e := equalsPos - pos;
      t[..e] == p[pos..equalsPos] && t[keyStart - pos..e] == p[keyStart..equalsPos]
      && t[e + 1..] == p[equalsPos + 1..]
      && t[e + 1..][..valueEnd - equalsPos - 1] == p[equalsPos + 1..valueEnd]
      && t[e + 1..][valueEnd - equalsPos - 1..] == p[valueEnd..]
  {
  }

  /** Message.parse. */
  method Parse(line: Option<string>) returns (r: Result<Message, ProtocolCode>)
    ensures r == ParseLine(line)
  {
    if line.None? || IsBlank(line.value) {
      return Err(INVALID_FORMAT);
    }
    if |line.value| > MaxLineLength {
      return Err(MESSAGE_TOO_LONG);
    }
    var trimmed := Trim(line.value);
    var firstSpace := IndexOf(trimmed, ' ', 0);
    if firstSpace < 0 {
      return Err(INVALID_FORMAT);
    }
    var gameIdText := trimmed[..firstSpace];
    var remaining := Trim(trimmed[firstSpace + 1..]);
    assert ParseLine(line) == ParseAfterGame(IdOf(gameIdText), remaining);
    var secondSpace := IndexOf(remaining, ' ', 0);
    if secondSpace < 0 {
      return Err(INVALID_FORMAT);
    }
    var playerIdText := remaining[..secondSpace];
    remaining := Trim(remaining[secondSpace + 1..]);
    var thirdSpace := IndexOf(remaining, ' ', 0);
    var action, paramsText;
    if thirdSpace < 0 {
      action, paramsText := remaining, "";
    } else {
      action, paramsText := remaining[..thirdSpace], Trim(remaining[thirdSpace + 1..]);
    }
    var params := map[];
    if paramsText != [] {
      params := ScanParams(paramsText);
    }
    return Ok(Message(IdOf(gameIdText), IdOf(playerIdText), action, params));
  }

  // ---------------------------------------------------------------- toProtocolString

  /** How a header id is written: "-" for null. */
  function IdText(id: Option<string>): string
  {
    if id.None? then "-" else id.value
  }

  /** A HashMap's iteration order over its keys: every key once. */
  ghost predicate IterationOrder(keys: seq<string>, params: map<string, string>)
  {
    |keys| == |params.Keys| && forall k :: k in keys <==> k in params
  }

  /** " K=V" for each listed key, in order. */
  function ParamsText(keys: seq<string>, params: map<string, string>): string
    requires forall k :: k in keys ==> k in params
  {
    if keys == [] then "" else " " + keys[0] + "=" + params[keys[0]] + ParamsText(keys[1..], params)
  }

  /** The line toProtocolString writes, the parameters in the order `keys`. */
  function ProtocolString(m: Message, keys: seq<string>): string
    requires IterationOrder(keys, m.params)
  {
    IdText(m.gameId) + " " + IdText(m.playerId) + " " + m.action + ParamsText(keys, m.params)
  }

  /** toProtocolString: the header, then " K=V" per parameter. */
  method ToProtocolString(m: Message, keys: seq<string>) returns (s: string)
    requires IterationOrder(keys, m.params)
    ensures s == ProtocolString(m, keys)
  {
    s := IdText(m.gameId) + " " + IdText(m.playerId) + " " + m.action;
    for i := 0 to |keys|
      invariant s + ParamsText(keys[i..], m.params) == ProtocolString(m, keys)
    {
      assert keys[i..][1..] == keys[i + 1..];
      s := s + " " + keys[i] + "=" + m.params[keys[i]];
    }
  }

  // ---------------------------------------------------------------- accessors

  /** getIntParam(key): MISSING_PARAM when absent, INVALID_PARAM when not an int. */
  function GetIntParam(m: Message, key: string): (r: Result<int, ProtocolCode>)
    ensures r.Ok? ==> key in m.params && IsInt32(r.value)
    ensures r.Err? ==> r.error == (if key in m.params then INVALID_PARAM else MISSING_PARAM)
  {
    if key !in m.params then Err(MISSING_PARAM)
    else
      match ParseInt(m.params[key])
      case None => Err(INVALID_PARAM)
      case Some(n) => Ok(n)
  }

  /** getIntParam(key, defaultValue): the default for a missing or non-integer value. */
  function GetIntParamOr(m: Message, key: string, defaultValue: int): int
  {
    if key !in m.params then defaultValue
    else
      match ParseInt(m.params[key])
      case None => defaultValue
      case Some(n) => n
  }
}

/** What parse and toProtocolString promise together: a message whose tokens
    and values the scanner can tell apart is read back as written. */
module ProtocolLaws {
  import opened Wrappers
  import opened JavaStrings
  import opened Decimal
  import opened Protocol

  /** A character that may appear in an id, an action or a key. */
  predicate IsTokenChar(c: char)
  {
    ' ' < c && !IsWhitespace(c) && c != '='
  }

  predicate IsToken(s: string)
  {
    s != [] && forall i :: 0 <= i < |s| ==> IsTokenChar(s[i])
  }

  /** A value the scanner reads back unchanged: no '=', and empty or with ends
      that trim() keeps. */
  predicate IsPlainValue(v: string)
  {
    (v == [] || (!IsTrimmable(v[0]) && !IsTrimmable(v[|v| - 1])))
    && forall i :: 0 <= i < |v| ==> v[i] != '='
  }

  /** A header id that survives the round trip: null, or a token other than "-". */
  predicate IsHeaderId(id: Option<string>)
  {
    id.Some? ==> IsToken(id.value) && id.value != "-"
  }

  /** Keys are tokens and values plain; with `nonEmpty`, values are non-empty too. */
  ghost predicate PlainParams(params: map<string, string>, nonEmpty: bool)
  {
    forall k :: k in params ==> IsToken(k) && IsPlainValue(params[k]) && (nonEmpty ==> params[k] != [])
  }

  /** A message toProtocolString writes in a form parse reads back. */
  ghost predicate Writable(m: Message)
  {
    IsHeaderId(m.gameId) && IsHeaderId(m.playerId) && IsToken(m.action) && PlainParams(m.params, true)
  }

  // ---------------------------------------------------------------- the scanner on written text

  /** indexOf finds the first occurrence. */
  lemma FirstIndex(s: string, c: char, e: nat)
    requires e < |s| && s[e] == c && forall i :: 0 <= i < e ==> s[i] != c
    ensures IndexOf(s, c, 0) == e
  {
  }

  /** A token followed by a space splits there. */
  lemma SplitToken(x: string, y: string)
    requires IsToken(x)
    ensures IndexOf(x + " " + y, ' ', 0) == |x|
    ensures (x + " " + y)[..|x|] == x && (x + " " + y)[|x| + 1..] == y
  {
    FirstIndex(x + " " + y, ' ', |x|);
  }

  /** A token and an '=' make a KEY=. */
  lemma {:induction false} KeyAheadOfToken(k: string, rest: string)
    requires forall i :: 0 <= i < |k| ==> IsTokenChar(k[i])
    ensures KeyAhead(k + "=" + rest)
  {
    if k != [] {
      assert (k + "=" + rest)[1..] == k[1..] + "=" + rest;
      KeyAheadOfToken(k[1..], rest);
    }
  }

  /** Text without '=' that is followed by nothing or a space holds no KEY=. */
  lemma {:induction false} NoKeyAhead(x: string, rest: string)
    requires forall i :: 0 <= i < |x| ==> x[i] != '='
    requires rest == [] || rest[0] == ' '
    ensures !KeyAhead(x + rest)
  {
    if x != [] {
      assert (x + rest)[1..] == x[1..] + rest;
      NoKeyAhead(x[1..], rest);
    } else {
      assert x + rest == rest;
    }
  }

  /** Text made only of spaces ends in a space. */
  lemma {:induction false} AllSpaces(t: string)
    requires t != [] && Spaces(t) == |t|
    ensures t[|t| - 1] == ' '
  {
    if |t| > 1 {
      AllSpaces(t[1..]);
    }
  }

  /** The leading spaces of x do not reach into what follows it. */
  lemma {:induction false} SpacesOfPrefix(x: string, rest: string)
    requires Spaces(x) < |x|
    ensures Spaces(x + rest) == Spaces(x)
  {
    if x[0] == ' ' {
      assert (x + rest)[1..] == x[1..] + rest;
      SpacesOfPrefix(x[1..], rest);
    }
  }

  /** No KEY= starts inside a plain value. */
  lemma NoParamInside(v: string, i: nat, rest: string)
    requires IsPlainValue(v) && i < |v| && (rest == [] || rest[0] == ' ')
    ensures !ParamAt(v[i..] + rest)
  {
    if v[i] == ' ' {
      var x := v[i..];
      assert x[|x| - 1] == v[|v| - 1];
      if Spaces(x) == |x| {
        AllSpaces(x);
      }
      SpacesOfPrefix(x, rest);
      var s := Spaces(x);
      assert (x + rest)[s..] == v[i + s..] + rest;
      NoKeyAhead(v[i + s..], rest);
    }
  }

  /** A plain value runs up to the parameter that follows it. */
  lemma {:induction false} ValueSpanOfPlain(v: string, i: nat, rest: string)
    requires IsPlainValue(v) && i <= |v| && (rest == [] || ParamAt(rest))
    ensures ValueSpan(v[i..] + rest) == |v| - i
    decreases |v| - i
  {
    if i == |v| {
      assert v[i..] + rest == rest;
    } else {
      NoParamInside(v, i, rest);
      assert (v[i..] + rest)[1..] == v[i + 1..] + rest;
      ValueSpanOfPlain(v, i + 1, rest);
    }
  }

  /** Written parameters begin with " KEY=". */
  lemma ParamsTextStarts(keys: seq<string>, params: map<string, string>)
    requires keys != [] && (forall k :: k in keys ==> k in params) && IsToken(keys[0])
    ensures ParamAt(ParamsText(keys, params))
  {
    var t := ParamsText(keys, params);
    var k := keys[0];
    SpacesIs(t, 1);
    assert t[1..] == k + "=" + (params[k] + ParamsText(keys[1..], params));
    KeyAheadOfToken(k, params[k] + ParamsText(keys[1..], params));
  }

  /** Written parameters begin with a space and the first key. */
  lemma ParamsTextHead(keys: seq<string>, params: map<string, string>)
    requires keys != [] && (forall k :: k in keys ==> k in params) && keys[0] != []
    ensures var t := ParamsText(keys, params); |t| > 1 && t[0] == ' ' && t[1] == keys[0][0]
  {
  }

  /** The header and the action, then the parameters. */
  lemma Regroup(h: string, a: string, t: string)
    requires a != []
    ensures h + a + t == h + (a + t) && (a + t)[0] == a[0]
  {
  }

  /** Text after a leading space. */
  lemma SplitOffSpace(a: string, t: string)
    requires t != [] && t[0] == ' '
    ensures a + t == a + " " + t[1..]
  {
  }

  /** Written parameters end in a character trim() keeps. */
  lemma {:induction false} ParamsTextEnds(keys: seq<string>, params: map<string, string>)
    requires keys != [] && (forall k :: k in keys ==> k in params)
    requires forall k :: k in keys ==> IsPlainValue(params[k])
    ensures var t := ParamsText(keys, params); !IsTrimmable(t[|t| - 1])
  {
    var t := ParamsText(keys, params);
    var v := params[keys[0]];
    var r := ParamsText(keys[1..], params);
    if keys[1..] == [] {
      assert t == " " + keys[0] + "=" + v;
    } else {
      ParamsTextEnds(keys[1..], params);
      assert t[|t| - 1] == r[|r| - 1];
    }
  }

  /** The parameters as a map, in the order written. */
  function MapOf(keys: seq<string>, params: map<string, string>): (r: map<string, string>)
    requires forall k :: k in keys ==> k in params
    ensures forall k :: k in r <==> k in keys
  {
    map k | k in keys :: params[k]
  }

  /** Adding the first key, then the rest, adds them all. */
  lemma MapOfCons(keys: seq<string>, params: map<string, string>, acc: map<string, string>)
    requires keys != [] && forall k :: k in keys ==> k in params
    ensures acc[keys[0] := params[keys[0]]] + MapOf(keys[1..], params) == acc + MapOf(keys, params)
  {
    var left := acc[keys[0] := params[keys[0]]] + MapOf(keys[1..], params);
    var right := acc + MapOf(keys, params);
    assert forall x :: x in keys <==> x == keys[0] || x in keys[1..];
    assert left.Keys == right.Keys;
    forall x | x in left ensures left[x] == right[x] { }
  }

  /** The value the scanner finds after a written KEY=. */
  lemma ValueLengthOfWritten(v: string, rest: string, skipFirst: bool)
    requires IsPlainValue(v) && (skipFirst ==> v != []) && (rest == [] || ParamAt(rest))
    ensures ValueLength(v + rest, skipFirst) == |v|
  {
    if skipFirst {
      ValueSpanOfPlain(v, 1, rest);
      assert (v + rest)[1..] == v[1..] + rest;
    } else {
      ValueSpanOfPlain(v, 0, rest);
      assert v[0..] == v;
    }
  }

  /** One written " KEY=VALUE" read back. */
  lemma ScanOneParam(sp: string, k: string, v: string, rest: string, acc: map<string, string>, skipFirst: bool)
    requires sp == [] || sp == " "
    requires IsToken(k) && IsPlainValue(v) && (skipFirst ==> v != []) && (rest == [] || ParamAt(rest))
    ensures ScanFrom(sp + k + "=" + v + rest, acc, skipFirst) == ScanFrom(rest, acc[k := v], skipFirst)
  {
    var t := sp + k + "=" + v + rest;
    var e := |sp| + |k|;
    KeyValueParts(sp, k, v, rest);
    FirstIndex(t, '=', e);
    SpacesIs(sp + k, |sp|);
    ValueLengthOfWritten(v, rest, skipFirst);
    assert Trim(v) == v;
    ScanRound(t, acc, skipFirst, e, |v|);
  }

  /** The pieces of " KEY=VALUE" followed by more text. */
  lemma KeyValueParts(sp: string, k: string, v: string, rest: string)
    requires forall i :: 0 <= i < |sp| ==> sp[i] == ' '
    requires forall i :: 0 <= i < |k| ==> IsTokenChar(k[i])
    ensures var t := sp + k + "=" + v + rest; var e := |sp| + |k|;
      t[e] == '=' && (forall i :: 0 <= i < e ==> t[i] != '=')
      && t[..e] == sp + k && t[|sp|..e] == k && t[e + 1..] == v + rest
      && t[e + 1..][..|v|] == v && t[e + 1..][|v|..] == rest
  {
    var t := sp + k + "=" + v + rest;
    var e := |sp| + |k|;
    assert t[e + 1..] == v + rest;
    assert t[..e] == sp + k;
    assert t[|sp|..e] == k;
    assert forall i :: 0 <= i < e ==> t[i] == (sp + k)[i];
  }

  /** Every listed key is a token with a plain value; with `nonEmpty` a non-empty one. */
  ghost predicate WrittenKeys(keys: seq<string>, params: map<string, string>, nonEmpty: bool)
  {
    forall k :: k in keys ==> k in params && IsToken(k) && IsPlainValue(params[k]) && (nonEmpty ==> params[k] != [])
  }

  /** Written parameters read back as the map they were written from.
      With `lead` the text still has its leading space, as the scan sees it
      after the first parameter. */
  lemma {:induction false} ScanWritten(keys: seq<string>, params: map<string, string>, acc: map<string, string>, skipFirst: bool, lead: bool)
    requires WrittenKeys(keys, params, skipFirst)
    requires lead || keys != []
    ensures var t := ParamsText(keys, params);
      ScanFrom(if lead then t else t[1..], acc, skipFirst) == acc + MapOf(keys, params)
  {
    if keys != [] {
      var t := ParamsText(keys, params);
      var k := keys[0];
      var r := ParamsText(keys[1..], params);
      var sp := if lead then " " else "";
      assert (if lead then t else t[1..]) == sp + k + "=" + params[k] + r;
      if keys[1..] != [] {
        ParamsTextStarts(keys[1..], params);
      }
      ScanOneParam(sp, k, params[k], r, acc, skipFirst);
      ScanWritten(keys[1..], params, acc[k := params[k]], skipFirst, true);
      MapOfCons(keys, params, acc);
    }
  }

  /** A listing of every key gives back the whole map. */
  lemma MapOfListing(keys: seq<string>, params: map<string, string>)
    requires IterationOrder(keys, params)
    ensures MapOf(keys, params) == params
  {
  }

  // ---------------------------------------------------------------- the round trip

  /** A header id is written as a token. */
  lemma IdTextIsToken(id: Option<string>)
    requires IsHeaderId(id)
    ensures IsToken(IdText(id)) && IdOf(IdText(id)) == id
  {
    if id.None? {
      assert IsTokenChar('-');
      assert forall i :: 0 <= i < |"-"| ==> "-"[i] == '-';
    }
  }

  /** parse on a line that is neither blank, too long nor padded goes straight to the tokens. */
  lemma ParseUnpadded(line: string)
    requires !IsBlank(line) && |line| <= MaxLineLength && Trim(line) == line
    ensures ParseLine(Some(line)) == ParseTrimmed(line)
  {
  }

  /** The game id token is read up to the first space. */
  lemma ParseGameToken(a: string, rest: string)
    requires IsToken(a)
    ensures ParseTrimmed(a + " " + rest) == ParseAfterGame(IdOf(a), Trim(rest))
  {
    SplitToken(a, rest);
  }

  /** The player id token is read up to the next space. */
  lemma ParsePlayerToken(gameId: Option<string>, b: string, x: string)
    requires IsToken(b)
    ensures ParseAfterGame(gameId, b + " " + x)
      == Ok(Message(gameId, IdOf(b), ActionOf(Trim(x)), ParamsOf(ParamsTextOf(Trim(x)))))
  {
    SplitToken(b, x);
  }

  /** The action token is read up to the next space, the parameters after it. */
  lemma ParseActionToken(a: string, rest: string)
    requires IsToken(a)
    ensures ActionOf(a + " " + rest) == a && ParamsTextOf(a + " " + rest) == Trim(rest)
  {
    SplitToken(a, rest);
  }

  /** An action with nothing after it carries no parameters. */
  lemma ParseActionAlone(a: string)
    requires IsToken(a)
    ensures ActionOf(a) == a && ParamsOf(ParamsTextOf(a)) == map[]
  {
    assert ParamsTextOf(a) == "";
  }

  /** The header: the ids are read back, and the text after them, once trimmed,
      is what was written after them. */
  lemma ParseWrittenHeader(gameId: Option<string>, playerId: Option<string>, x: string)
    requires IsHeaderId(gameId) && IsHeaderId(playerId)
    requires x != [] && IsTokenChar(x[0]) && !IsTrimmable(x[|x| - 1])
    requires |IdText(gameId) + " " + IdText(playerId) + " " + x| <= MaxLineLength
    ensures ParseLine(Some(IdText(gameId) + " " + IdText(playerId) + " " + x))
      == Ok(Message(gameId, playerId, ActionOf(x), ParamsOf(ParamsTextOf(x))))
  {
    var a := IdText(gameId);
    var b := IdText(playerId);
    IdTextIsToken(gameId);
    IdTextIsToken(playerId);
    HeaderText(a, b, x);
    var rest := b + " " + x;
    assert a + " " + b + " " + x == a + " " + rest;
    ParseUnpadded(a + " " + rest);
    ParseGameToken(a, rest);
    ParsePlayerToken(IdOf(a), b, x);
  }

  /** A written line is not blank and trim() leaves it and its tails alone. */
  lemma HeaderText(a: string, b: string, x: string)
    requires IsToken(a) && IsToken(b)
    requires x != [] && IsTokenChar(x[0]) && !IsTrimmable(x[|x| - 1])
    ensures var rest := b + " " + x; var line := a + " " + rest;
      !IsBlank(line) && Trim(line) == line && Trim(rest) == rest && Trim(x) == x
  {
    var rest := b + " " + x;
    var line := a + " " + rest;
    assert line[|a| + |b| + 2] == x[0];
    assert line[|line| - 1] == x[|x| - 1];
    assert rest[|rest| - 1] == x[|x| - 1];
  }

  /** After the ids: the action, then the parameters read back as written. */
  lemma ParseWrittenBody(m: Message, keys: seq<string>)
    requires IterationOrder(keys, m.params) && IsToken(m.action) && PlainParams(m.params, true)
    ensures var x := m.action + ParamsText(keys, m.params);
      !IsTrimmable(x[|x| - 1]) && ActionOf(x) == m.action && ParamsOf(ParamsTextOf(x)) == m.params
  {
    var a := m.action;
    var pt := ParamsText(keys, m.params);
    if keys == [] {
      assert a + pt == a;
      ParseActionAlone(a);
    } else {
      ParamsTextEnds(keys, m.params);
      ParamsTextHead(keys, m.params);
      var t := pt[1..];
      SplitOffSpace(a, pt);
      ParseActionToken(a, t);
      assert Trim(t) == t by {
        assert t[0] == pt[1] && t[|t| - 1] == pt[|pt| - 1];
      }
      assert WrittenKeys(keys, m.params, true);
      WrittenScan(keys, m.params);
      MapOfListing(keys, m.params);
    }
  }

  /** Written parameters, without their leading space, read back by parse. */
  lemma WrittenScan(keys: seq<string>, params: map<string, string>)
    requires keys != [] && WrittenKeys(keys, params, true)
    ensures ParamsOf(ParamsText(keys, params)[1..]) == MapOf(keys, params)
  {
    ScanWritten(keys, params, map[], true, false);
    assert map[] + MapOf(keys, params) == MapOf(keys, params);
  }

  /** parse(toProtocolString(m)) == m, for every message whose ids, action
      and keys are tokens and whose values are plain and non-empty, as long as
      the line fits the 512-character limit. */
  lemma RoundTrip(m: Message, keys: seq<string>)
    requires Writable(m) && IterationOrder(keys, m.params)
    requires |ProtocolString(m, keys)| <= MaxLineLength
    ensures ParseLine(Some(ProtocolString(m, keys))) == Ok(m)
  {
    var h := IdText(m.gameId) + " " + IdText(m.playerId) + " ";
    var pt := ParamsText(keys, m.params);
    Regroup(h, m.action, pt);
    assert ProtocolString(m, keys) == h + (m.action + pt);
    ParseWrittenBody(m, keys);
    ParseWrittenHeader(m.gameId, m.playerId, m.action + pt);
  }

  /** The corrected scan reads written parameters back, empty values included. */
  lemma IntendedParamsRoundTrip(keys: seq<string>, params: map<string, string>)
    requires IterationOrder(keys, params) && PlainParams(params, false) && keys != []
    ensures IntendedParamsOf(ParamsText(keys, params)[1..]) == params
  {
    assert WrittenKeys(keys, params, false);
    IntendedScan(keys, params);
    MapOfListing(keys, params);
  }

  lemma IntendedScan(keys: seq<string>, params: map<string, string>)
    requires keys != [] && WrittenKeys(keys, params, false)
    ensures IntendedParamsOf(ParamsText(keys, params)[1..]) == MapOf(keys, params)
  {
    ScanWritten(keys, params, map[], false, false);
    assert map[] + MapOf(keys, params) == MapOf(keys, params);
  }

  // ---------------------------------------------------------------- what parse accepts

  /** parse's refusals: null and blank lines are malformed, and a line that is
      neither is too long exactly when it exceeds 512 characters. */
  lemma ParseRefuses(line: Option<string>)
    ensures (line.None? || IsBlank(line.value)) ==> ParseLine(line) == Err(INVALID_FORMAT)
    ensures ParseLine(line) == Err(MESSAGE_TOO_LONG)
      <==> line.Some? && !IsBlank(line.value) && |line.value| > MaxLineLength
    ensures ParseLine(line).Err? ==> ParseLine(line).error in {INVALID_FORMAT, MESSAGE_TOO_LONG}
  {
  }

  /** A token read up to a space is non-empty and holds no space. */
  predicate IsHeaderToken(t: string)
  {
    t != [] && forall i :: 0 <= i < |t| ==> t[i] != ' '
  }

  /** trim() keeps text whose last character it does not cut. */
  lemma TrimKeepsLast(s: string)
    requires s != [] && !IsTrimmable(s[|s| - 1])
    ensures Trim(s) != []
  {
    assert TrailingCut(s) == |s|;
    assert s[..|s|] == s;
    assert LeadingTrimmable(s) < |s|;
  }

  /** The text before the first space of trimmed text is a header token. */
  lemma TokenBeforeSpace(t: string)
    requires t != [] && !IsTrimmable(t[0]) && IndexOf(t, ' ', 0) >= 0
    ensures IsHeaderToken(t[..IndexOf(t, ' ', 0)])
  {
  }

  /** A header id as read: null, or a token other than "-". */
  predicate IsReadId(id: Option<string>)
  {
    id.Some? ==> IsHeaderToken(id.value) && id.value != "-"
  }

  /** What parse accepts: the ids, when present, and the action are non-empty
      and hold no space, and an id is never "-", which stands for null. */
  lemma ParsedShape(line: Option<string>)
    ensures var r := ParseLine(line);
      r.Ok? ==> (IsReadId(r.value.gameId) && IsReadId(r.value.playerId) && IsHeaderToken(r.value.action))
  {
    if line.Some? && !IsBlank(line.value) && |line.value| <= MaxLineLength {
      TrimmedShape(Trim(line.value));
    }
  }

  /** The game id of a trimmed line. */
  lemma TrimmedShape(trimmed: string)
    requires trimmed == [] || !IsTrimmable(trimmed[0])
    ensures var r := ParseTrimmed(trimmed);
      r.Ok? ==> (IsReadId(r.value.gameId) && IsReadId(r.value.playerId) && IsHeaderToken(r.value.action))
  {
    var first := IndexOf(trimmed, ' ', 0);
    if first >= 0 {
      TokenBeforeSpace(trimmed);
      AfterGameShape(IdOf(trimmed[..first]), Trim(trimmed[first + 1..]));
    }
  }

  /** The player id and the action of what follows the game id. */
  lemma AfterGameShape(gameId: Option<string>, rest: string)
    requires rest == [] || (!IsTrimmable(rest[0]) && !IsTrimmable(rest[|rest| - 1]))
    ensures var r := ParseAfterGame(gameId, rest);
      r.Ok? ==> (r.value.gameId == gameId && IsReadId(r.value.playerId) && IsHeaderToken(r.value.action))
  {
    var second := IndexOf(rest, ' ', 0);
    if second >= 0 {
      TokenBeforeSpace(rest);
      var after := rest[second + 1..];
      assert after[|after| - 1] == rest[|rest| - 1];
      TrimKeepsLast(after);
      ActionShape(Trim(after));
    }
  }

  /** The action of a non-empty trimmed tail. */
  lemma ActionShape(tail: string)
    requires tail != [] && !IsTrimmable(tail[0])
    ensures IsHeaderToken(ActionOf(tail))
  {
    if IndexOf(tail, ' ', 0) >= 0 {
      TokenBeforeSpace(tail);
    }
  }

  // ---------------------------------------------------------------- the accessors

  /** getIntParam reads back a number written with String.valueOf. */
  lemma IntParamRoundTrip(m: Message, key: string, n: int)
    requires IsInt32(n)
    ensures GetIntParam(m.(params := m.params[key := IntToString(n)]), key) == Ok(n)
  {
    IntRoundTrip(n);
  }

  /** The overload with a default agrees with getIntParam and falls back on any error. */
  lemma IntParamDefault(m: Message, key: string, defaultValue: int)
    ensures GetIntParamOr(m, key, defaultValue)
      == (if GetIntParam(m, key).Ok? then GetIntParam(m, key).value else defaultValue)
    ensures key !in m.params ==> GetIntParamOr(m, key, defaultValue) == defaultValue
  {
  }
}

/** The empty-value case of the parameter scan: the input on which parse
    differs from the corrected rule. */
module ProtocolFindings {
  import opened JavaStrings
  import opened Protocol
  import opened ProtocolLaws

  /** trim() drops one leading space. */
  lemma TrimLeadingSpace(x: string)
    requires x != [] && !IsTrimmable(x[0]) && !IsTrimmable(x[|x| - 1])
    ensures Trim(" " + x) == x
  {
    var s := " " + x;
    assert TrailingCut(s) == |s|;
    assert s[..|s|] == s;
    assert s[1..] == x;
    assert LeadingTrimmable(s) == 1;
  }

  /** parse as written: an empty value followed by another parameter swallows
      it, because the search for the next KEY= starts one character into the
      value. */
  lemma EmptyValueSwallowsNext()
    ensures ParamsOf("A= B=1") == map["A" := "B=1"]
  {
    var t := "A= B=1";
    FirstIndex(t, '=', 1);
    assert t[..1] == "A";
    SpacesIs("A", 0);
    var u := t[2..];
    assert u == " B=1" && u[1..] == "B=1";
    ValueSpanIs("B=1", 3);
    ScanRound(t, map[], true, 1, 4);
    assert u[..4] == " B=1" && u[4..] == [];
    TrimLeadingSpace("B=1");
  }

  /** {A: "", B: "1"} is written as " A= B=1". */
  lemma EmptyValueWritten()
    ensures ParamsText(["A", "B"], map["A" := "", "B" := "1"]) == " A= B=1"
  {
    var params := map["A" := "", "B" := "1"];
    assert ["A", "B"][1..] == ["B"] && ["B"][1..] == [];
    assert ParamsText(["B"], params) == " B=1";
    assert ParamsText(["A", "B"], params) == " A=" + " B=1";
  }

  /** ["A", "B"] lists the keys of {A: "", B: "1"}. */
  lemma EmptyValueListed()
    ensures IterationOrder(["A", "B"], map["A" := "", "B" := "1"])
  {
    assert map["A" := "", "B" := "1"].Keys == {"A", "B"};
  }

  /** {A: "", B: "1"} meets the conditions of the corrected round trip. */
  lemma EmptyValuePlain()
    ensures PlainParams(map["A" := "", "B" := "1"], false)
  {
    var params := map["A" := "", "B" := "1"];
    assert IsToken("A") && IsToken("B") by {
      assert IsTokenChar('A') && IsTokenChar('B');
    }
    assert IsPlainValue("") && IsPlainValue("1");
    assert params.Keys == {"A", "B"};
  }

  /** The corrected scan reads " A= B=1" back as {A: "", B: "1"}. */
  lemma EmptyValueKept()
    ensures IntendedParamsOf("A= B=1") == map["A" := "", "B" := "1"]
  {
    EmptyValueWritten();
    EmptyValueListed();
    EmptyValuePlain();
    IntendedParamsRoundTrip(["A", "B"], map["A" := "", "B" := "1"]);
    assert " A= B=1"[1..] == "A= B=1";
  }
}

/** PlayerId and GameId: non-blank strings compared by value. Both are made
    either from a caller's string (`of`) or from a random UUID (`generate`). */
module Ids {
  import opened Wrappers
  import opened JavaStrings

  /** A player's identifier; equal exactly when the strings are equal. */
  datatype PlayerId = PlayerId(id: string)

  /** A game's identifier; equal exactly when the strings are equal. */
  datatype GameId = GameId(id: string)

  /** IllegalArgumentException from `of`: the string was null, empty or whitespace only. */
  datatype IdError = BlankId

  /** PlayerId.of: refuses null and blank strings, keeps any other string as it is. */
  function PlayerIdOf(id: Option<string>): (r: Result<PlayerId, IdError>)
    ensures r.Ok? <==> id.Some? && !IsBlank(id.value)
    ensures r.Ok? ==> r.value.id == id.value
  {
    if id.None? || IsBlank(id.value) then Err(BlankId) else Ok(PlayerId(id.value))
  }

  /** GameId.of: refuses null and blank strings, keeps any other string as it is. */
  function GameIdOf(id: Option<string>): (r: Result<GameId, IdError>)
    ensures r.Ok? <==> id.Some? && !IsBlank(id.value)
    ensures r.Ok? ==> r.value.id == id.value
  {
    if id.None? || IsBlank(id.value) then Err(BlankId) else Ok(GameId(id.value))
  }

  predicate IsHexDigit(c: char) {
    '0' <= c <= '9' || 'a' <= c <= 'f'
  }

  /** The text of UUID.toString(): 32 lower-case hex digits in groups 8-4-4-4-12. */
  predicate IsUuidText(s: string) {
    |s| == 36
    && (forall i :: 0 <= i < 36 ==> (s[i] == '-' <==> i in {8, 13, 18, 23}))
    && (forall i :: 0 <= i < 36 && s[i] != '-' ==> IsHexDigit(s[i]))
  }

  /** String.replace("-", ""). */
  function RemoveDashes(s: string): (r: string)
    ensures |r| <= |s|
    ensures forall i :: 0 <= i < |r| ==> r[i] != '-'
  {
    if s == [] then [] else (if s[0] == '-' then [] else [s[0]]) + RemoveDashes(s[1..])
  }

  lemma {:induction false} RemoveDashesAppend(a: string, b: string)
    ensures RemoveDashes(a + b) == RemoveDashes(a) + RemoveDashes(b)
  {
    if a == [] {
      assert a + b == b;
    } else {
      assert (a + b)[0] == a[0] && (a + b)[1..] == a[1..] + b;
      RemoveDashesAppend(a[1..], b);
    }
  }

  lemma {:induction false} RemoveDashesNoDash(a: string)
    requires forall i :: 0 <= i < |a| ==> a[i] != '-'
    ensures RemoveDashes(a) == a
  {
    if a != [] {
      RemoveDashesNoDash(a[1..]);
    }
  }

  /** The undashed UUID starts with the first group, then the second. */
  lemma UndashedPrefix(uuid: string)
    requires IsUuidText(uuid)
    ensures |RemoveDashes(uuid)| >= 12
    ensures RemoveDashes(uuid)[..12] == uuid[..8] + uuid[9..13]
  {
    assert uuid == uuid[..8] + [uuid[8]] + uuid[9..13] + uuid[13..];
    RemoveDashesAppend(uuid[..8] + [uuid[8]] + uuid[9..13], uuid[13..]);
    RemoveDashesAppend(uuid[..8] + [uuid[8]], uuid[9..13]);
    RemoveDashesAppend(uuid[..8], [uuid[8]]);
    RemoveDashesNoDash(uuid[..8]);
    RemoveDashesNoDash(uuid[9..13]);
    assert RemoveDashes([uuid[8]]) == [];
  }

  /** PlayerId.generate(): the first 8 characters of the undashed UUID text. */
  function GeneratePlayerId(uuid: string): (r: PlayerId)
    requires IsUuidText(uuid)
    ensures |r.id| == 8 && r.id == uuid[..8]
    ensures PlayerIdOf(Some(r.id)) == Ok(r)
  {
    UndashedPrefix(uuid);
    var r := PlayerId(RemoveDashes(uuid)[..8]);
    assert r.id == RemoveDashes(uuid)[..12][..8];
    assert !IsWhitespace(r.id[0]) by {
      assert IsHexDigit(uuid[0]);
    }
    r
  }

  /** GameId.generate(): the first 12 characters of the undashed UUID text. */
  function GenerateGameId(uuid: string): (r: GameId)
    requires IsUuidText(uuid)
    ensures |r.id| == 12 && r.id == uuid[..8] + uuid[9..13]
    ensures GameIdOf(Some(r.id)) == Ok(r)
  {
    UndashedPrefix(uuid);
    var r := GameId(RemoveDashes(uuid)[..12]);
    assert !IsWhitespace(r.id[0]) by {
      assert r.id[0] == uuid[0] && IsHexDigit(uuid[0]);
    }
    r
  }
}

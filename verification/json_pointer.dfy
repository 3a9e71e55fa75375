/** Non-root JSON pointers (internal/logging/json_fields.go; sections 3 and 4 of RFC 6901). */
module JsonPointer {
  import opened Common
  import opened GoText

  datatype PointerError = NotAPointer | InvalidEscape

  const SLASH: byte := '/' as int
  const TILDE: byte := '~' as int
  const ZERO: byte := '0' as int
  const ONE: byte := '1' as int

  /** Every tilde is followed by 0 or 1. */
  predicate EscapesOk(p: bytes) {
    if p == [] then true
    else if p[0] != TILDE then EscapesOk(p[1..])
    else |p| >= 2 && (p[1] == ZERO || p[1] == ONE) && EscapesOk(p[2..])
  }

  /** The two passes of the source. */
  function Unescape(token: bytes): bytes {
    ReplacePair(ReplacePair(token, TILDE, ONE, SLASH), TILDE, ZERO, TILDE)
  }

  function UnescapeAll(tokens: seq<bytes>): seq<bytes> {
    seq(|tokens|, i requires 0 <= i < |tokens| => Unescape(tokens[i]))
  }

  function Parse(pointer: bytes): Result<seq<bytes>, PointerError> {
    if pointer == [] || pointer[0] != SLASH then Err(NotAPointer)
    else if !EscapesOk(pointer) then Err(InvalidEscape)
    else Ok(UnescapeAll(Split(pointer[1..], SLASH)))
  }

  method ParseJSONPointer(pointer: bytes) returns (result: Result<seq<bytes>, PointerError>)
    ensures result == Parse(pointer)
  {
    if pointer == [] || pointer[0] != SLASH {
      return Err(NotAPointer);
    }
    var i := 0;
    assert pointer[0..] == pointer;
    while i < |pointer|
      invariant 0 <= i <= |pointer|
      invariant EscapesOk(pointer) == EscapesOk(pointer[i..])
    {
      ghost var left := pointer[i..];
      assert left != [] && left[0] == pointer[i];
      if pointer[i] != TILDE {
        assert left[1..] == pointer[i + 1..];
        i := i + 1;
        continue;
      }
      if i + 1 == |pointer| || (pointer[i + 1] != ZERO && pointer[i + 1] != ONE) {
        assert |left| >= 2 ==> left[1] == pointer[i + 1];
        return Err(InvalidEscape);
      }
      assert left[1] == pointer[i + 1];
      assert left[2..] == pointer[i + 2..];
      i := i + 2;
    }
    assert pointer[i..] == [];
    var tokens := Split(pointer[1..], SLASH);
    ghost var parts := tokens;
    i := 0;
    while i < |tokens|
      invariant 0 <= i <= |tokens| == |parts|
      invariant tokens == UnescapeAll(parts[..i]) + parts[i..]
    {
      tokens := tokens[i := ReplacePair(ReplacePair(tokens[i], TILDE, ONE, SLASH), TILDE, ZERO, TILDE)];
      i := i + 1;
    }
    assert parts[..i] == parts && parts[i..] == [];
    assert tokens == UnescapeAll(parts);
    result := Ok(tokens);
  }

  // ---------- one pass ----------

  /** Decoding in a single pass from left to right. */
  function Decode(token: bytes): bytes
    requires EscapesOk(token)
  {
    if token == [] then []
    else if token[0] != TILDE then [token[0]] + Decode(token[1..])
    else [if token[1] == ZERO then TILDE else SLASH] + Decode(token[2..])
  }

  /** The two replacement passes equal single-pass decoding on every accepted token. */
  lemma {:induction false} TwoPassesAreOne(token: bytes)
    requires EscapesOk(token)
    ensures Unescape(token) == Decode(token)
  {
    var first := ReplacePair(token, TILDE, ONE, SLASH);
    if token == [] {
    } else if token[0] != TILDE {
      TwoPassesAreOne(token[1..]);
      assert first[1..] == ReplacePair(token[1..], TILDE, ONE, SLASH);
    } else if token[1] == ONE {
      TwoPassesAreOne(token[2..]);
      assert first[1..] == ReplacePair(token[2..], TILDE, ONE, SLASH);
    } else {
      TwoPassesAreOne(token[2..]);
      var inner := ReplacePair(token[1..], TILDE, ONE, SLASH);
      assert token[1..][1..] == token[2..];
      assert inner == [ZERO] + ReplacePair(token[2..], TILDE, ONE, SLASH);
      assert first == [TILDE] + inner;
      assert first[2..] == ReplacePair(token[2..], TILDE, ONE, SLASH);
    }
  }

  // ---------- printing ----------

  function EscapeToken(token: bytes): bytes {
    if token == [] then []
    else (if token[0] == TILDE then [TILDE, ZERO] else if token[0] == SLASH then [TILDE, ONE] else [token[0]]) + EscapeToken(token[1..])
  }

  function EscapeAll(tokens: seq<bytes>): seq<bytes> {
    seq(|tokens|, i requires 0 <= i < |tokens| => EscapeToken(tokens[i]))
  }

  function Print(tokens: seq<bytes>): bytes
    requires tokens != []
  {
    [SLASH] + Join(EscapeAll(tokens), SLASH)
  }

  lemma {:induction false} EscapedToken(token: bytes)
    ensures EscapesOk(EscapeToken(token)) && Free(EscapeToken(token), SLASH)
    ensures Decode(EscapeToken(token)) == token
  {
    if token != [] {
      EscapedToken(token[1..]);
      var rest := EscapeToken(token[1..]);
      var text := EscapeToken(token);
      if token[0] == TILDE || token[0] == SLASH {
        assert text[2..] == rest;
      } else {
        assert text[1..] == rest;
      }
    }
  }

  lemma {:induction false} EscapeDecoded(token: bytes)
    requires EscapesOk(token) && Free(token, SLASH)
    ensures EscapeToken(Decode(token)) == token
  {
    if token != [] {
      var n := if token[0] != TILDE then 1 else 2;
      EscapeDecoded(token[n..]);
      assert Decode(token)[1..] == Decode(token[n..]);
      if n == 1 {
        assert token == [token[0]] + token[1..];
      } else {
        assert token == [token[0], token[1]] + token[2..];
      }
    }
  }

  predicate AllOk(parts: seq<bytes>) {
    forall i :: 0 <= i < |parts| ==> EscapesOk(parts[i])
  }

  /** Up to the separator the escapes of a part are its own. */
  lemma {:induction false} EscapesOkFirst(part: bytes, rest: bytes)
    requires Free(part, SLASH)
    ensures EscapesOk(part + [SLASH] + rest) == (EscapesOk(part) && EscapesOk(rest))
  {
    var all := part + [SLASH] + rest;
    if part == [] {
      assert all[1..] == rest;
    } else if part[0] != TILDE {
      EscapesOkFirst(part[1..], rest);
      assert all[1..] == part[1..] + [SLASH] + rest;
    } else if |part| >= 2 {
      EscapesOkFirst(part[2..], rest);
      assert all[2..] == part[2..] + [SLASH] + rest;
    } else {
      assert all[1] == SLASH;
    }
  }

  lemma {:induction false} EscapesOkJoin(parts: seq<bytes>)
    requires parts != [] && forall i :: 0 <= i < |parts| ==> Free(parts[i], SLASH)
    ensures EscapesOk(Join(parts, SLASH)) == AllOk(parts)
  {
    if |parts| > 1 {
      EscapesOkJoin(parts[1..]);
      EscapesOkFirst(parts[0], Join(parts[1..], SLASH));
      assert parts == [parts[0]] + parts[1..];
    }
  }

  /** Parsing a printed token list returns the list. */
  lemma ParsePrinted(tokens: seq<bytes>)
    requires tokens != []
    ensures Parse(Print(tokens)) == Ok(tokens)
  {
    var parts := EscapeAll(tokens);
    forall i | 0 <= i < |tokens|
      ensures EscapesOk(parts[i]) && Free(parts[i], SLASH) && Unescape(parts[i]) == tokens[i]
    {
      EscapedToken(tokens[i]);
      TwoPassesAreOne(parts[i]);
    }
    JoinSplit(parts, SLASH);
    EscapesOkJoin(parts);
    var text := Print(tokens);
    assert text[1..] == Join(parts, SLASH);
    assert UnescapeAll(parts) == tokens;
  }

  /** Printing the tokens of an accepted pointer returns the pointer: accepted pointers and nonempty token lists correspond one to one. */
  lemma PrintParsed(pointer: bytes)
    requires Parse(pointer).Ok?
    ensures Parse(pointer).value != [] && Print(Parse(pointer).value) == pointer
  {
    var parts := Split(pointer[1..], SLASH);
    SplitJoin(pointer[1..], SLASH);
    EscapesOkJoin(parts);
    var tokens := UnescapeAll(parts);
    forall i | 0 <= i < |parts| ensures EscapeToken(tokens[i]) == parts[i] {
      TwoPassesAreOne(parts[i]);
      EscapeDecoded(parts[i]);
    }
    assert EscapeAll(tokens) == parts;
    assert pointer == [SLASH] + pointer[1..];
  }
}

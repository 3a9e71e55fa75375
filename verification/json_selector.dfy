/** Singular JSONPath selectors (internal/logging/json_path.go), including Go's decoding of JSON string literals. */
module JsonSelector {
  import opened Common
  import opened GoText
  import opened Utf8
  import JsonPointer

  datatype Segment = Segment(key: bytes, index: bool, pointer: bool)

  datatype SelectorError =
    | BadPointer(cause: JsonPointer.PointerError)
    | NotAPath
    | NoName
    | UnsupportedOperator
    | UnterminatedIndex
    | BadIndex
    | UnterminatedMember
    | BadMember
    | NoBracket

  datatype Parsed = Parsed(segment: Segment, rest: bytes) | Rejected(error: SelectorError)

  const BACKSLASH: byte := '\\' as int
  const QUOTE: byte := '"' as int
  const APOSTROPHE: byte := '\'' as int
  const OPEN: byte := '[' as int
  const CLOSE: byte := ']' as int
  const DOT: byte := '.' as int
  const DOLLAR: byte := '$' as int

  // ---------- names and indices ----------

  predicate NameByte(b: byte, first: bool) {
    'a' as int <= b <= 'z' as int || 'A' as int <= b <= 'Z' as int || b == '_' as int || (!first && IsDigit(b))
  }

  /** Length of the member name at the front. */
  function NameLength(s: bytes, first: bool): (n: nat)
    ensures n <= |s|
  {
    if s != [] && NameByte(s[0], first) then 1 + NameLength(s[1..], false) else 0
  }

  function IndexOf(s: bytes, b: byte): (i: nat)
    ensures i <= |s| && (i < |s| ==> s[i] == b)
    ensures forall j :: 0 <= j < i ==> s[j] != b
  {
    if s == [] || s[0] == b then 0 else 1 + IndexOf(s[1..], b)
  }

  function ParseIndex(input: bytes): Parsed {
    var end := IndexOf(input, CLOSE);
    if end == |input| then Rejected(UnterminatedIndex)
    else
      var key := TrimSpace(input[..end]);
      var index := Atoi(key);
      if index.None? || index.value < 0 || Itoa(index.value) != key then Rejected(BadIndex)
      else Parsed(Segment(key, true, false), input[end + 1..])
  }

  // ---------- quoted members ----------

  /** The member text up to the closing quote as the inside of a double-quoted JSON literal, and what follows the quote. */
  function Normalize(s: bytes, quote: byte): Option<(bytes, bytes)> {
    if s == [] then None
    else if s[0] == quote then Some(([], s[1..]))
    else if s[0] == BACKSLASH then
      if |s| == 1 then None
      else
        var text := if s[1] == APOSTROPHE && quote == APOSTROPHE then [APOSTROPHE] else [BACKSLASH, s[1]];
        Before(text, Normalize(s[2..], quote))
    else Before(if s[0] == QUOTE then [BACKSLASH, QUOTE] else [s[0]], Normalize(s[1..], quote))
  }

  function Before(text: bytes, r: Option<(bytes, bytes)>): Option<(bytes, bytes)> {
    if r.None? then None else Some((text + r.value.0, r.value.1))
  }

  function HexValue(b: byte): Option<nat> {
    if IsDigit(b) then Some(b - 48)
    else if 'a' as int <= b <= 'f' as int then Some(b - 'a' as int + 10)
    else if 'A' as int <= b <= 'F' as int then Some(b - 'A' as int + 10)
    else None
  }

  /** The code unit of `\uXXXX` at the front. */
  function CodeUnit(s: bytes): Option<nat> {
    if |s| < 6 || s[0] != BACKSLASH || s[1] != 'u' as int then None
    else
      var a, b, c, d := HexValue(s[2]), HexValue(s[3]), HexValue(s[4]), HexValue(s[5]);
      if a.None? || b.None? || c.None? || d.None? then None
      else Some(((a.value * 16 + b.value) * 16 + c.value) * 16 + d.value)
  }

  const REPLACEMENT: bytes := [0xEF, 0xBF, 0xBD]

  /** UTF-8 of a code point; surrogates become U+FFFD. */
  function EncodeRune(r: nat): bytes {
    if r < 0x80 then [r]
    else if r < 0x800 then [0xC0 + r / 64, 0x80 + r % 64]
    else if 0xD800 <= r < 0xE000 || r > 0x10FFFF then REPLACEMENT
    else if r < 0x10000 then [0xE0 + r / 4096, 0x80 + r / 64 % 64, 0x80 + r % 64]
    else [0xF0 + r / 262144, 0x80 + r / 4096 % 64, 0x80 + r / 64 % 64, 0x80 + r % 64]
  }

  function SimpleEscape(b: byte): Option<byte> {
    match b as char
    case '"' => Some(QUOTE)
    case '\\' => Some(BACKSLASH)
    case '/' => Some('/' as int)
    case 'b' => Some(8)
    case 'f' => Some(12)
    case 'n' => Some(10)
    case 'r' => Some(13)
    case 't' => Some(9)
    case _ => None
  }

  function Then(text: bytes, r: Option<bytes>): Option<bytes> {
    if r.None? then None else Some(text + r.value)
  }

  /** The value of the JSON string literal with this inside; `None` when it is malformed. Ill-formed UTF-8 becomes U+FFFD byte by byte. */
  function Literal(s: bytes): Option<bytes>
    decreases |s|
  {
    if s == [] then Some([])
    else if s[0] == QUOTE || s[0] < 0x20 then None
    else if s[0] == BACKSLASH then
      if |s| == 1 then None
      else if s[1] == 'u' as int then
        var unit := CodeUnit(s);
        if unit.None? then None
        else if 0xD800 <= unit.value < 0xDC00 then
          var low := CodeUnit(s[6..]);
          if low.Some? && 0xDC00 <= low.value < 0xE000
          then Then(EncodeRune(0x10000 + (unit.value - 0xD800) * 1024 + (low.value - 0xDC00)), Literal(s[12..]))
          else Then(REPLACEMENT, Literal(s[6..]))
        else Then(EncodeRune(unit.value), Literal(s[6..]))
      else
        var plain := SimpleEscape(s[1]);
        if plain.None? then None else Then([plain.value], Literal(s[2..]))
    else if RuneLength(s) > 0 then Then(s[..RuneLength(s)], Literal(s[RuneLength(s)..]))
    else Then(REPLACEMENT, Literal(s[1..]))
  }

  function FinishMember(normalized: bytes, rest: bytes): Parsed {
    var key := Literal(normalized);
    if key.None? then Rejected(BadMember)
    else
      var after := TrimBlanks(rest);
      if after == [] || after[0] != CLOSE then Rejected(NoBracket)
      else Parsed(Segment(key.value, false, false), after[1..])
  }

  function ParseQuotedMember(input: bytes): Parsed
    requires input != []
  {
    var r := Normalize(input[1..], input[0]);
    if r.None? then Rejected(UnterminatedMember) else FinishMember(r.value.0, r.value.1)
  }

  // ---------- selectors ----------

  function ParseSegment(input: bytes): Parsed
    requires input != []
  {
    if input[0] == DOT then
      var n := NameLength(input[1..], true);
      if n == 0 then Rejected(NoName) else Parsed(Segment(input[1..1 + n], false, false), input[1 + n..])
    else if input[0] != OPEN then Rejected(UnsupportedOperator)
    else
      var inner := TrimBlanks(input[1..]);
      if inner != [] && (inner[0] == APOSTROPHE || inner[0] == QUOTE) then ParseQuotedMember(inner) else ParseIndex(inner)
  }

  lemma {:induction false} NormalizeShortens(s: bytes, quote: byte)
    ensures Normalize(s, quote).Some? ==> |Normalize(s, quote).value.1| < |s|
  {
    if s != [] && s[0] != quote {
      if s[0] != BACKSLASH {
        NormalizeShortens(s[1..], quote);
      } else if |s| > 1 {
        NormalizeShortens(s[2..], quote);
      }
    }
  }

  lemma MemberShortens(inner: bytes)
    requires inner != []
    ensures ParseQuotedMember(inner).Parsed? ==> |ParseQuotedMember(inner).rest| < |inner|
  {
    NormalizeShortens(inner[1..], inner[0]);
    var r := Normalize(inner[1..], inner[0]);
    if r.Some? {
      FinishShortens(r.value.0, r.value.1);
    }
  }

  lemma FinishShortens(normalized: bytes, rest: bytes)
    ensures FinishMember(normalized, rest).Parsed? ==> |FinishMember(normalized, rest).rest| < |rest|
  {
  }

  lemma IndexShortens(inner: bytes)
    ensures ParseIndex(inner).Parsed? ==> |ParseIndex(inner).rest| < |inner|
  {
  }

  /** Every accepted segment strictly shortens the input. */
  lemma SegmentShortens(input: bytes)
    requires input != []
    ensures ParseSegment(input).Parsed? ==> |ParseSegment(input).rest| < |input|
  {
    if input[0] == OPEN {
      var inner := TrimBlanks(input[1..]);
      if inner != [] {
        MemberShortens(inner);
      }
      IndexShortens(inner);
    }
  }

  function ParseSegments(input: bytes): Result<seq<Segment>, SelectorError>
    decreases |input|
  {
    if input == [] then Ok([])
    else
      SegmentShortens(input);
      match ParseSegment(input)
      case Rejected(error) => Err(error)
      case Parsed(segment, rest) =>
        match ParseSegments(rest)
        case Err(error) => Err(error)
        case Ok(segments) => Ok([segment] + segments)
  }

  function PointerSegments(tokens: seq<bytes>): seq<Segment> {
    seq(|tokens|, i requires 0 <= i < |tokens| => Segment(tokens[i], false, true))
  }

  /** `parseJSONSelector` */
  function Parse(selector: bytes): Result<seq<Segment>, SelectorError> {
    if selector != [] && selector[0] == JsonPointer.SLASH then
      match JsonPointer.Parse(selector)
      case Err(cause) => Err(BadPointer(cause))
      case Ok(tokens) => Ok(PointerSegments(tokens))
    else if selector == [] || selector[0] != DOLLAR || |selector| == 1 then Err(NotAPath)
    else ParseSegments(selector[1..])
  }

  method ParseSelector(selector: bytes) returns (result: Result<seq<Segment>, SelectorError>)
    ensures result == Parse(selector)
  {
    if selector != [] && selector[0] == JsonPointer.SLASH {
      var tokens := JsonPointer.ParseJSONPointer(selector);
      if tokens.Err? {
        return Err(BadPointer(tokens.error));
      }
      return Ok(PointerSegments(tokens.value));
    }
    if selector == [] || selector[0] != DOLLAR || |selector| == 1 {
      return Err(NotAPath);
    }
    var segments: seq<Segment> := [];
    var remaining := selector[1..];
    PrefixedByNothing(ParseSegments(remaining));
    while remaining != []
      invariant Parse(selector) == match ParseSegments(remaining)
                                   case Err(error) => Err(error)
                                   case Ok(more) => Ok(segments + more)
      decreases |remaining|
    {
      SegmentShortens(remaining);
      var next := ScanSegment(remaining);
      if next.Rejected? {
        return Err(next.error);
      }
      ghost var before, tail := segments, ParseSegments(next.rest);
      if tail.Ok? {
        Associative(before, [next.segment], tail.value);
      }
      segments := segments + [next.segment];
      remaining := next.rest;
    }
    assert segments + [] == segments;
    result := Ok(segments);
  }

  lemma PrefixedByNothing(r: Result<seq<Segment>, SelectorError>)
    ensures r == match r case Err(error) => Err(error) case Ok(more) => Ok([] + more)
  {
    if r.Ok? {
      assert [] + r.value == r.value;
    }
  }

  method ScanSegment(input: bytes) returns (result: Parsed)
    requires input != []
    ensures result == ParseSegment(input)
  {
    if input[0] == DOT {
      var end := 1;
      while end < |input| && NameByte(input[end], end == 1)
        invariant 1 <= end <= |input|
        invariant NameLength(input[1..], true) == end - 1 + NameLength(input[end..], end == 1)
      {
        assert input[end..][1..] == input[end + 1..];
        end := end + 1;
      }
      if end == 1 {
        return Rejected(NoName);
      }
      return Parsed(Segment(input[1..end], false, false), input[end..]);
    }
    if input[0] != OPEN {
      return Rejected(UnsupportedOperator);
    }
    var inner := TrimBlanks(input[1..]);
    if inner != [] && (inner[0] == APOSTROPHE || inner[0] == QUOTE) {
      result := ScanQuotedMember(inner);
    } else {
      result := ParseIndex(inner);
    }
  }

  method ScanQuotedMember(input: bytes) returns (result: Parsed)
    requires input != []
    ensures result == ParseQuotedMember(input)
  {
    var quote := input[0];
    var normalized: bytes := [];
    var i := 1;
    BeforeNothing(Normalize(input[1..], quote));
    while i < |input|
      invariant 1 <= i <= |input|
      invariant Normalize(input[1..], quote) == Before(normalized, Normalize(input[i..], quote))
    {
      var current := input[i];
      ghost var before, left := normalized, input[i..];
      if current == quote {
        assert left[1..] == input[i + 1..];
        assert normalized + [] == normalized;
        return FinishMember(normalized, input[i + 1..]);
      }
      if current == BACKSLASH {
        i := i + 1;
        if i == |input| {
          break;
        }
        var text := if input[i] == APOSTROPHE && quote == APOSTROPHE then [APOSTROPHE] else [BACKSLASH, input[i]];
        normalized := normalized + text;
        assert left[2..] == input[i + 1..];
        BeforeTwice(before, text, Normalize(input[i + 1..], quote));
        i := i + 1;
        continue;
      }
      var text := if current == QUOTE then [BACKSLASH, QUOTE] else [current];
      normalized := normalized + text;
      assert left[1..] == input[i + 1..];
      BeforeTwice(before, text, Normalize(input[i + 1..], quote));
      i := i + 1;
    }
    result := Rejected(UnterminatedMember);
  }

  lemma BeforeNothing(r: Option<(bytes, bytes)>)
    ensures Before([], r) == r
  {
    if r.Some? {
      assert [] + r.value.0 == r.value.0;
    }
  }

  lemma BeforeTwice(a: bytes, b: bytes, r: Option<(bytes, bytes)>)
    ensures Before(a, Before(b, r)) == Before(a + b, r)
  {
    if r.Some? {
      Associative(a, b, r.value.0);
    }
  }

  // ---------- printing ----------

  /** A member or an array position of a singular path. */
  datatype Part = Name(key: bytes) | Position(index: nat)

  function HexDigit(n: nat): byte
    requires n < 16
  {
    if n < 10 then 48 + n else 'a' as int + n - 10
  }

  /** One byte of a key inside a JSON literal. */
  function LiteralByte(b: byte): bytes {
    if b == BACKSLASH then [BACKSLASH, BACKSLASH]
    else if b == QUOTE then [BACKSLASH, QUOTE]
    else if b < 0x20 then [BACKSLASH, 'u' as int, 48, 48, HexDigit(b / 16), HexDigit(b % 16)]
    else [b]
  }

  function LiteralText(key: bytes): bytes {
    if key == [] then [] else LiteralByte(key[0]) + LiteralText(key[1..])
  }

  /** One byte of a key inside a member in the given quotes. */
  function MemberByte(b: byte, quote: byte): bytes {
    if b == quote then [BACKSLASH, quote] else if b == QUOTE then [QUOTE] else LiteralByte(b)
  }

  function MemberText(key: bytes, quote: byte): bytes {
    if key == [] then [] else MemberByte(key[0], quote) + MemberText(key[1..], quote)
  }

  function PrintPart(part: Part, quote: byte): bytes {
    match part
    case Name(key) => [OPEN, quote] + (MemberText(key, quote) + [quote, CLOSE])
    case Position(i) => [OPEN] + (Itoa(i) + [CLOSE])
  }

  function PrintParts(parts: seq<Part>, quote: byte): bytes {
    if parts == [] then [] else PrintPart(parts[0], quote) + PrintParts(parts[1..], quote)
  }

  function Print(parts: seq<Part>, quote: byte): bytes {
    [DOLLAR] + PrintParts(parts, quote)
  }

  function SegmentOf(part: Part): Segment {
    match part
    case Name(key) => Segment(key, false, false)
    case Position(i) => Segment(Itoa(i), true, false)
  }

  function SegmentsOf(parts: seq<Part>): seq<Segment> {
    seq(|parts|, i requires 0 <= i < |parts| => SegmentOf(parts[i]))
  }

  predicate IsQuote(b: byte) {
    b == QUOTE || b == APOSTROPHE
  }

  lemma NormalizeByte(b: byte, quote: byte, rest: bytes)
    requires IsQuote(quote)
    ensures Normalize(MemberByte(b, quote) + rest, quote) == Before(LiteralByte(b), Normalize(rest, quote))
  {
    var text := MemberByte(b, quote);
    var all := text + rest;
    if |text| == 1 {
      assert all[1..] == rest;
    } else if |text| == 2 {
      assert all[2..] == rest;
    } else {
      NormalizeControl(text, quote, rest);
    }
  }

  /** Neither a quote nor a backslash. */
  predicate Plain(b: byte) {
    b != BACKSLASH && !IsQuote(b)
  }

  lemma {:induction false} NormalizePlainText(text: bytes, quote: byte, rest: bytes)
    requires IsQuote(quote) && forall i :: 0 <= i < |text| ==> Plain(text[i])
    ensures Normalize(text + rest, quote) == Before(text, Normalize(rest, quote))
  {
    if text == [] {
      assert text + rest == rest;
      BeforeNothing(Normalize(rest, quote));
    } else {
      NormalizePlainText(text[1..], quote, rest);
      NormalizePlain(text[0], quote, text[1..] + rest);
      BeforeTwice([text[0]], text[1..], Normalize(rest, quote));
      assert text == [text[0]] + text[1..];
      Associative([text[0]], text[1..], rest);
    }
  }

  /** A `\u00XX` escape passes through unchanged. */
  lemma NormalizeControl(text: bytes, quote: byte, rest: bytes)
    requires IsQuote(quote) && |text| == 6 && text[0] == BACKSLASH && text[1] == 'u' as int
    requires forall i :: 2 <= i < 6 ==> Plain(text[i])
    ensures Normalize(text + rest, quote) == Before(text, Normalize(rest, quote))
  {
    NormalizePlainText(text[2..], quote, rest);
    BeforeTwice(text[..2], text[2..], Normalize(rest, quote));
    assert text[..2] == [BACKSLASH, text[1]];
    assert text == text[..2] + text[2..];
    var all := text + rest;
    assert all[2..] == text[2..] + rest;
  }

  lemma NormalizePlain(b: byte, quote: byte, rest: bytes)
    requires b != quote && b != BACKSLASH && b != QUOTE
    ensures Normalize([b] + rest, quote) == Before([b], Normalize(rest, quote))
  {
    assert ([b] + rest)[1..] == rest;
  }

  /** Reading a printed member yields the inside of the key's JSON literal, in either quote style. */
  lemma {:induction false} NormalizePrinted(key: bytes, quote: byte, after: bytes)
    requires IsQuote(quote)
    ensures Normalize(MemberText(key, quote) + ([quote] + after), quote) == Some((LiteralText(key), after))
  {
    if key == [] {
      assert MemberText(key, quote) + ([quote] + after) == [quote] + after;
      assert ([quote] + after)[1..] == after;
    } else {
      NormalizePrinted(key[1..], quote, after);
      Associative(MemberByte(key[0], quote), MemberText(key[1..], quote), [quote] + after);
      NormalizeByte(key[0], quote, MemberText(key[1..], quote) + ([quote] + after));
    }
  }

  lemma {:induction false} LiteralTextAppend(a: bytes, b: bytes)
    ensures LiteralText(a + b) == LiteralText(a) + LiteralText(b)
  {
    if a == [] {
      assert a + b == b;
    } else {
      var c := a + b;
      assert c[0] == a[0];
      assert c[1..] == a[1..] + b;
      LiteralTextAppend(a[1..], b);
      Associative(LiteralByte(a[0]), LiteralText(a[1..]), LiteralText(b));
    }
  }

  lemma {:induction false} HighBytesVerbatim(s: bytes)
    requires forall i :: 0 <= i < |s| ==> s[i] >= 0x80
    ensures LiteralText(s) == s
  {
    if s != [] {
      HighBytesVerbatim(s[1..]);
    }
  }

  /** The length of a rune depends on its own bytes only. */
  lemma RuneLengthLocal(rune: bytes, rest: bytes)
    requires rune != [] && RuneLength(rune) == |rune|
    ensures RuneLength(rune + rest) == |rune|
  {
  }

  lemma RuneBytesHigh(s: bytes)
    requires s != [] && s[0] >= 0x80
    ensures forall i :: 0 <= i < RuneLength(s) ==> s[i] >= 0x80
    ensures RuneLength(s[..RuneLength(s)]) == RuneLength(s)
  {
  }

  lemma HexRoundTrip(n: nat)
    requires n < 16
    ensures HexValue(HexDigit(n)) == Some(n)
  {
  }

  /** Decoding the literal of an ASCII byte. */
  lemma LiteralAscii(b: byte, rest: bytes)
    requires b < 0x80
    ensures Literal(LiteralByte(b) + rest) == Then([b], Literal(rest))
  {
    var text := LiteralByte(b);
    var all := text + rest;
    if |text| == 1 {
      assert all[1..] == rest && all[..1] == [b];
    } else if |text| == 2 {
      assert all[2..] == rest;
    } else {
      HexRoundTrip(b / 16);
      HexRoundTrip(b % 16);
      assert all[6..] == rest;
      assert CodeUnit(all) == Some(b);
    }
  }

  /** Decoding a verbatim multi-byte rune. */
  lemma LiteralRune(rune: bytes, rest: bytes)
    requires rune != [] && rune[0] >= 0x80 && RuneLength(rune) == |rune|
    ensures Literal(rune + rest) == Then(rune, Literal(rest))
  {
    RuneLengthLocal(rune, rest);
    var all := rune + rest;
    assert all[0] == rune[0];
    assert all[..|rune|] == rune && all[|rune|..] == rest;
  }

  /** High bytes of a literal's inside stand for themselves. */
  lemma {:induction false} HighPrefix(key: bytes, m: nat)
    requires m <= |LiteralText(key)| && forall i :: 0 <= i < m ==> LiteralText(key)[i] >= 0x80
    ensures m <= |key| && key[..m] == LiteralText(key)[..m]
  {
    if m > 0 {
      var text, rest := LiteralText(key), LiteralText(key[1..]);
      assert text[0] == LiteralByte(key[0])[0];
      assert LiteralByte(key[0]) == [key[0]];
      assert text[1..] == rest;
      forall i | 0 <= i < m - 1 ensures rest[i] >= 0x80 {
        assert text[i + 1] == rest[i];
      }
      HighPrefix(key[1..], m - 1);
      forall i | 0 <= i < m ensures key[i] == text[i] {
        if i > 0 {
          assert key[1..][..m - 1][i - 1] == rest[..m - 1][i - 1];
        }
      }
    }
  }

  lemma SameRune(text: bytes, key: bytes)
    requires RuneLength(text) <= |key| && key[..RuneLength(text)] == text[..RuneLength(text)]
    requires RuneLength(text) > 0 && text[0] >= 0x80
    ensures RuneLength(key) > 0
  {
    var n := RuneLength(text);
    RuneBytesHigh(text);
    RuneLengthLocal(text[..n], key[n..]);
    assert key == text[..n] + key[n..];
  }

  lemma LiteralKeepsHigh(key: bytes)
    requires key != [] && key[0] >= 0x80
    ensures LiteralText(key) == [key[0]] + LiteralText(key[1..])
  {
  }

  /** Escaping the following bytes does not complete an ill-formed sequence. */
  lemma IllFormedStays(key: bytes)
    requires key != [] && key[0] >= 0x80
    ensures RuneLength(LiteralText(key)) > 0 ==> RuneLength(key) > 0
  {
    var text := LiteralText(key);
    LiteralKeepsHigh(key);
    if RuneLength(text) > 0 {
      RuneBytesHigh(text);
      HighPrefix(key, RuneLength(text));
      SameRune(text, key);
    }
  }

  /** A text with every byte that starts no well-formed sequence replaced by U+FFFD. */
  function Repaired(key: bytes): bytes
    decreases |key|
  {
    if key == [] then []
    else if RuneLength(key) > 0 then key[..RuneLength(key)] + Repaired(key[RuneLength(key)..])
    else REPLACEMENT + Repaired(key[1..])
  }

  lemma {:induction false} RepairedIsKeptIffValid(key: bytes)
    ensures Repaired(key) == key <==> Valid(key)
    decreases |key|
  {
    if key != [] {
      var n := RuneLength(key);
      if n > 0 {
        RepairedIsKeptIffValid(key[n..]);
        assert key == key[..n] + key[n..];
        assert Repaired(key)[n..] == Repaired(key[n..]);
      } else {
        assert Repaired(key)[..3] == REPLACEMENT;
        assert Repaired(key) != key;
      }
    }
  }

  /** One multi-byte rune and nothing else. */
  predicate HighRune(rune: bytes) {
    rune != [] && RuneLength(rune) == |rune| && forall i :: 0 <= i < |rune| ==> rune[i] >= 0x80
  }

  lemma FirstRune(key: bytes, n: nat)
    requires key != [] && key[0] >= 0x80 && 0 < n == RuneLength(key)
    ensures HighRune(key[..n])
  {
    RuneBytesHigh(key);
  }

  lemma RuneFirst(rune: bytes, rest: bytes)
    requires HighRune(rune)
    ensures Literal(LiteralText(rune + rest)) == Then(rune, Literal(LiteralText(rest)))
  {
    HighBytesVerbatim(rune);
    LiteralTextAppend(rune, rest);
    LiteralRune(rune, LiteralText(rest));
  }

  lemma Rejoin(key: bytes, n: nat)
    requires n <= |key|
    ensures key[..n] + key[n..] == key
  {
  }

  lemma RuneStep(key: bytes, n: nat)
    requires key != [] && key[0] >= 0x80 && 0 < n == RuneLength(key)
    ensures Literal(LiteralText(key)) == Then(key[..n], Literal(LiteralText(key[n..])))
  {
    FirstRune(key, n);
    RuneFirst(key[..n], key[n..]);
    Rejoin(key, n);
  }

  lemma IllFormedStep(key: bytes)
    requires key != [] && key[0] >= 0x80 && RuneLength(key) == 0
    ensures Literal(LiteralText(key)) == Then(REPLACEMENT, Literal(LiteralText(key[1..])))
  {
    var text := LiteralText(key);
    IllFormedStays(key);
    assert text[0] == key[0] && text[1..] == LiteralText(key[1..]);
    LiteralIllFormed(text);
  }

  /** A key's JSON literal decodes to the key with its ill-formed bytes replaced. */
  lemma {:induction false} LiteralOfKey(key: bytes)
    ensures Literal(LiteralText(key)) == Some(Repaired(key))
    decreases |key|
  {
    if key == [] {
    } else if key[0] < 0x80 {
      LiteralOfKey(key[1..]);
      LiteralAscii(key[0], LiteralText(key[1..]));
      assert key[..1] == [key[0]];
    } else if RuneLength(key) > 0 {
      LiteralOfKey(key[RuneLength(key)..]);
      RuneStep(key, RuneLength(key));
    } else {
      LiteralOfKey(key[1..]);
      IllFormedStep(key);
    }
  }

  lemma LiteralIllFormed(s: bytes)
    requires s != [] && s[0] >= 0x80 && RuneLength(s) == 0
    ensures Literal(s) == Then(REPLACEMENT, Literal(s[1..]))
  {
  }

  // ---------- round trip ----------

  /** What parsing one printed part yields. */
  function ReadBack(part: Part, after: bytes): Parsed {
    match part
    case Name(key) => Parsed(Segment(Repaired(key), false, false), after)
    case Position(i) => if i <= MAX_INT then Parsed(Segment(Itoa(i), true, false), after) else Rejected(BadIndex)
  }

  lemma {:induction false} IndexOfFirst(s: bytes, b: byte, after: bytes)
    requires forall i :: 0 <= i < |s| ==> s[i] != b
    ensures IndexOf(s + ([b] + after), b) == |s|
  {
    var all := s + ([b] + after);
    if s == [] {
      assert all[0] == b;
    } else {
      IndexOfFirst(s[1..], b, after);
      assert all[0] == s[0];
      assert all[1..] == s[1..] + ([b] + after);
    }
  }

  lemma AtoiBeyond(n: nat)
    requires n > MAX_INT
    ensures Atoi(Itoa(n)) == None
  {
    ItoaDigits(n);
    assert IsDigit(Itoa(n)[0]);
  }

  lemma IndexText(key: bytes, after: bytes)
    requires AllDigits(key)
    ensures
      var input := key + ([CLOSE] + after);
      IndexOf(input, CLOSE) == |key| && input[..|key|] == key && input[|key| + 1..] == after && TrimSpace(key) == key
  {
    IndexOfFirst(key, CLOSE, after);
    DigitsUntrimmed(key);
  }

  lemma IndexReadBack(i: nat, after: bytes)
    ensures ParseIndex(Itoa(i) + ([CLOSE] + after)) == ReadBack(Position(i), after)
  {
    ItoaDigits(i);
    IndexText(Itoa(i), after);
    if i <= MAX_INT {
      AtoiItoa(i);
    } else {
      AtoiBeyond(i);
    }
  }

  lemma PositionReadBack(i: nat, after: bytes)
    ensures ParseSegment([OPEN] + (Itoa(i) + ([CLOSE] + after))) == ReadBack(Position(i), after)
  {
    ItoaDigits(i);
    IndexReadBack(i, after);
    DigitsFirst(Itoa(i), [CLOSE] + after);
  }

  lemma DigitsFirst(key: bytes, after: bytes)
    requires key != [] && AllDigits(key)
    ensures ParseSegment([OPEN] + (key + after)) == ParseIndex(key + after)
  {
    var inner := key + after;
    var input := [OPEN] + inner;
    assert input[0] == OPEN && input[1..] == inner;
    assert inner[0] == key[0] && IsDigit(inner[0]);
    assert TrimBlanks(inner) == inner;
  }

  lemma NameReadBack(key: bytes, quote: byte, after: bytes)
    requires IsQuote(quote)
    ensures ParseSegment([OPEN] + ([quote] + (MemberText(key, quote) + ([quote] + ([CLOSE] + after))))) == ReadBack(Name(key), after)
  {
    var body := MemberText(key, quote) + ([quote] + ([CLOSE] + after));
    var inner := [quote] + body;
    var input := [OPEN] + inner;
    assert input[0] == OPEN && input[1..] == inner;
    assert inner[0] == quote && inner[1..] == body;
    assert TrimBlanks(inner) == inner;
    NormalizePrinted(key, quote, [CLOSE] + after);
    LiteralOfKey(key);
    FinishPrinted(LiteralText(key), Repaired(key), after);
  }

  lemma FinishPrinted(normalized: bytes, key: bytes, after: bytes)
    requires Literal(normalized) == Some(key)
    ensures FinishMember(normalized, [CLOSE] + after) == Parsed(Segment(key, false, false), after)
  {
    var rest := [CLOSE] + after;
    assert rest[0] == CLOSE && rest[1..] == after;
  }

  lemma PartReadBack(part: Part, quote: byte, after: bytes)
    requires IsQuote(quote)
    ensures PrintPart(part, quote) + after != []
    ensures ParseSegment(PrintPart(part, quote) + after) == ReadBack(part, after)
  {
    match part
    case Name(key) =>
      NameReadBack(key, quote, after);
      NameLayout(MemberText(key, quote), quote, after);
    case Position(i) =>
      PositionReadBack(i, after);
      PositionLayout(Itoa(i), after);
  }

  lemma NameLayout(text: bytes, quote: byte, after: bytes)
    ensures [OPEN, quote] + (text + [quote, CLOSE]) + after == [OPEN] + ([quote] + (text + ([quote] + ([CLOSE] + after))))
  {
  }

  lemma PositionLayout(text: bytes, after: bytes)
    ensures [OPEN] + (text + [CLOSE]) + after == [OPEN] + (text + ([CLOSE] + after))
  {
  }

  /** Whether a part survives printing and parsing. */
  predicate Printable(part: Part) {
    match part
    case Name(key) => Valid(key)
    case Position(i) => i <= MAX_INT
  }

  predicate AllPrintable(parts: seq<Part>) {
    forall i :: 0 <= i < |parts| ==> Printable(parts[i])
  }

  lemma {:induction false} PartsReadBack(parts: seq<Part>, quote: byte)
    requires IsQuote(quote)
    ensures ParseSegments(PrintParts(parts, quote)) == Ok(SegmentsOf(parts)) <==> AllPrintable(parts)
  {
    if parts == [] {
      assert SegmentsOf(parts) == [];
    } else {
      var part, rest := parts[0], parts[1..];
      var after := PrintParts(rest, quote);
      PartsReadBack(rest, quote);
      PartReadBack(part, quote, after);
      assert parts == [part] + rest;
      SegmentsCons(part, rest);
      AllPrintableCons(part, rest);
      ReadBackExact(part, after);
      HeadAndTail(PrintPart(part, quote) + after, SegmentOf(part), SegmentsOf(rest));
    }
  }

  lemma AllPrintableCons(part: Part, rest: seq<Part>)
    ensures AllPrintable([part] + rest) == (Printable(part) && AllPrintable(rest))
  {
    if AllPrintable([part] + rest) {
      assert Printable(([part] + rest)[0]);
      forall i | 0 <= i < |rest| ensures Printable(rest[i]) {
        assert ([part] + rest)[i + 1] == rest[i];
      }
    }
  }

  lemma ReadBackExact(part: Part, after: bytes)
    ensures ReadBack(part, after) == Parsed(SegmentOf(part), after) <==> Printable(part)
    ensures ReadBack(part, after).Parsed? ==> ReadBack(part, after).rest == after
  {
    if part.Name? {
      RepairedIsKeptIffValid(part.key);
    }
  }

  lemma SegmentsCons(part: Part, rest: seq<Part>)
    ensures SegmentsOf([part] + rest) == [SegmentOf(part)] + SegmentsOf(rest)
  {
  }

  lemma HeadAndTail(input: bytes, first: Segment, more: seq<Segment>)
    requires input != []
    ensures ParseSegments(input) == Ok([first] + more) <==>
            var r := ParseSegment(input); r.Parsed? && r.segment == first && ParseSegments(r.rest) == Ok(more)
  {
    var r := ParseSegment(input);
    if r.Parsed? {
      SegmentShortens(input);
      var tail := ParseSegments(r.rest);
      if tail.Ok? {
        var whole := [r.segment] + tail.value;
        assert whole[0] == r.segment && whole[1..] == tail.value;
        assert ([first] + more)[0] == first && ([first] + more)[1..] == more;
      }
    }
  }

  /**
   * Printing member names and positions as a quoted JSONPath and parsing it, in either quote style,
   * gives the same list back exactly when every name is well-formed UTF-8 and every position fits an int.
   */
  lemma ParsePrinted(parts: seq<Part>, quote: byte)
    requires IsQuote(quote) && parts != []
    ensures Parse(Print(parts, quote)) == Ok(SegmentsOf(parts)) <==> AllPrintable(parts)
  {
    PartsReadBack(parts, quote);
    PartReadBack(parts[0], quote, PrintParts(parts[1..], quote));
    var text := Print(parts, quote);
    assert text[0] == DOLLAR && text[1..] == PrintParts(parts, quote);
  }

  // ---------- dotted names ----------

  /** A name a dotted segment can carry: a letter or underscore, then letters, underscores and digits. */
  predicate DottedName(name: bytes) {
    name != [] && NameByte(name[0], true) && forall i :: 0 < i < |name| ==> NameByte(name[i], false)
  }

  predicate EndsName(after: bytes) {
    after == [] || !NameByte(after[0], false)
  }

  lemma {:induction false} NameLengthExact(name: bytes, after: bytes, first: bool)
    requires forall i :: 0 <= i < |name| ==> NameByte(name[i], first && i == 0)
    requires EndsName(after) && (first ==> name != [])
    ensures NameLength(name + after, first) == |name|
  {
    var all := name + after;
    if name == [] {
      assert all == after;
    } else {
      assert all[0] == name[0] && all[1..] == name[1..] + after;
      NameLengthExact(name[1..], after, false);
    }
  }

  lemma {:induction false} NameLengthBytes(s: bytes, first: bool)
    ensures forall i :: 0 <= i < NameLength(s, first) ==> NameByte(s[i], first && i == 0)
  {
    if NameLength(s, first) > 0 {
      NameLengthBytes(s[1..], false);
    }
  }

  /** A dotted name is read up to the first byte that cannot continue it. */
  lemma DottedReadBack(name: bytes, after: bytes)
    requires DottedName(name) && EndsName(after)
    ensures ParseSegment([DOT] + (name + after)) == Parsed(Segment(name, false, false), after)
  {
    var input := [DOT] + (name + after);
    assert input[0] == DOT && input[1..] == name + after;
    NameLengthExact(name, after, true);
    assert input[1..1 + |name|] == name && input[1 + |name|..] == after;
  }

  /** Whatever a dotted segment yields is a dotted name, and its text is the segment's. */
  lemma DottedSound(input: bytes)
    requires input != [] && input[0] == DOT && ParseSegment(input).Parsed?
    ensures
      var r := ParseSegment(input);
      DottedName(r.segment.key) && !r.segment.index && !r.segment.pointer && input == [DOT] + (r.segment.key + r.rest)
  {
    NameLengthBytes(input[1..], true);
    var n := NameLength(input[1..], true);
    assert forall i :: 0 <= i < n ==> input[1..1 + n][i] == input[1..][i];
    assert input == [DOT] + (input[1..1 + n] + input[1 + n..]);
  }

  function DottedParts(names: seq<bytes>): bytes {
    if names == [] then [] else [DOT] + (names[0] + DottedParts(names[1..]))
  }

  function NameSegments(names: seq<bytes>): seq<Segment> {
    seq(|names|, i requires 0 <= i < |names| => Segment(names[i], false, false))
  }

  lemma NameSegmentsCons(name: bytes, rest: seq<bytes>)
    ensures NameSegments([name] + rest) == [Segment(name, false, false)] + NameSegments(rest)
  {
  }

  lemma {:induction false} DottedPartsReadBack(names: seq<bytes>)
    ensures ParseSegments(DottedParts(names)) == Ok(NameSegments(names)) <==> forall i :: 0 <= i < |names| ==> DottedName(names[i])
  {
    if names == [] {
      assert NameSegments(names) == [];
    } else {
      var name, rest := names[0], names[1..];
      var after := DottedParts(rest);
      var input := DottedParts(names);
      assert names == [name] + rest;
      assert input[0] == DOT;
      DottedPartsReadBack(rest);
      NameSegmentsCons(name, rest);
      HeadAndTail(input, Segment(name, false, false), NameSegments(rest));
      if DottedName(name) {
        DottedReadBack(name, after);
      } else if ParseSegment(input).Parsed? {
        DottedSound(input);
      }
      if ParseSegment(input).Parsed? && ParseSegment(input).segment == Segment(name, false, false) {
        DottedSound(input);
        SameTail(name, ParseSegment(input).rest, after);
      }
    }
  }

  lemma SameTail(name: bytes, a: bytes, b: bytes)
    requires [DOT] + (name + a) == [DOT] + (name + b)
    ensures a == b
  {
    assert ([DOT] + (name + a))[1 + |name|..] == a;
    assert ([DOT] + (name + b))[1 + |name|..] == b;
  }

  /** Writing names with dots and parsing the path gives the same list back exactly when every name can stand after a dot. */
  lemma ParseDotted(names: seq<bytes>)
    requires names != []
    ensures Parse([DOLLAR] + DottedParts(names)) == Ok(NameSegments(names)) <==> forall i :: 0 <= i < |names| ==> DottedName(names[i])
  {
    var text := [DOLLAR] + DottedParts(names);
    assert text[0] == DOLLAR && text[1..] == DottedParts(names) && |text| > 1;
    DottedPartsReadBack(names);
  }

  /** An accepted index is the canonical decimal text of a position, up to white space around it. */
  lemma IndexCanonical(input: bytes) returns (n: nat)
    requires ParseIndex(input).Parsed?
    ensures n <= MAX_INT
    ensures
      var end := IndexOf(input, CLOSE);
      && end < |input|
      && TrimSpace(input[..end]) == Itoa(n)
      && ParseIndex(input) == Parsed(Segment(Itoa(n), true, false), input[end + 1..])
  {
    n := Canonical(TrimSpace(input[..IndexOf(input, CLOSE)]));
  }

  lemma Canonical(key: bytes) returns (n: nat)
    requires Atoi(key).Some? && Atoi(key).value >= 0 && Itoa(Atoi(key).value) == key
    ensures n <= MAX_INT && key == Itoa(n)
  {
    n := Atoi(key).value;
  }
}

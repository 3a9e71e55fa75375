/**
 Rendered JSON difference paths (internal/compare/json.go): location lists and their text.
 Quotes in keys are escaped, backslashes are not; the text still determines the location.
 */
module JsonPaths {
  import opened Common
  import opened GoText

  datatype Step = Member(key: string) | Element(index: nat)

  type Location = seq<Step>

  predicate SimpleChar(c: char) {
    c == '_' || 'a' <= c <= 'z' || 'A' <= c <= 'Z' || '0' <= c <= '9'
  }

  predicate AllSimple(key: string) {
    forall i :: 0 <= i < |key| ==> SimpleChar(key[i])
  }

  /** `isSimpleJSONKey` */
  predicate IsSimpleKey(key: string) {
    key != "" && AllSimple(key)
  }

  /** `strings.ReplaceAll(key, "\"", "\\\"")` */
  function Escape(key: string): string {
    if key == "" then ""
    else (if key[0] == '"' then "\\\"" else [key[0]]) + Escape(key[1..])
  }

  function Segment(step: Step): string {
    match step
    case Member(key) => if IsSimpleKey(key) then "." + key else "[\"" + Escape(key) + "\"]"
    case Element(i) => "[" + Decimal(i) + "]"
  }

  function Segments(location: Location): seq<string> {
    seq(|location|, i requires 0 <= i < |location| => Segment(location[i]))
  }

  function Render(location: Location): string {
    Flatten(Segments(location))
  }

  function PathText(location: Location): string {
    "$" + Render(location)
  }

  /** `appendJSONKey` */
  function AppendKey(path: string, key: string): string {
    var base := if path == "" then "$" else path;
    if IsSimpleKey(key) then base + "." + key else base + "[\"" + Escape(key) + "\"]"
  }

  function AppendIndex(path: string, i: nat): string {
    path + "[" + Decimal(i) + "]"
  }

  lemma RenderAppend(a: Location, b: Location)
    ensures Render(a + b) == Render(a) + Render(b)
  {
    FlattenAppend(Segments(a), Segments(b));
    SegmentsAppend(a, b);
  }

  lemma SegmentsAppend(a: Location, b: Location)
    ensures Segments(a + b) == Segments(a) + Segments(b)
  {
  }

  lemma RenderCons(location: Location)
    requires location != []
    ensures Render(location) == Segment(location[0]) + Render(location[1..])
  {
    assert Segments(location)[1..] == Segments(location[1..]);
  }

  lemma RenderOne(step: Step)
    ensures Render([step]) == Segment(step)
  {
    assert Segments([step]) == [Segment(step)];
    FlattenAppend([Segment(step)], []);
  }

  /** The paths the comparator builds from the left are the rendered locations. */
  lemma AppendStep(location: Location, key: string, i: nat)
    ensures AppendKey(PathText(location), key) == PathText(location + [Member(key)])
    ensures AppendIndex(PathText(location), i) == PathText(location + [Element(i)])
  {
    RenderAppend(location, [Member(key)]);
    RenderAppend(location, [Element(i)]);
    RenderOne(Member(key));
    RenderOne(Element(i));
    Associative("$", Render(location), Segment(Member(key)));
    Associative("$", Render(location), Segment(Element(i)));
    if IsSimpleKey(key) {
      Associative(PathText(location), ".", key);
    } else {
      Associative(PathText(location), "[\"", Escape(key));
      Associative(PathText(location), "[\"" + Escape(key), "\"]");
    }
    Associative(PathText(location), "[", Decimal(i));
    Associative(PathText(location), "[" + Decimal(i), "]");
  }

  // ---------- tokens ----------

  /** Every quote of the content is preceded by a backslash of the content. */
  predicate QuotesEscaped(content: string) {
    forall i :: 0 <= i < |content| && content[i] == '"' ==> i > 0 && content[i - 1] == '\\'
  }

  lemma {:induction false} EscapeQuotes(key: string)
    ensures QuotesEscaped(Escape(key))
  {
    if key != "" {
      EscapeQuotes(key[1..]);
      var rest := Escape(key[1..]);
      if key[0] == '"' {
        assert Escape(key) == ['\\', '"'] + rest;
      } else {
        assert Escape(key) == [key[0]] + rest;
      }
    }
  }

  /** Which of the two forms the first character takes, and what remains. */
  lemma EscapeParts(key: string)
    requires key != ""
    ensures var n := if key[0] == '"' then 2 else 1;
            |Escape(key)| >= n && Escape(key)[n..] == Escape(key[1..])
    ensures Escape(key)[0] == if key[0] == '"' then '\\' else key[0]
    ensures |Escape(key)| >= 2 ==> (Escape(key)[1] == '"' <==> key[0] == '"')
  {
    EscapeQuotes(key[1..]);
    var rest := Escape(key[1..]);
    if key[0] == '"' {
      assert Escape(key) == ['\\', '"'] + rest;
    } else {
      assert Escape(key) == [key[0]] + rest;
      assert |rest| > 0 ==> Escape(key)[1] == rest[0];
    }
  }

  lemma {:induction false} EscapeInjective(a: string, b: string)
    requires Escape(a) == Escape(b)
    ensures a == b
  {
    if a != "" {
      EscapeParts(a);
    }
    if b != "" {
      EscapeParts(b);
    }
    if a != "" && b != "" {
      assert (a[0] == '"') == (b[0] == '"');
      EscapeInjective(a[1..], b[1..]);
      assert a == [a[0]] + a[1..] && b == [b[0]] + b[1..];
    }
  }

  lemma RenderHead(location: Location)
    ensures Render(location) != "" ==> Render(location)[0] == '.' || Render(location)[0] == '['
    ensures location != [] ==> Render(location) != ""
  {
    if location == [] {
      assert Segments(location) == [];
    } else {
      RenderCons(location);
    }
  }

  /** A maximal run of characters of one class is determined by the text. */
  lemma SpanUnique(p: char -> bool, a: string, r: string, b: string, s: string)
    requires a + r == b + s
    requires (forall i :: 0 <= i < |a| ==> p(a[i])) && (forall i :: 0 <= i < |b| ==> p(b[i]))
    requires (r != "" ==> !p(r[0])) && (s != "" ==> !p(s[0]))
    ensures a == b && r == s
  {
    SpanLength(p, a, r, b, s);
    SpanLength(p, b, s, a, r);
    var text := a + r;
    assert a == text[..|a|] && b == text[..|b|];
    assert r == text[|a|..] && s == text[|b|..];
  }

  lemma SpanLength(p: char -> bool, a: string, r: string, b: string, s: string)
    requires a + r == b + s
    requires forall i :: 0 <= i < |b| ==> p(b[i])
    requires r != "" ==> !p(r[0])
    ensures |b| <= |a|
  {
    if r != "" {
      assert (a + r)[|a|] == r[0];
      assert forall i :: 0 <= i < |b| ==> (b + s)[i] == b[i];
    }
  }

  predicate Quoted(step: Step) {
    step.Member? && !IsSimpleKey(step.key)
  }

  lemma UnquotedHasNoQuotes(step: Step)
    requires !Quoted(step)
    ensures forall i :: 0 <= i < |Segment(step)| ==> Segment(step)[i] != '"' && Segment(step)[i] != '\\'
    ensures |Segment(step)| >= 2
  {
    if step.Element? {
      DecimalDigits(step.index);
    }
  }

  const CLOSE := "\"]"

  /** One reader passes a segment without quotes while the other is still inside its key. */
  lemma SkipUnquoted(segment: string, rest: string, content: string, tail: string)
    requires segment + rest == content + CLOSE + tail
    requires forall i :: 0 <= i < |segment| ==> segment[i] != '"' && segment[i] != '\\'
    requires |segment| > 0 && (rest != "" ==> rest[0] != '"') && QuotesEscaped(content)
    ensures |segment| <= |content|
    ensures rest == content[|segment|..] + CLOSE + tail && QuotesEscaped(content[|segment|..])
  {
    var text := segment + rest;
    assert text[|content|] == CLOSE[0];
    assert |segment| <= |content|;
    var left := content[|segment|..];
    assert rest == text[|segment|..];
    assert text[|segment|..] == left + CLOSE + tail;
    forall i | 0 <= i < |left| && left[i] == '"' ensures i > 0 && left[i - 1] == '\\' {
      assert content[|segment| + i] == '"' && content[|segment| + i - 1] == '\\';
      assert rest[0] == left[0];
    }
  }

  /** A quoted segment opens exactly where the other reader's key closes; the roles are exchanged. */
  lemma SwitchSides(key: string, rest: string, content: string, tail: string)
    requires "[\"" + key + CLOSE + rest == content + CLOSE + tail
    requires QuotesEscaped(content) && QuotesEscaped(key)
    ensures key != "" && tail == key[1..] + CLOSE + rest && QuotesEscaped(key[1..])
  {
    var text := "[\"" + key + CLOSE + rest;
    assert text[0] == '[' && text[1] == '"';
    assert text[|content|] == CLOSE[0] && text[|content| + 1] == CLOSE[1];
    assert forall i :: 0 <= i < |content| ==> text[i] == content[i];
    assert |content| == 1;
    assert text[2] == ']';
    assert text[2..] == key + CLOSE + rest;
    assert text[3..] == tail;
    assert key != "" && key[0] == ']';
    assert tail == (key + CLOSE + rest)[1..];
    forall i | 0 <= i < |key[1..]| && key[1..][i] == '"' ensures i > 0 && key[1..][i - 1] == '\\' {
      assert key[i + 1] == '"';
    }
  }

  /** The reader whose key is shorter closes it at an escaped quote of the longer one. */
  lemma LeaveEarly(x: string, r: string, y: string, s: string)
    requires x + CLOSE + r == y + CLOSE + s
    requires QuotesEscaped(y) && |x| < |y|
    ensures |x| + 2 <= |y| && r == y[|x| + 2..] + CLOSE + s && QuotesEscaped(y[|x| + 2..])
  {
    var text := x + CLOSE + r;
    assert text[|x|] == CLOSE[0] && text[|x| + 1] == CLOSE[1] && text[|y|] == CLOSE[0];
    assert |x| + 2 <= |y|;
    assert text[|x| + 2..] == r;
    var content := y[|x| + 2..];
    assert text[|x| + 2..] == content + CLOSE + s;
    assert y[|x| + 1] == ']';
    forall i | 0 <= i < |content| && content[i] == '"' ensures i > 0 && content[i - 1] == '\\' {
      assert y[|x| + 2 + i] == '"' && y[|x| + 1 + i] == '\\';
    }
  }

  lemma QuotedText(location: Location)
    requires location != [] && Quoted(location[0])
    ensures Render(location) == "[\"" + Escape(location[0].key) + CLOSE + Render(location[1..])
  {
    RenderCons(location);
  }

  lemma UnquotedText(location: Location)
    requires location != [] && !Quoted(location[0])
    ensures Render(location) == match location[0]
                                case Member(key) => "." + (key + Render(location[1..]))
                                case Element(i) => "[" + (Decimal(i) + ("]" + Render(location[1..])))
  {
    RenderCons(location);
    match location[0]
    case Member(key) => Associative(".", key, Render(location[1..]));
    case Element(i) =>
      Associative("[" + Decimal(i), "]", Render(location[1..]));
      Associative("[", Decimal(i), "]" + Render(location[1..]));
  }

  /** A reader inside a quoted key and a reader outside of one never agree on the rest of a path: from then on each bare quote opens for one and closes for the other. */
  lemma {:induction false} InsideOutside(outside: Location, content: string, after: Location)
    requires QuotesEscaped(content)
    ensures Render(outside) != content + CLOSE + Render(after)
    decreases |Render(outside)|
  {
    if outside != [] && Render(outside) == content + CLOSE + Render(after) {
      if Quoted(outside[0]) {
        var key := outside[0].key;
        QuotedText(outside);
        EscapeQuotes(key);
        SwitchSides(Escape(key), Render(outside[1..]), content, Render(after));
        InsideOutside(after, Escape(key)[1..], outside[1..]);
      } else {
        UnquotedHasNoQuotes(outside[0]);
        RenderCons(outside);
        RenderHead(outside[1..]);
        SkipUnquoted(Segment(outside[0]), Render(outside[1..]), content, Render(after));
        InsideOutside(outside[1..], content[|Segment(outside[0])|..], after);
      }
    }
  }

  // ---------- unique decoding ----------

  lemma QuotedUnique(a: Location, b: Location)
    requires a != [] && b != [] && Quoted(a[0]) && Quoted(b[0])
    requires Render(a) == Render(b)
    requires |Escape(a[0].key)| <= |Escape(b[0].key)|
    ensures a[0] == b[0] && Render(a[1..]) == Render(b[1..])
  {
    var x, y := Escape(a[0].key), Escape(b[0].key);
    var r, s := Render(a[1..]), Render(b[1..]);
    QuotedText(a);
    QuotedText(b);
    OpenSplit(x, r, y, s);
    EscapeQuotes(b[0].key);
    if |x| < |y| {
      LeaveEarly(x, r, y, s);
      InsideOutside(a[1..], y[|x| + 2..], b[1..]);
    } else {
      CloseSplit(x, r, y, s);
      EscapeInjective(a[0].key, b[0].key);
    }
  }

  lemma SamePrefix(p: string, r: string, s: string, text: string)
    requires text == p + r == p + s
    ensures r == s
  {
    assert r == text[|p|..] == s;
  }

  lemma OpenSplit(x: string, r: string, y: string, s: string)
    requires "[\"" + x + CLOSE + r == "[\"" + y + CLOSE + s
    ensures x + CLOSE + r == y + CLOSE + s
  {
    var text := "[\"" + x + CLOSE + r;
    assert text[2..] == x + CLOSE + r;
    assert text[2..] == y + CLOSE + s;
  }

  lemma CloseSplit(x: string, r: string, y: string, s: string)
    requires x + CLOSE + r == y + CLOSE + s && |x| == |y|
    ensures x == y && r == s
  {
    var text := x + CLOSE + r;
    assert text[..|x|] == x && text[..|y|] == y;
    assert text[|x| + 2..] == r && text[|y| + 2..] == s;
  }

  lemma UnquotedUnique(a: Location, b: Location)
    requires a != [] && b != [] && Render(a) == Render(b)
    requires (a[0].Element? && b[0].Element?) || (a[0].Member? && b[0].Member? && IsSimpleKey(a[0].key) && IsSimpleKey(b[0].key))
    ensures a[0] == b[0] && Render(a[1..]) == Render(b[1..])
  {
    var r, s := Render(a[1..]), Render(b[1..]);
    UnquotedText(a);
    UnquotedText(b);
    if a[0].Element? {
      var x, y := Decimal(a[0].index), Decimal(b[0].index);
      DecimalDigits(a[0].index);
      DecimalDigits(b[0].index);
      SamePrefix("[", x + ("]" + r), y + ("]" + s), Render(a));
      SpanUnique(c => DigitChar(c), x, "]" + r, y, "]" + s);
      SamePrefix("]", r, s, "]" + r);
      DecimalInjective(a[0].index, b[0].index);
    } else {
      RenderHead(a[1..]);
      RenderHead(b[1..]);
      SamePrefix(".", a[0].key + r, b[0].key + s, Render(a));
      SpanUnique(c => SimpleChar(c), a[0].key, r, b[0].key, s);
    }
  }

  lemma HeadsAgree(a: Location, b: Location)
    requires a != [] && b != [] && Render(a) == Render(b)
    ensures a[0] == b[0] && Render(a[1..]) == Render(b[1..])
  {
    SecondChar(a);
    SecondChar(b);
    if Quoted(a[0]) && Quoted(b[0]) {
      if |Escape(a[0].key)| <= |Escape(b[0].key)| {
        QuotedUnique(a, b);
      } else {
        QuotedUnique(b, a);
      }
    } else {
      UnquotedUnique(a, b);
    }
  }

  /** The first two characters tell a simple key, a quoted key and an index apart. */
  lemma SecondChar(a: Location)
    requires a != []
    ensures |Render(a)| >= 2
    ensures Render(a)[0] == '.' <==> a[0].Member? && IsSimpleKey(a[0].key)
    ensures Render(a)[0] == '[' && Render(a)[1] == '"' <==> Quoted(a[0])
    ensures Render(a)[0] == '[' && DigitChar(Render(a)[1]) <==> a[0].Element?
  {
    if Quoted(a[0]) {
      QuotedText(a);
    } else {
      UnquotedText(a);
      if a[0].Element? {
        DecimalDigits(a[0].index);
      }
    }
  }

  /** Two different locations never render to the same path text. */
  lemma {:induction false} PathsUniquelyDecodable(a: Location, b: Location)
    requires PathText(a) == PathText(b)
    ensures a == b
    decreases |a|
  {
    assert Render(a) == PathText(a)[1..] == PathText(b)[1..] == Render(b);
    RenderHead(a);
    RenderHead(b);
    if a != [] && b != [] {
      HeadsAgree(a, b);
      PathsUniquelyDecodable(a[1..], b[1..]);
      assert a == [a[0]] + a[1..] && b == [b[0]] + b[1..];
    }
  }
}

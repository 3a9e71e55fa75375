/** Resolving a parsed selector in a document (internal/logging/json_fields.go). */
module JsonLookup {
  import opened Common
  import opened GoText
  import opened JsonSelector
  import opened JsonValues
  import JsonPointer

  type Doc = Value<bytes>

  /** One turn of the loop; `None` is the early return of nil. */
  function Follow(value: Doc, token: Segment): Option<Doc> {
    match value
    case Obj(members) =>
      if token.index then None else Some(if token.key in members then members[token.key] else Null)
    case Arr(elems) =>
      if !token.index && !token.pointer then None
      else
        var index := Atoi(token.key);
        if index.None? || index.value < 0 || index.value >= |elems| || Itoa(index.value) != token.key then None
        else Some(elems[index.value])
    case _ => None
  }

  function Resolve(value: Doc, tokens: seq<Segment>): Doc
    decreases |tokens|
  {
    if tokens == [] then value
    else
      match Follow(value, tokens[0])
      case None => Null
      case Some(next) => Resolve(next, tokens[1..])
  }

  method ResolveJSONPointer(document: Doc, tokens: seq<Segment>) returns (value: Doc)
    ensures value == Resolve(document, tokens)
  {
    value := document;
    var i := 0;
    assert tokens[0..] == tokens;
    while i < |tokens|
      invariant 0 <= i <= |tokens|
      invariant Resolve(document, tokens) == Resolve(value, tokens[i..])
    {
      var token := tokens[i];
      ghost var left := tokens[i..];
      assert left[0] == token && left[1..] == tokens[i + 1..];
      match value {
        case Obj(members) =>
          if token.index {
            return Null;
          }
          value := if token.key in members then members[token.key] else Null;
        case Arr(elems) =>
          if !token.index && !token.pointer {
            return Null;
          }
          var index := Atoi(token.key);
          if index.None? || index.value < 0 || index.value >= |elems| || Itoa(index.value) != token.key {
            return Null;
          }
          value := elems[index.value];
        case _ =>
          return Null;
      }
      i := i + 1;
    }
  }

  // ---------- locations ----------

  /** The child of a document at a member name or position; nothing fits a step of the other kind. */
  function Child(value: Doc, part: Part): Doc {
    match part
    case Name(key) => if value.Obj? && key in value.members then value.members[key] else Null
    case Position(i) => if value.Arr? && i < |value.elems| then value.elems[i] else Null
  }

  function At(value: Doc, parts: seq<Part>): Doc
    decreases |parts|
  {
    if parts == [] then value else At(Child(value, parts[0]), parts[1..])
  }

  /** Whether each part is of the kind of the container it is applied to. */
  predicate Along(value: Doc, parts: seq<Part>)
    decreases |parts|
  {
    parts == [] || ((if parts[0].Name? then value.Obj? else value.Arr?) && Along(Child(value, parts[0]), parts[1..]))
  }

  function TokenOf(part: Part): bytes {
    match part
    case Name(key) => key
    case Position(i) => Itoa(i)
  }

  function TokensOf(parts: seq<Part>): seq<bytes> {
    seq(|parts|, i requires 0 <= i < |parts| => TokenOf(parts[i]))
  }

  lemma {:induction false} NullEverywhere(parts: seq<Part>)
    ensures At(Null, parts) == Null
  {
    if parts != [] {
      NullEverywhere(parts[1..]);
    }
  }

  /** A path segment reaches the child its part names, and nothing where the kinds differ. */
  lemma FollowPart(value: Doc, part: Part)
    requires Printable(part)
    ensures
      var r := Follow(value, SegmentOf(part));
      (if r.Some? then r.value else Null) == Child(value, part)
  {
    if part.Position? {
      AtoiItoa(part.index);
    }
  }

  lemma {:induction false} ResolveParts(value: Doc, parts: seq<Part>)
    requires AllPrintable(parts)
    ensures Resolve(value, SegmentsOf(parts)) == At(value, parts)
    decreases |parts|
  {
    if parts == [] {
      assert SegmentsOf(parts) == [];
    } else {
      var part, rest := parts[0], parts[1..];
      assert parts == [part] + rest;
      SegmentsCons(part, rest);
      AllPrintableCons(part, rest);
      FollowPart(value, part);
      ResolveParts(Child(value, part), rest);
      var segments := SegmentsOf(parts);
      assert segments[0] == SegmentOf(part) && segments[1..] == SegmentsOf(rest);
      if Follow(value, SegmentOf(part)).None? {
        NullEverywhere(rest);
      }
    }
  }

  /** Selecting by the printed path of a location yields the value at that location, in either quote style. */
  lemma PathSelectsLocation(document: Doc, parts: seq<Part>, quote: byte)
    requires IsQuote(quote) && parts != [] && AllPrintable(parts)
    ensures Parse(Print(parts, quote)).Ok?
    ensures Resolve(document, Parse(Print(parts, quote)).value) == At(document, parts)
  {
    ParsePrinted(parts, quote);
    ResolveParts(document, parts);
  }

  lemma FollowToken(value: Doc, part: Part)
    requires if part.Name? then value.Obj? else value.Arr? && part.index <= MAX_INT
    ensures
      var r := Follow(value, Segment(TokenOf(part), false, true));
      (if r.Some? then r.value else Null) == Child(value, part)
  {
    if part.Position? {
      AtoiItoa(part.index);
    }
  }

  /** Every position of a location fits an int. */
  predicate Positions(parts: seq<Part>) {
    forall i :: 0 <= i < |parts| ==> parts[i].Position? ==> parts[i].index <= MAX_INT
  }

  lemma {:induction false} ResolveTokens(value: Doc, parts: seq<Part>)
    requires Along(value, parts) && Positions(parts)
    ensures Resolve(value, PointerSegments(TokensOf(parts))) == At(value, parts)
    decreases |parts|
  {
    if parts == [] {
      assert PointerSegments(TokensOf(parts)) == [];
    } else {
      var part, rest := parts[0], parts[1..];
      FollowToken(value, part);
      ResolveTokens(Child(value, part), rest);
      var segments := PointerSegments(TokensOf(parts));
      assert segments[0] == Segment(TokenOf(part), false, true);
      assert segments[1..] == PointerSegments(TokensOf(rest));
      if Follow(value, segments[0]).None? {
        NullEverywhere(rest);
      }
    }
  }

  /** Selecting by the pointer of a location, whatever bytes its names hold, yields the value at that location. */
  lemma PointerSelectsLocation(document: Doc, parts: seq<Part>)
    requires parts != [] && Along(document, parts) && Positions(parts)
    ensures Parse(JsonPointer.Print(TokensOf(parts))).Ok?
    ensures Resolve(document, Parse(JsonPointer.Print(TokensOf(parts))).value) == At(document, parts)
  {
    JsonPointer.ParsePrinted(TokensOf(parts));
    ResolveTokens(document, parts);
  }

  /** The part a segment follows in this container. */
  function Taken(value: Doc, token: Segment): Part
    requires Follow(value, token).Some?
  {
    if value.Obj? then Name(token.key) else Position(Atoi(token.key).value)
  }

  /** A selector is singular: what it selects is the value at one location of the document. */
  lemma {:induction false} SelectedLocation(value: Doc, tokens: seq<Segment>) returns (parts: seq<Part>)
    requires Resolve(value, tokens) != Null
    ensures |parts| == |tokens| && Along(value, parts) && At(value, parts) == Resolve(value, tokens)
    ensures forall i :: 0 <= i < |parts| ==> TokenOf(parts[i]) == tokens[i].key
    decreases |tokens|
  {
    if tokens == [] {
      parts := [];
    } else {
      var first := Taken(value, tokens[0]);
      var rest := SelectedLocation(Child(value, first), tokens[1..]);
      parts := [first] + rest;
      assert parts[1..] == rest;
    }
  }
}

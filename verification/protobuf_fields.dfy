/** Log fields selected from a protobuf message by field-number path (internal/logging/protobuf_fields.go). */
module ProtobufFields {
  import opened Common
  import opened ProtoWire
  import GoText
  import Utf8

  datatype Kind = StringKind | BoolKind | Int64Kind | Uint64Kind | Sint64Kind

  datatype Value = Text(text: bytes) | Flag(flag: bool) | Integer(number: int)

  const MAX_MESSAGE := 65536
  const MAX_VALUE := 4096
  const MAX_TOTAL := 16384

  // ---------- scalars ----------

  /** `int64(v)` */
  function Signed(v: nat): int {
    if v < 0x8000_0000_0000_0000 then v else v - 0x1_0000_0000_0000_0000
  }

  /** `protowire.DecodeZigZag` */
  function ZigZag(v: nat): int {
    if v % 2 == 0 then v / 2 else -(v / 2) - 1
  }

  /** The 64-bit two's complement and the zigzag form of an int64 (section "Signed Integers" of the encoding document). */
  function TwosComplement(n: int): int {
    if n >= 0 then n else n + 0x1_0000_0000_0000_0000
  }

  function ZigZagForm(n: int): int {
    if n >= 0 then 2 * n else -2 * n - 1
  }

  /** Both decodings are one-to-one between unsigned and signed 64-bit integers. */
  lemma SignedDecodings(n: int, v: nat)
    requires -0x8000_0000_0000_0000 <= n < 0x8000_0000_0000_0000 && v < 0x1_0000_0000_0000_0000
    ensures Signed(v) == n <==> v == TwosComplement(n)
    ensures ZigZag(v) == n <==> v == ZigZagForm(n)
  {
  }

  function ProtobufScalar(b: bytes, wireType: nat, kind: Kind): Option<Value> {
    if kind.StringKind? then
      if wireType != DELIMITED then None
      else
        var value := ConsumeBytes(b).data;
        if value == [] || |value| > MAX_VALUE || !Utf8.Valid(value) then None else Some(Text(value))
    else if wireType != VARINT then None
    else
      var value := ConsumeVarint(b).value;
      match kind
      case BoolKind => Some(Flag(value != 0))
      case Int64Kind => Some(Integer(Signed(value)))
      case Uint64Kind => Some(Integer(value))
      case _ => Some(Integer(ZigZag(value)))
  }

  /** The scalar of a parsed payload: the kind fits its wire type, and a text is nonempty, short and well-formed. */
  function ScalarOf(p: Payload, kind: Kind): Option<Value> {
    match (p, kind)
    case (Delimited(data), StringKind) => if 1 <= |data| <= MAX_VALUE && Utf8.Valid(data) then Some(Text(data)) else None
    case (Varint(v), BoolKind) => Some(Flag(v != 0))
    case (Varint(v), Int64Kind) => Some(Integer(Signed(v)))
    case (Varint(v), Uint64Kind) => Some(Integer(v))
    case (Varint(v), Sint64Kind) => Some(Integer(ZigZag(v)))
    case _ => None
  }

  /** What each kind yields: a text of 1 to 4096 well-formed bytes, whether a varint is nonzero, or the 64-bit number it encodes. */
  lemma ScalarExact(p: Payload, kind: Kind, v: Value)
    requires p.Varint? ==> p.value < 0x1_0000_0000_0000_0000
    ensures
      ScalarOf(p, kind) == Some(v) <==>
      match v
      case Text(t) => kind.StringKind? && p == Delimited(t) && 1 <= |t| <= 4096 && Utf8.Valid(t)
      case Flag(flag) => kind.BoolKind? && p.Varint? && (flag <==> p.value != 0)
      case Integer(n) =>
        p.Varint? &&
        match kind
        case Int64Kind => -0x8000_0000_0000_0000 <= n < 0x8000_0000_0000_0000 && p.value == TwosComplement(n)
        case Uint64Kind => p.value == n
        case Sint64Kind => p.value == ZigZagForm(n)
        case _ => false
  {
  }

  /** Reading the scalar again from the selected bytes agrees with their payload. */
  lemma ScalarOfSelected(selected: bytes, p: Payload, kind: Kind)
    requires IsPayload(selected, p)
    ensures ProtobufScalar(selected, WireType(p), kind) == ScalarOf(p, kind)
  {
    PayloadIsRead(selected, p, []);
    assert selected + [] == selected;
  }

  // ---------- lookup ----------

  /** The payloads of the fields with a number, in order. */
  function Matching(fields: seq<Field>, number: int): seq<Payload> {
    if fields == [] then []
    else (if fields[0].number == number then [fields[0].payload] else []) + Matching(fields[1..], number)
  }

  function Lookup(b: bytes, path: seq<int>, kind: Kind): Option<Value>
    requires path != []
    decreases |path|
  {
    if !ValidWire(b) then None
    else
      var found := Matching(FieldsOf(b), path[0]);
      if |found| != 1 then None
      else if |path| > 1 then if found[0].Delimited? then Lookup(found[0].data, path[1..], kind) else None
      else ScalarOf(found[0], kind)
  }

  /** One turn of the second walk: it reads the first field and its payload, and leaves the other fields. */
  lemma WalkStep(b: bytes, number: int)
    requires ValidWire(b) && b != []
    ensures 0 < ConsumeTag(b).length <= |b|
    ensures
      var tag := ConsumeTag(b);
      var left := b[tag.length..];
      var n := ConsumeFieldValue(tag.wireType, left);
      && 0 < n <= |left| && ValidWire(left[n..])
      && IsPayload(left[..n], FirstField(b).payload) && WireType(FirstField(b).payload) == tag.wireType
      && Matching(FieldsOf(b), number) ==
         (if tag.number == number then [FirstField(b).payload] else []) + Matching(FieldsOf(left[n..]), number)
  {
    SecondWalkSafe(b);
    var tag := ConsumeTag(b);
    var left := b[tag.length..];
    assert left[ConsumeFieldValue(tag.wireType, left)..] == b[FieldLength(b)..];
    ReadIsPayload(tag.wireType, left);
    assert FieldsOf(b)[0] == FirstField(b) && FieldsOf(b)[1..] == FieldsOf(b[FieldLength(b)..]);
  }

  /** Reading a selected payload again as a nested message. */
  lemma NestedAgain(selected: bytes, p: Payload)
    requires IsPayload(selected, p)
    ensures WireType(p) == DELIMITED <==> p.Delimited?
    ensures p.Delimited? ==> ConsumeBytes(selected).data == p.data
  {
    PayloadIsRead(selected, p, []);
    assert selected + [] == selected;
  }

  method ProtobufValue(message: bytes, path: seq<int>, kind: Kind) returns (value: Option<Value>)
    requires path != []
    ensures value == Lookup(message, path, kind)
    decreases |path|
  {
    var valid := ValidWireMessage(message);
    if !valid {
      return None;
    }
    var b := message;
    var found, selected, selectedType := false, [], 0;
    ghost var payload := Varint(0);
    while b != []
      invariant ValidWire(b)
      invariant Matching(FieldsOf(message), path[0]) == (if found then [payload] else []) + Matching(FieldsOf(b), path[0])
      invariant found ==> IsPayload(selected, payload) && selectedType == WireType(payload)
      decreases |b|
    {
      WalkStep(b, path[0]);
      ghost var first := FirstField(b);
      var tag := ConsumeTag(b);
      b := b[tag.length..];
      var n := ConsumeFieldValue(tag.wireType, b);
      if tag.number == path[0] {
        if found {
          assert |Matching(FieldsOf(message), path[0])| >= 2;
          return None;
        }
        found := true;
        selected := b[..n];
        selectedType := tag.wireType;
        payload := first.payload;
      }
      b := b[n..];
    }
    if !found {
      return None;
    }
    assert Matching(FieldsOf(message), path[0]) == [payload];
    if |path| > 1 {
      NestedAgain(selected, payload);
      if selectedType != DELIMITED {
        return None;
      }
      value := ProtobufValue(ConsumeBytes(selected).data, path[1..], kind);
      return;
    }
    ScalarOfSelected(selected, payload, kind);
    value := ProtobufScalar(selected, selectedType, kind);
  }

  // ---------- what a lookup means ----------

  /** Field `i` is the only one with this number. */
  predicate Only(fields: seq<Field>, i: nat, number: int) {
    i < |fields| && forall j :: 0 <= j < |fields| ==> (fields[j].number == number <==> j == i)
  }

  /**
   * `v` is the value at this path: every message on the path is an encoding of fields of which exactly
   * one has the path's number, all but the last of these hold a message, and the last one is the scalar.
   */
  ghost predicate Selects(b: bytes, path: seq<int>, kind: Kind, v: Value)
    requires path != []
    decreases |path|, 1
  {
    exists fields: seq<Field>, i: nat :: SelectsAt(b, path, kind, v, fields, i)
  }

  ghost predicate SelectsAt(b: bytes, path: seq<int>, kind: Kind, v: Value, fields: seq<Field>, i: nat)
    requires path != []
    decreases |path|, 0
  {
    && IsMessage(b, fields)
    && Only(fields, i, path[0])
    && var p := fields[i].payload;
    if |path| == 1 then ScalarOf(p, kind) == Some(v) else p.Delimited? && Selects(p.data, path[1..], kind, v)
  }

  lemma {:induction false} NoneMatching(fields: seq<Field>, number: int)
    ensures Matching(fields, number) == [] <==> forall j :: 0 <= j < |fields| ==> fields[j].number != number
  {
    if fields != [] {
      NoneMatching(fields[1..], number);
      assert fields == [fields[0]] + fields[1..];
    }
  }

  lemma {:induction false} OnlyMatching(fields: seq<Field>, i: nat, number: int)
    requires Only(fields, i, number)
    ensures Matching(fields, number) == [fields[i].payload]
  {
    if i == 0 {
      NoneMatching(fields[1..], number);
    } else {
      OnlyMatching(fields[1..], i - 1, number);
    }
  }

  lemma {:induction false} MatchingOnly(fields: seq<Field>, number: int) returns (i: nat)
    requires |Matching(fields, number)| == 1
    ensures Only(fields, i, number)
  {
    assert fields == [fields[0]] + fields[1..];
    if fields[0].number == number {
      NoneMatching(fields[1..], number);
      i := 0;
    } else {
      var k := MatchingOnly(fields[1..], number);
      i := k + 1;
    }
  }

  lemma {:induction false} LookupSelects(b: bytes, path: seq<int>, kind: Kind, v: Value)
    requires path != [] && Lookup(b, path, kind) == Some(v)
    ensures Selects(b, path, kind, v)
    decreases |path|
  {
    var fields := FieldsOf(b);
    var i := MatchingOnly(fields, path[0]);
    OnlyMatching(fields, i, path[0]);
    ReadIsMessage(b);
    if |path| > 1 {
      LookupSelects(fields[i].payload.data, path[1..], kind, v);
    }
    assert SelectsAt(b, path, kind, v, fields, i);
  }

  lemma {:induction false} SelectsLookup(b: bytes, path: seq<int>, kind: Kind, v: Value)
    requires path != [] && Selects(b, path, kind, v)
    ensures Lookup(b, path, kind) == Some(v)
    decreases |path|
  {
    var fields: seq<Field>, i: nat :| SelectsAt(b, path, kind, v, fields, i);
    MessageIsRead(b, fields);
    OnlyMatching(fields, i, path[0]);
    if |path| > 1 {
      SelectsLookup(fields[i].payload.data, path[1..], kind, v);
    }
  }

  /** A lookup succeeds exactly when the path selects a value, and then it returns that value. */
  lemma LookupExact(b: bytes, path: seq<int>, kind: Kind, v: Value)
    requires path != []
    ensures Lookup(b, path, kind) == Some(v) <==> Selects(b, path, kind, v)
  {
    if Lookup(b, path, kind) == Some(v) {
      LookupSelects(b, path, kind, v);
    }
    if Selects(b, path, kind, v) {
      SelectsLookup(b, path, kind, v);
    }
  }

  // ---------- capture ----------

  /** A configured field: its log key, path and kind. */
  datatype Selection = Selection(key: bytes, path: seq<int>, kind: Kind)

  datatype Status = NotSeen | NoFields | TooLarge | Malformed | Captured

  /** Length of the value's text. */
  function Size(v: Value): nat {
    match v
    case Text(t) => |t|
    case Flag(flag) => if flag then 4 else 5
    case Integer(n) => if n < 0 then 1 + |GoText.Itoa(-n)| else |GoText.Itoa(n)|
  }

  function TotalSize(attrs: seq<Attr<Value>>): nat {
    if attrs == [] then 0 else TotalSize(attrs[..|attrs| - 1]) + Size(attrs[|attrs| - 1].value)
  }

  predicate Configured(fields: seq<Selection>) {
    forall i :: 0 <= i < |fields| ==> fields[i].path != []
  }

  /** The fields that fit, in order, each within what the ones before it left of the budget. */
  function Chosen(payload: bytes, fields: seq<Selection>): seq<Attr<Value>>
    requires Configured(fields)
  {
    if fields == [] then []
    else
      var last := fields[|fields| - 1];
      var before := Chosen(payload, fields[..|fields| - 1]);
      var value := Lookup(payload, last.path, last.kind);
      if value.Some? && TotalSize(before) + Size(value.value) <= MAX_TOTAL then before + [Attr(last.key, value.value)] else before
  }

  function CaptureOf(payload: bytes, fields: seq<Selection>): (seq<Attr<Value>>, Status)
    requires Configured(fields)
  {
    if |payload| > MAX_MESSAGE then ([], TooLarge)
    else if !ValidWire(payload) then ([], Malformed)
    else
      var attrs := Chosen(payload, fields);
      (attrs, if attrs == [] then NoFields else Captured)
  }

  class ProtobufCapture {
    const fields: seq<Selection>
    var seen: bool
    var attrs: seq<Attr<Value>>
    var status: Status

    ghost predicate Valid()
      reads this
    {
      Configured(fields) && (!seen ==> attrs == [] && status == NotSeen)
    }

    constructor (fields: seq<Selection>)
      requires Configured(fields)
      ensures Valid() && this.fields == fields && !seen
    {
      this.fields := fields;
      seen := false;
      attrs := [];
      status := NotSeen;
    }

    method Observe(payload: bytes)
      requires Valid()
      modifies this
      ensures Valid() && seen
      ensures old(seen) ==> attrs == old(attrs) && status == old(status)
      ensures !old(seen) ==> (attrs, status) == CaptureOf(payload, fields)
    {
      if seen {
        return;
      }
      seen := true;
      status := NoFields;
      if |payload| > MAX_MESSAGE {
        status := TooLarge;
        return;
      }
      var valid := ValidWireMessage(payload);
      if !valid {
        status := Malformed;
        return;
      }
      var total := 0;
      for i := 0 to |fields|
        invariant seen && status == NoFields
        invariant attrs == Chosen(payload, fields[..i]) && total == TotalSize(attrs)
      {
        assert fields[..i + 1][..i] == fields[..i];
        var f := fields[i];
        var value := ProtobufValue(payload, f.path, f.kind);
        if value.None? {
          continue;
        }
        var size := Size(value.value);
        if total + size > MAX_TOTAL {
          continue;
        }
        total := total + size;
        attrs := attrs + [Attr(f.key, value.value)];
        assert attrs[..|attrs| - 1] == Chosen(payload, fields[..i]);
      }
      assert fields[..|fields|] == fields;
      if attrs != [] {
        status := Captured;
      }
    }
  }

  /** The messages of one stream, observed in order. */
  method ObserveAll(capture: ProtobufCapture, messages: seq<bytes>)
    requires capture.Valid() && !capture.seen
    modifies capture
    ensures messages == [] ==> capture.attrs == [] && capture.status == NotSeen
    ensures messages != [] ==> (capture.attrs, capture.status) == CaptureOf(messages[0], capture.fields)
  {
    for i := 0 to |messages|
      invariant capture.Valid() && (capture.seen <==> i > 0)
      invariant i > 0 ==> (capture.attrs, capture.status) == CaptureOf(messages[0], capture.fields)
    {
      capture.Observe(messages[i]);
    }
  }

  /** The values of the fields that are present, whatever their size. */
  function Present(payload: bytes, fields: seq<Selection>): seq<Attr<Value>>
    requires Configured(fields)
  {
    if fields == [] then []
    else
      var last := fields[|fields| - 1];
      var before := Present(payload, fields[..|fields| - 1]);
      var value := Lookup(payload, last.path, last.kind);
      if value.Some? then before + [Attr(last.key, value.value)] else before
  }

  /** What is captured stays within the budget, and nothing is dropped unless the budget demands it. */
  lemma {:induction false} CaptureWithinBudget(payload: bytes, fields: seq<Selection>)
    requires Configured(fields)
    ensures TotalSize(Chosen(payload, fields)) <= MAX_TOTAL
    ensures TotalSize(Chosen(payload, fields)) <= TotalSize(Present(payload, fields))
    ensures Chosen(payload, fields) == Present(payload, fields) <==> TotalSize(Present(payload, fields)) <= MAX_TOTAL
  {
    if fields != [] {
      var n := |fields| - 1;
      CaptureWithinBudget(payload, fields[..n]);
      var value := Lookup(payload, fields[n].path, fields[n].kind);
      if value.Some? {
        var attr := Attr(fields[n].key, value.value);
        var present, chosen := Present(payload, fields[..n]), Chosen(payload, fields[..n]);
        assert (present + [attr])[..|present|] == present;
        assert (chosen + [attr])[..|chosen|] == chosen;
      }
    }
  }

  /** Every captured value is what its field's path selects in the message. */
  lemma {:induction false} CapturedAreSelected(payload: bytes, fields: seq<Selection>, k: nat) returns (i: nat)
    requires Configured(fields) && k < |Chosen(payload, fields)|
    ensures i < |fields| && k <= i
    ensures
      var attr := Chosen(payload, fields)[k];
      attr.key == fields[i].key && Selects(payload, fields[i].path, fields[i].kind, attr.value)
  {
    var n := |fields| - 1;
    var before := Chosen(payload, fields[..n]);
    if k < |before| {
      i := CapturedAreSelected(payload, fields[..n], k);
    } else {
      i := n;
      LookupExact(payload, fields[n].path, fields[n].kind, Chosen(payload, fields)[k].value);
      ChosenAtMost(payload, fields[..n]);
    }
  }

  lemma {:induction false} ChosenAtMost(payload: bytes, fields: seq<Selection>)
    requires Configured(fields)
    ensures |Chosen(payload, fields)| <= |fields|
  {
    if fields != [] {
      ChosenAtMost(payload, fields[..|fields| - 1]);
    }
  }

  /** Nothing the path of field `i` selects fits what the captured fields before it, the first `k`, left of the budget. */
  ghost predicate LeftOut(payload: bytes, fields: seq<Selection>, chosen: seq<nat>, attrs: seq<Attr<Value>>, i: nat, k: nat)
    requires Configured(fields) && |chosen| == |attrs|
  {
    && i < |fields| && k <= |chosen|
    && (forall j :: 0 <= j < |chosen| ==> (chosen[j] < i <==> j < k) && chosen[j] != i)
    && forall v :: Selects(payload, fields[i].path, fields[i].kind, v) ==> TotalSize(attrs[..k]) + Size(v) > MAX_TOTAL
  }

  /** `attrs` is what the fields `chosen` select, in field order, and every other field is left out for want of a value or of budget. */
  ghost predicate Captures(payload: bytes, fields: seq<Selection>, chosen: seq<nat>, attrs: seq<Attr<Value>>)
    requires Configured(fields)
  {
    && |chosen| == |attrs|
    && (forall k :: 0 <= k < |chosen| ==>
          chosen[k] < |fields| && attrs[k].key == fields[chosen[k]].key
          && Selects(payload, fields[chosen[k]].path, fields[chosen[k]].kind, attrs[k].value))
    && (forall k, m :: 0 <= k < m < |chosen| ==> chosen[k] < chosen[m])
    && forall i: nat :: i < |fields| && i !in chosen ==> exists k: nat :: LeftOut(payload, fields, chosen, attrs, i, k)
  }

  /** A capture of the first fields, without the last one. */
  lemma CapturesSkip(payload: bytes, fields: seq<Selection>, chosen: seq<nat>, attrs: seq<Attr<Value>>)
    requires Configured(fields) && fields != [] && Captures(payload, fields[..|fields| - 1], chosen, attrs)
    requires LeftOut(payload, fields, chosen, attrs, |fields| - 1, |chosen|)
    ensures Captures(payload, fields, chosen, attrs)
  {
    forall i: nat | i < |fields| && i !in chosen ensures exists k: nat :: LeftOut(payload, fields, chosen, attrs, i, k) {
      if i < |fields| - 1 {
        var k: nat :| LeftOut(payload, fields[..|fields| - 1], chosen, attrs, i, k);
        assert LeftOut(payload, fields, chosen, attrs, i, k);
      }
    }
  }

  /** A capture of the first fields, with the last one. */
  lemma CapturesTake(payload: bytes, fields: seq<Selection>, chosen: seq<nat>, attrs: seq<Attr<Value>>, attr: Attr<Value>)
    requires Configured(fields) && fields != [] && Captures(payload, fields[..|fields| - 1], chosen, attrs)
    requires
      var last := fields[|fields| - 1];
      attr.key == last.key && Selects(payload, last.path, last.kind, attr.value)
    ensures Captures(payload, fields, chosen + [|fields| - 1], attrs + [attr])
  {
    var all := chosen + [|fields| - 1];
    forall i: nat | i < |fields| && i !in all ensures exists k: nat :: LeftOut(payload, fields, all, attrs + [attr], i, k) {
      assert |fields| - 1 == all[|chosen|];
      assert forall j :: 0 <= j < |chosen| ==> all[j] == chosen[j];
      var k: nat :| LeftOut(payload, fields[..|fields| - 1], chosen, attrs, i, k);
      assert (attrs + [attr])[..k] == attrs[..k];
      assert LeftOut(payload, fields, all, attrs + [attr], i, k);
    }
  }

  lemma {:induction false} ChosenExact(payload: bytes, fields: seq<Selection>) returns (chosen: seq<nat>)
    requires Configured(fields)
    ensures Captures(payload, fields, chosen, Chosen(payload, fields))
  {
    if fields == [] {
      chosen := [];
    } else {
      var n := |fields| - 1;
      var last, before := fields[n], Chosen(payload, fields[..n]);
      chosen := ChosenExact(payload, fields[..n]);
      forall v ensures Lookup(payload, last.path, last.kind) == Some(v) <==> Selects(payload, last.path, last.kind, v) {
        LookupExact(payload, last.path, last.kind, v);
      }
      if Chosen(payload, fields) == before {
        assert before[..|chosen|] == before;
        CapturesSkip(payload, fields, chosen, before);
      } else {
        CapturesTake(payload, fields, chosen, before, Attr(last.key, Lookup(payload, last.path, last.kind).value));
        chosen := chosen + [n];
      }
    }
  }

  /**
   * What is captured from a message: nothing from one that is too long or no protobuf message; from any other, field by
   * field in order, what the field's path selects, unless it selects nothing or more than is left of the budget.
   */
  lemma CaptureExact(payload: bytes, fields: seq<Selection>) returns (chosen: seq<nat>)
    requires Configured(fields)
    ensures
      var (attrs, status) := CaptureOf(payload, fields);
      if |payload| > 65536 then attrs == [] && status == TooLarge
      else if forall list :: !IsMessage(payload, list) then attrs == [] && status == Malformed
      else Captures(payload, fields, chosen, attrs) && status == if attrs == [] then NoFields else Captured
  {
    ValidIffMessage(payload);
    assert ValidWire(payload) <==> !forall list :: !IsMessage(payload, list);
    chosen := ChosenExact(payload, fields);
    assert |payload| <= MAX_MESSAGE && ValidWire(payload) ==> CaptureOf(payload, fields).0 == Chosen(payload, fields);
  }
}

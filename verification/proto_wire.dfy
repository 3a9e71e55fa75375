/**
 * The Protocol Buffers wire format: the readers package `protowire` offers, and the grammar of the
 * encoding document they read.
 */
module ProtoWire {
  import opened Common

  // ---------- reading ----------

  const TRUNCATED := -1
  const FIELD_NUMBER := -2
  const OVERFLOW := -3
  const RESERVED := -4
  const END_GROUP := -5

  const VARINT := 0
  const FIXED64 := 1
  const DELIMITED := 2
  const START_GROUP := 3
  const STOP_GROUP := 4
  const FIXED32 := 5

  const MAX_NUMBER := 0x1FFF_FFFF

  /** A value and the bytes it took; a negative length is an error code. */
  datatype VarintRead = VarintRead(value: nat, length: int)

  datatype TagRead = TagRead(number: int, wireType: nat, length: int)

  datatype BytesRead = BytesRead(data: bytes, length: int)

  /** What the bytes from position `i` of a varint can still hold. */
  function Limit(i: nat): nat
    requires i < 10
    decreases 10 - i
  {
    if i == 9 then 2 else 128 * Limit(i + 1)
  }

  lemma {:induction false} LimitOver128(i: nat)
    requires i < 9
    ensures Limit(i) > 128
    decreases 9 - i
  {
    if i < 8 {
      LimitOver128(i + 1);
    }
  }

  lemma LimitIs64Bits()
    ensures Limit(0) == 0x1_0000_0000_0000_0000
  {
    assert Limit(8) == 256;
    assert Limit(6) == 256 * 16384;
    assert Limit(4) == 256 * 16384 * 16384;
    assert Limit(2) == 256 * 16384 * 16384 * 16384;
  }

  /** A varint whose first `i` bytes are already read. */
  function ConsumeVarintFrom(b: bytes, i: nat): (r: VarintRead)
    requires i < 10
    ensures r.length <= |b| && r.length <= 10 - i && r.length != 0
    decreases 10 - i
  {
    if b == [] then VarintRead(0, TRUNCATED)
    else if b[0] < 0x80 && (i < 9 || b[0] < 2) then VarintRead(b[0], 1)
    else if i == 9 then VarintRead(0, OVERFLOW)
    else
      var rest := ConsumeVarintFrom(b[1..], i + 1);
      if rest.length < 0 then rest else VarintRead(b[0] - 0x80 + 0x80 * rest.value, rest.length + 1)
  }

  function ConsumeVarint(b: bytes): (r: VarintRead)
    ensures r.length <= |b| && r.length <= 10 && r.length != 0
  {
    ConsumeVarintFrom(b, 0)
  }

  function ConsumeTag(b: bytes): (r: TagRead)
    ensures r.length <= |b| && r.length != 0
    ensures r.length > 0 ==> r.number >= 1 && r.wireType < 8
  {
    var tag := ConsumeVarint(b);
    if tag.length < 0 then TagRead(0, 0, tag.length)
    else
      var number := if tag.value / 8 > 0x7FFF_FFFF then -1 else tag.value / 8;
      if number < 1 then TagRead(0, 0, FIELD_NUMBER) else TagRead(number, tag.value % 8, tag.length)
  }

  function ConsumeBytes(b: bytes): (r: BytesRead)
    ensures r.length <= |b| && r.length != 0
    ensures r.length > 0 ==> |r.data| < |b|
  {
    var size := ConsumeVarint(b);
    if size.length < 0 then BytesRead([], size.length)
    else if size.value > |b| - size.length then BytesRead([], TRUNCATED)
    else BytesRead(b[size.length..size.length + size.value], size.length + size.value)
  }

  /** The length of a field's value; groups are refused before their value is read. */
  function ConsumeFieldValue(wireType: nat, b: bytes): (n: int)
    requires wireType != START_GROUP
    ensures n <= |b| && n != 0
  {
    if wireType == VARINT then ConsumeVarint(b).length
    else if wireType == FIXED32 then if |b| < 4 then TRUNCATED else 4
    else if wireType == FIXED64 then if |b| < 8 then TRUNCATED else 8
    else if wireType == DELIMITED then ConsumeBytes(b).length
    else if wireType == STOP_GROUP then END_GROUP
    else RESERVED
  }

  // ---------- the grammar ----------

  datatype Payload = Varint(value: nat) | Fixed64(data: bytes) | Delimited(data: bytes) | Fixed32(data: bytes)

  datatype Field = Field(number: nat, payload: Payload)

  function WireType(p: Payload): nat {
    match p
    case Varint(_) => VARINT
    case Fixed64(_) => FIXED64
    case Delimited(_) => DELIMITED
    case Fixed32(_) => FIXED32
  }

  /** Seven bits a byte, least significant first. */
  function Base128(t: bytes): nat {
    if t == [] then 0 else t[0] % 128 + 128 * Base128(t[1..])
  }

  /** `t` is an encoding of `v`, with `i` bytes before it: all bytes but the last carry the continuation bit. */
  predicate IsVarintFrom(t: bytes, v: nat, i: nat) {
    && 1 <= |t| <= 10 - i
    && (forall j :: 0 <= j < |t| - 1 ==> t[j] >= 0x80)
    && t[|t| - 1] < 0x80
    && Base128(t) == v < Limit(i)
  }

  predicate IsVarint(t: bytes, v: nat) {
    IsVarintFrom(t, v, 0)
  }

  predicate PrefixedAt(t: bytes, data: bytes, k: nat) {
    k <= |t| && IsVarint(t[..k], |data|) && t[k..] == data
  }

  ghost predicate IsPayload(t: bytes, p: Payload) {
    match p
    case Varint(v) => IsVarint(t, v)
    case Fixed64(data) => |data| == 8 && t == data
    case Fixed32(data) => |data| == 4 && t == data
    case Delimited(data) => exists k: nat :: PrefixedAt(t, data, k)
  }

  ghost predicate RecordAt(t: bytes, f: Field, k: nat) {
    && k <= |t|
    && 1 <= f.number <= MAX_NUMBER
    && IsVarint(t[..k], f.number * 8 + WireType(f.payload))
    && IsPayload(t[k..], f.payload)
  }

  ghost predicate IsRecord(t: bytes, f: Field) {
    exists k: nat :: RecordAt(t, f, k)
  }

  ghost predicate SplitAt(t: bytes, fields: seq<Field>, k: nat)
    requires fields != []
    decreases |fields|, 0
  {
    k <= |t| && IsRecord(t[..k], fields[0]) && IsMessage(t[k..], fields[1..])
  }

  /** `t` is an encoding of exactly these fields, in this order. */
  ghost predicate IsMessage(t: bytes, fields: seq<Field>)
    decreases |fields|, 1
  {
    if fields == [] then t == [] else exists k: nat :: SplitAt(t, fields, k)
  }

  // ---------- reader and grammar agree ----------

  lemma VarintStep(t: bytes, v: nat, i: nat)
    requires |t| >= 2 && t[0] >= 0x80
    ensures IsVarintFrom(t, v, i) <==>
            i < 9 && IsVarintFrom(t[1..], Base128(t[1..]), i + 1) && v == t[0] - 0x80 + 0x80 * Base128(t[1..])
  {
    var rest := t[1..];
    if i < 9 && |t| <= 10 - i {
      assert rest[|rest| - 1] == t[|t| - 1];
      assert (forall j :: 0 <= j < |t| - 1 ==> t[j] >= 0x80) <==> (forall j :: 0 <= j < |rest| - 1 ==> rest[j] >= 0x80) by {
        if forall j :: 0 <= j < |rest| - 1 ==> rest[j] >= 0x80 {
          forall j | 0 <= j < |t| - 1 ensures t[j] >= 0x80 {
            if j > 0 {
              assert rest[j - 1] == t[j];
            }
          }
        }
      }
    }
  }

  lemma VarintOne(t: bytes, v: nat, i: nat)
    requires |t| == 1
    ensures IsVarintFrom(t, v, i) <==> i < 10 && v == t[0] < 0x80 && (i < 9 || v < 2)
  {
    assert t[1..] == [];
    assert Base128(t) == t[0] % 128;
    if i < 9 {
      LimitOver128(i);
    }
  }

  /** A varint read in full is one. */
  lemma {:induction false} ReadIsVarint(b: bytes, i: nat)
    requires i < 10
    ensures
      var r := ConsumeVarintFrom(b, i);
      r.length > 0 ==> IsVarintFrom(b[..r.length], r.value, i)
    decreases 10 - i
  {
    var r := ConsumeVarintFrom(b, i);
    if r.length == 1 {
      VarintOne(b[..1], r.value, i);
    } else if r.length > 1 {
      ReadIsVarint(b[1..], i + 1);
      var t := b[..r.length];
      assert t[1..] == b[1..][..r.length - 1];
      VarintStep(t, r.value, i);
    }
  }

  /** A varint at the front is read, whatever follows. */
  lemma {:induction false} VarintIsRead(t: bytes, v: nat, i: nat, after: bytes)
    requires i < 10 && IsVarintFrom(t, v, i)
    ensures ConsumeVarintFrom(t + after, i) == VarintRead(v, |t|)
    decreases |t|
  {
    var b := t + after;
    assert b[0] == t[0];
    if |t| == 1 {
      VarintOne(t, v, i);
    } else {
      VarintStep(t, v, i);
      VarintIsRead(t[1..], Base128(t[1..]), i + 1, after);
      assert b[1..] == t[1..] + after;
    }
  }

  /** The payload of a value that reads without error. */
  function ReadPayload(wireType: nat, b: bytes): Payload
    requires wireType != START_GROUP && ConsumeFieldValue(wireType, b) > 0
  {
    if wireType == VARINT then Varint(ConsumeVarint(b).value)
    else if wireType == FIXED32 then Fixed32(b[..4])
    else if wireType == FIXED64 then Fixed64(b[..8])
    else Delimited(ConsumeBytes(b).data)
  }

  lemma ReadIsPayload(wireType: nat, b: bytes)
    requires wireType != START_GROUP && ConsumeFieldValue(wireType, b) > 0
    ensures WireType(ReadPayload(wireType, b)) == wireType
    ensures IsPayload(b[..ConsumeFieldValue(wireType, b)], ReadPayload(wireType, b))
  {
    ReadIsVarint(b, 0);
    if wireType == DELIMITED {
      var size := ConsumeVarint(b);
      var t := b[..ConsumeBytes(b).length];
      assert t[..size.length] == b[..size.length];
      assert PrefixedAt(t, ConsumeBytes(b).data, size.length);
    }
  }

  lemma DelimitedIsRead(size: bytes, data: bytes, after: bytes)
    requires IsVarint(size, |data|)
    ensures ConsumeBytes(size + (data + after)) == BytesRead(data, |size| + |data|)
  {
    VarintIsRead(size, |data|, 0, data + after);
    assert (size + (data + after))[|size|..|size| + |data|] == data;
  }

  lemma Regroup(t: bytes, k: nat, after: bytes)
    requires k <= |t|
    ensures t[..k] + (t[k..] + after) == t + after
  {
  }

  lemma PayloadIsRead(t: bytes, p: Payload, after: bytes)
    requires IsPayload(t, p)
    ensures t != [] && ConsumeFieldValue(WireType(p), t + after) == |t| && ReadPayload(WireType(p), t + after) == p
  {
    match p
    case Varint(v) =>
      VarintIsRead(t, v, 0, after);
    case Fixed64(data) =>
      assert (t + after)[..8] == data;
    case Fixed32(data) =>
      assert (t + after)[..4] == data;
    case Delimited(data) =>
      var k: nat :| PrefixedAt(t, data, k);
      DelimitedIsRead(t[..k], t[k..], after);
      Regroup(t, k, after);
  }

  lemma TagIsRead(t: bytes, number: nat, wireType: nat, after: bytes)
    requires 1 <= number <= MAX_NUMBER && wireType < 8 && IsVarint(t, number * 8 + wireType)
    ensures ConsumeTag(t + after) == TagRead(number, wireType, |t|)
  {
    VarintIsRead(t, number * 8 + wireType, 0, after);
  }

  lemma ReadIsTag(b: bytes)
    requires ConsumeTag(b).length > 0
    ensures
      var tag := ConsumeTag(b);
      IsVarint(b[..tag.length], tag.number * 8 + tag.wireType)
  {
    ReadIsVarint(b, 0);
  }

  // ---------- messages ----------

  /** The bytes the field at the front takes, or zero where `validWireMessage` stops with false. */
  function FieldLength(b: bytes): (n: nat)
    ensures n <= |b|
  {
    var tag := ConsumeTag(b);
    if tag.length < 0 || tag.number > MAX_NUMBER || tag.wireType == START_GROUP || tag.wireType == STOP_GROUP then 0
    else
      var n := ConsumeFieldValue(tag.wireType, b[tag.length..]);
      if n < 0 then 0 else tag.length + n
  }

  predicate ValidWire(b: bytes) {
    b == [] || (FieldLength(b) > 0 && ValidWire(b[FieldLength(b)..]))
  }

  function FirstField(b: bytes): Field
    requires FieldLength(b) > 0
  {
    var tag := ConsumeTag(b);
    Field(tag.number, ReadPayload(tag.wireType, b[tag.length..]))
  }

  /** The fields of an accepted message. */
  function FieldsOf(b: bytes): seq<Field>
    requires ValidWire(b)
  {
    if b == [] then [] else [FirstField(b)] + FieldsOf(b[FieldLength(b)..])
  }

  lemma ReadIsRecord(b: bytes)
    requires FieldLength(b) > 0
    ensures IsRecord(b[..FieldLength(b)], FirstField(b))
  {
    var tag := ConsumeTag(b);
    var left, n := b[tag.length..], FieldLength(b);
    ReadIsTag(b);
    ReadIsPayload(tag.wireType, left);
    var t := b[..n];
    assert t[..tag.length] == b[..tag.length];
    assert t[tag.length..] == left[..n - tag.length];
    assert RecordAt(t, FirstField(b), tag.length);
  }

  lemma TagThenValue(tag: bytes, value: bytes, f: Field, after: bytes)
    requires 1 <= f.number <= MAX_NUMBER && IsVarint(tag, f.number * 8 + WireType(f.payload)) && IsPayload(value, f.payload)
    ensures tag != [] && FieldLength(tag + (value + after)) == |tag| + |value| && FirstField(tag + (value + after)) == f
  {
    var b := tag + (value + after);
    TagIsRead(tag, f.number, WireType(f.payload), value + after);
    PayloadIsRead(value, f.payload, after);
    assert b[|tag|..] == value + after;
  }

  lemma RecordIsRead(t: bytes, f: Field, after: bytes)
    requires IsRecord(t, f)
    ensures t != [] && FieldLength(t + after) == |t| && FirstField(t + after) == f
  {
    var k: nat :| RecordAt(t, f, k);
    TagThenValue(t[..k], t[k..], f, after);
    Regroup(t, k, after);
  }

  /** An accepted message is an encoding of its fields. */
  lemma {:induction false} ReadIsMessage(b: bytes)
    requires ValidWire(b)
    ensures IsMessage(b, FieldsOf(b))
  {
    if b != [] {
      var n := FieldLength(b);
      ReadIsRecord(b);
      ReadIsMessage(b[n..]);
      assert FieldsOf(b)[1..] == FieldsOf(b[n..]);
      assert SplitAt(b, FieldsOf(b), n);
    }
  }

  /** Every encoding of a field list is accepted, and its fields are that list. */
  lemma {:induction false} MessageIsRead(b: bytes, fields: seq<Field>)
    requires IsMessage(b, fields)
    ensures ValidWire(b) && FieldsOf(b) == fields
    decreases |fields|
  {
    if fields != [] {
      var k: nat :| SplitAt(b, fields, k);
      RecordIsRead(b[..k], fields[0], b[k..]);
      assert b == b[..k] + b[k..];
      MessageIsRead(b[k..], fields[1..]);
    }
  }

  /** A buffer is accepted exactly when it encodes a field list, and then only one. */
  lemma ValidIffMessage(b: bytes)
    ensures ValidWire(b) <==> exists fields :: IsMessage(b, fields)
    ensures forall f, g :: IsMessage(b, f) && IsMessage(b, g) ==> f == g
  {
    if ValidWire(b) {
      ReadIsMessage(b);
      assert IsMessage(b, FieldsOf(b));
    }
    forall f | IsMessage(b, f) ensures ValidWire(b) && FieldsOf(b) == f {
      MessageIsRead(b, f);
    }
  }

  /** Where the first walk accepts, every read of the second walk succeeds, makes progress and stays in range. */
  lemma SecondWalkSafe(b: bytes)
    requires ValidWire(b) && b != []
    ensures 0 < ConsumeTag(b).length <= |b| && 1 <= ConsumeTag(b).number <= MAX_NUMBER
    ensures
      var tag := ConsumeTag(b);
      tag.wireType in {VARINT, FIXED64, DELIMITED, FIXED32} &&
      var n := ConsumeFieldValue(tag.wireType, b[tag.length..]);
      0 < n <= |b| - tag.length && ValidWire(b[tag.length..][n..])
  {
    var tag := ConsumeTag(b);
    var n := ConsumeFieldValue(tag.wireType, b[tag.length..]);
    assert b[tag.length..][n..] == b[FieldLength(b)..];
  }

  method ValidWireMessage(message: bytes) returns (valid: bool)
    ensures valid == ValidWire(message)
  {
    var b := message;
    while b != []
      invariant ValidWire(message) == ValidWire(b)
      decreases |b|
    {
      ghost var whole := b;
      var tag := ConsumeTag(b);
      if tag.length < 0 || !(1 <= tag.number <= MAX_NUMBER) || tag.wireType == START_GROUP || tag.wireType == STOP_GROUP {
        return false;
      }
      b := b[tag.length..];
      var n := ConsumeFieldValue(tag.wireType, b);
      if n < 0 {
        return false;
      }
      assert b[n..] == whole[FieldLength(whole)..];
      b := b[n..];
    }
    valid := true;
  }
}

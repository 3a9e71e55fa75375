/** Big-endian integers in byte buffers, as `encoding/binary` writes and reads them. */
module ByteOrder {
  import opened Common

  function Power256(width: nat): (p: nat)
    ensures p > 0
  {
    if width == 0 then 1 else 256 * Power256(width - 1)
  }

  /** The low `width` bytes of `value`, most significant first. */
  function BigEndian(value: nat, width: nat): (b: bytes)
    ensures |b| == width
    decreases width
  {
    if width == 0 then [] else BigEndian(value / 256, width - 1) + [value % 256]
  }

  function FromBigEndian(b: bytes): nat {
    if b == [] then 0 else FromBigEndian(b[..|b| - 1]) * 256 + b[|b| - 1]
  }

  /** Reading back what was written yields the value, provided it fits. */
  lemma {:induction false} ReadBack(value: nat, width: nat)
    requires value < Power256(width)
    ensures FromBigEndian(BigEndian(value, width)) == value
    decreases width
  {
    if width > 0 {
      var high := BigEndian(value / 256, width - 1);
      assert BigEndian(value, width)[..width - 1] == high;
      ReadBack(value / 256, width - 1);
    }
  }

  lemma {:induction false} ReadBound(b: bytes)
    ensures FromBigEndian(b) < Power256(|b|)
  {
    if b != [] {
      ReadBound(b[..|b| - 1]);
    }
  }

  /** Writing back what was read yields the same bytes. */
  lemma {:induction false} WriteBack(b: bytes)
    ensures BigEndian(FromBigEndian(b), |b|) == b
  {
    if b != [] {
      WriteBack(b[..|b| - 1]);
      assert b == b[..|b| - 1] + [b[|b| - 1]];
    }
  }

  /** `PutUint32` and `PutUint64` fill the front of a buffer in place. */
  method PutBigEndian(buffer: array<byte>, width: nat, value: nat)
    requires width <= buffer.Length
    modifies buffer
    ensures buffer[..] == BigEndian(value, width) + old(buffer[width..])
  {
    var i, left := width, value;
    while i > 0
      invariant 0 <= i <= width
      invariant BigEndian(left, i) + buffer[i..width] == BigEndian(value, width)
      invariant buffer[width..] == old(buffer[width..])
    {
      ghost var tail := buffer[i..width];
      i := i - 1;
      buffer[i] := left % 256;
      assert buffer[i..width] == [left % 256] + tail;
      Associative(BigEndian(left / 256, i), [left % 256], tail);
      left := left / 256;
    }
    assert buffer[..] == buffer[0..width] + buffer[width..];
  }
}

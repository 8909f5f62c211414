/** Field access against a struct's byte buffer: the `get`/`put` pair of the
    bit-field class made by `bit_field`, native reads and writes of plain integer
    fields, and the byte-range view of an embedded sub-struct made by `bit_fields`.

    The FFI memory primitives (`ptr.slice`, `read_uintN`, `write_uintN`) are
    modelled on a byte sequence; a unit is read and written least significant
    byte first, as on a little-endian host. */
module Access {
  import opened Wrappers
  import opened Bits
  import opened FfiTypes
  import opened Packer

  type Bytes = seq<byte>

  /** The bytes [off, off + n) of a buffer: `ptr.slice(off, n)`. */
  function Slice(buf: Bytes, off: nat, n: nat): (r: Bytes)
    requires off + n <= |buf|
    ensures |r| == n
  {
    buf[off..off + n]
  }

  /** The buffer with the bytes from off on replaced by `bytes`. */
  function Splice(buf: Bytes, off: nat, bytes: Bytes): (r: Bytes)
    requires off + |bytes| <= |buf|
    ensures |r| == |buf|
    ensures r[off..off + |bytes|] == bytes
    ensures forall i :: 0 <= i < |buf| && !(off <= i < off + |bytes|) ==> r[i] == buf[i]
  {
    var r := buf[..off] + bytes + buf[off + |bytes|..];
    assert r[off..off + |bytes|] == bytes;
    r
  }

  /** `read_uintN` at a unit's offset. */
  function ReadUnit(buf: Bytes, off: nat, n: nat): (r: nat)
    requires off + n <= |buf|
    ensures r < Pow2(8 * n)
  {
    LittleEndian(Slice(buf, off, n))
  }

  /** `write_uintN` at a unit's offset: the value modulo 2^(8n), low byte first. */
  function WriteUnit(buf: Bytes, off: nat, n: nat, v: int): (r: Bytes)
    requires off + n <= |buf|
    ensures |r| == |buf|
  {
    Splice(buf, off, ToBytes(v, n))
  }

  /** A unit read sees only the unit's own bytes. */
  lemma ReadUnitLocal(a: Bytes, b: Bytes, off: nat, n: nat)
    requires off + n <= |a| && off + n <= |b|
    requires forall i :: off <= i < off + n ==> a[i] == b[i]
    ensures ReadUnit(a, off, n) == ReadUnit(b, off, n)
  {
    assert Slice(a, off, n) == Slice(b, off, n);
  }

  /** Writing a unit and reading it back gives the value modulo 2^(8n). */
  lemma WriteUnitThenRead(buf: Bytes, off: nat, n: nat, v: int)
    requires off + n <= |buf|
    ensures ReadUnit(WriteUnit(buf, off, n, v), off, n) == v % Pow2(8 * n)
  {
    var r := WriteUnit(buf, off, n, v);
    assert Slice(r, off, n) == ToBytes(v, n);
    LittleEndianToBytes(v, n);
  }

  // ---------------------------------------------------------------------------
  // Bit-fields
  // ---------------------------------------------------------------------------

  /** A bit-field whose unit lies inside the buffer and whose bits lie inside its unit. */
  predicate BitFieldIn(buf: Bytes, f: Field)
  {
    f.kind.BitField? && f.offset + f.kind.base.bytes <= |buf|
    && f.kind.bitOffset + f.kind.width <= 8 * f.kind.base.bytes
  }

  /** `get`: shift, mask, and sign-extend on a signed base. */
  function BitFieldGet(buf: Bytes, f: Field): int
    requires BitFieldIn(buf, f)
  {
    var k := f.kind;
    var v := Extract(ReadUnit(buf, f.offset, k.base.bytes), k.bitOffset, k.width);
    if k.base.signed then ToSigned(v, k.width) else v
  }

  /** `put`: read the unit, clear the field's bits, or in the masked value, write
      the unit back. Values out of range are truncated by the mask. */
  function BitFieldPut(buf: Bytes, f: Field, value: int): (r: Bytes)
    requires BitFieldIn(buf, f)
    ensures |r| == |buf|
    ensures forall i :: 0 <= i < |buf| && !(f.offset <= i < f.offset + f.kind.base.bytes) ==> r[i] == buf[i]
  {
    var k := f.kind;
    var unit := ReadUnit(buf, f.offset, k.base.bytes);
    WriteUnit(buf, f.offset, k.base.bytes, Insert(unit, k.bitOffset, k.width, value))
  }

  /** The unit after a `put` holds the old unit with the field's bits replaced. */
  lemma BitFieldPutUnit(buf: Bytes, f: Field, value: int)
    requires BitFieldIn(buf, f)
    ensures var k := f.kind;
      ReadUnit(BitFieldPut(buf, f, value), f.offset, k.base.bytes)
        == Insert(ReadUnit(buf, f.offset, k.base.bytes), k.bitOffset, k.width, value)
  {
    var k := f.kind;
    var n := k.base.bytes;
    var u' := Insert(ReadUnit(buf, f.offset, n), k.bitOffset, k.width, value);
    InsertBound(ReadUnit(buf, f.offset, n), k.bitOffset, k.width, value, 8 * n);
    WriteUnitThenRead(buf, f.offset, n, u');
    DivModUnique(u', Pow2(8 * n), 0, u');
  }

  /** After `put(value)`, `get` returns value modulo 2^w on an unsigned base and
      its sign extension on a signed one; no value is rejected. */
  lemma BitFieldRoundTrip(buf: Bytes, f: Field, value: int)
    requires BitFieldIn(buf, f)
    ensures var w := f.kind.width;
      BitFieldGet(BitFieldPut(buf, f, value), f)
        == if f.kind.base.signed then ToSigned(value % Pow2(w), w) else value % Pow2(w)
  {
    var k := f.kind;
    BitFieldPutUnit(buf, f, value);
    InsertParts(ReadUnit(buf, f.offset, k.base.bytes), k.bitOffset, k.width, value);
  }

  /** In-range values read back unchanged: [0, 2^w) on an unsigned base,
      [-2^(w-1), 2^(w-1)) on a signed one. */
  lemma BitFieldInRange(buf: Bytes, f: Field, value: int)
    requires BitFieldIn(buf, f)
    requires !f.kind.base.signed ==> 0 <= value < Pow2(f.kind.width)
    requires f.kind.base.signed ==> f.kind.width >= 1 && -Pow2(f.kind.width - 1) <= value < Pow2(f.kind.width - 1)
    ensures BitFieldGet(BitFieldPut(buf, f, value), f) == value
  {
    var w := f.kind.width;
    BitFieldRoundTrip(buf, f, value);
    if f.kind.base.signed {
      ToSignedOfTruncated(value, w);
    } else {
      DivModUnique(value, Pow2(w), 0, value);
    }
  }

  /** A signed bit-field always reads within [-2^(w-1), 2^(w-1)), an unsigned one
      within [0, 2^w). */
  lemma BitFieldGetRange(buf: Bytes, f: Field)
    requires BitFieldIn(buf, f) && f.kind.width >= 1
    ensures var w := f.kind.width;
      if f.kind.base.signed then -Pow2(w - 1) <= BitFieldGet(buf, f) < Pow2(w - 1)
      else 0 <= BitFieldGet(buf, f) < Pow2(w)
  {
    var k := f.kind;
    var v := Extract(ReadUnit(buf, f.offset, k.base.bytes), k.bitOffset, k.width);
    if k.base.signed {
      ToSignedRange(v, k.width);
    }
  }

  /** Frame condition between bit-fields: a `put` leaves every other bit-field
      unchanged whose unit is the same with disjoint bits, or whose unit does not
      overlap the written one. */
  lemma BitFieldPutFrame(buf: Bytes, f: Field, value: int, g: Field)
    requires BitFieldIn(buf, f) && BitFieldIn(buf, g)
    requires
      || (g.offset == f.offset && g.kind.base.bytes == f.kind.base.bytes
          && (g.kind.bitOffset + g.kind.width <= f.kind.bitOffset
              || f.kind.bitOffset + f.kind.width <= g.kind.bitOffset))
      || g.offset + g.kind.base.bytes <= f.offset
      || f.offset + f.kind.base.bytes <= g.offset
    ensures BitFieldGet(BitFieldPut(buf, f, value), g) == BitFieldGet(buf, g)
  {
    var buf' := BitFieldPut(buf, f, value);
    if g.offset == f.offset && g.kind.base.bytes == f.kind.base.bytes {
      BitFieldPutUnit(buf, f, value);
      InsertFrame(ReadUnit(buf, f.offset, f.kind.base.bytes), f.kind.bitOffset, f.kind.width,
                  value, g.kind.bitOffset, g.kind.width);
    } else {
      ReadUnitLocal(buf', buf, g.offset, g.kind.base.bytes);
    }
  }

  /** Putting back the value just read leaves the buffer as it was, on a signed
      base as on an unsigned one. */
  lemma BitFieldPutGet(buf: Bytes, f: Field)
    requires BitFieldIn(buf, f)
    ensures BitFieldPut(buf, f, BitFieldGet(buf, f)) == buf
  {
    var k := f.kind;
    var n := k.base.bytes;
    var u := ReadUnit(buf, f.offset, n);
    var g := BitFieldGet(buf, f);
    var e := Extract(u, k.bitOffset, k.width);
    PutWritesUnit(buf, f, g, u);
    GetResidue(buf, f);
    DivModUnique(e, Pow2(k.width), 0, e);
    InsertResidue(u, k.bitOffset, k.width, g, e);
    InsertExtracted(u, k.bitOffset, k.width);
    WriteUnitOwn(buf, f.offset, n);
  }

  /** `put` writes the old unit with the field's bits replaced. */
  lemma PutWritesUnit(buf: Bytes, f: Field, v: int, u: int)
    requires BitFieldIn(buf, f) && u == ReadUnit(buf, f.offset, f.kind.base.bytes)
    ensures BitFieldPut(buf, f, v)
      == WriteUnit(buf, f.offset, f.kind.base.bytes, Insert(u, f.kind.bitOffset, f.kind.width, v))
  {
  }

  /** `get` keeps the field's bits: modulo 2^w it is the extracted value. */
  lemma GetResidue(buf: Bytes, f: Field)
    requires BitFieldIn(buf, f)
    ensures var k := f.kind;
      BitFieldGet(buf, f) % Pow2(k.width) == Extract(ReadUnit(buf, f.offset, k.base.bytes), k.bitOffset, k.width)
  {
    var k := f.kind;
    var e := Extract(ReadUnit(buf, f.offset, k.base.bytes), k.bitOffset, k.width);
    DivModUnique(e, Pow2(k.width), 0, e);
    if k.base.signed && k.width >= 1 {
      ToSignedRange(e, k.width);
    }
  }

  /** Writing back a unit's own value leaves the buffer unchanged. */
  lemma WriteUnitOwn(buf: Bytes, off: nat, n: nat)
    requires off + n <= |buf|
    ensures WriteUnit(buf, off, n, ReadUnit(buf, off, n)) == buf
  {
    ToBytesLittleEndian(Slice(buf, off, n));
    SpliceOwnBytes(buf, off, n);
  }

  /** Splicing a buffer's own bytes back in leaves it unchanged. */
  lemma SpliceOwnBytes(buf: Bytes, off: nat, n: nat)
    requires off + n <= |buf|
    ensures Splice(buf, off, Slice(buf, off, n)) == buf
  {
    var r := Splice(buf, off, Slice(buf, off, n));
    forall i | 0 <= i < |buf| ensures r[i] == buf[i] {
      if off <= i < off + n {
        assert r[i] == r[off..off + n][i - off];
      }
    }
  }

  // ---------------------------------------------------------------------------
  // Plain integer fields
  // ---------------------------------------------------------------------------

  /** Byte width and signedness of a plain field that holds an integer. */
  function IntegerShape(t: NativeType): Option<(nat, bool)>
  {
    match t
    case Integer(i) => Some((i.bytes, i.signed))
    case Long(s) => Some((8, s))
    case _ => None
  }

  predicate PlainIn(buf: Bytes, f: Field)
  {
    f.kind.Plain? && f.offset + Size(f.kind.native) <= |buf|
  }

  /** Native read of a plain integer field; floating-point and pointer fields
      are not modelled. */
  function PlainGet(buf: Bytes, f: Field): Result<int>
    requires PlainIn(buf, f)
  {
    match IntegerShape(f.kind.native)
    case None => Failure(NotModelled)
    case Some((n, signed)) =>
      var v := ReadUnit(buf, f.offset, n);
      Success(if signed then ToSigned(v, 8 * n) else v)
  }

  /** Native write of a plain integer field: the value modulo 2^(8n). */
  function PlainPut(buf: Bytes, f: Field, value: int): (r: Result<Bytes>)
    requires PlainIn(buf, f)
    ensures r.Success? ==> |r.value| == |buf|
    ensures r.Success? ==> forall i :: 0 <= i < |buf| && !(f.offset <= i < f.offset + Size(f.kind.native)) ==> r.value[i] == buf[i]
  {
    match IntegerShape(f.kind.native)
    case None => Failure(NotModelled)
    case Some((n, _)) => Success(WriteUnit(buf, f.offset, n, value))
  }

  /** A plain integer field reads back what was written, modulo its width and
      sign-extended when signed. */
  lemma PlainRoundTrip(buf: Bytes, f: Field, value: int)
    requires PlainIn(buf, f) && IntegerShape(f.kind.native).Some?
    ensures var (n, signed) := IntegerShape(f.kind.native).value;
      && PlainPut(buf, f, value).Success?
      && PlainGet(PlainPut(buf, f, value).value, f)
           == Success(if signed then ToSigned(value % Pow2(8 * n), 8 * n) else value % Pow2(8 * n))
  {
    var (n, _) := IntegerShape(f.kind.native).value;
    WriteUnitThenRead(buf, f.offset, n, value);
  }

  // ---------------------------------------------------------------------------
  // Embedded sub-structs
  // ---------------------------------------------------------------------------

  predicate EmbeddedIn(buf: Bytes, f: Field)
  {
    f.kind.Embedded? && f.offset + f.kind.sub.size <= |buf|
  }

  /** `get`: the sub-struct viewing the parent's bytes [offset, offset + size). */
  function EmbeddedView(buf: Bytes, f: Field): (r: Bytes)
    requires EmbeddedIn(buf, f)
    ensures |r| == f.kind.sub.size
  {
    Slice(buf, f.offset, f.kind.sub.size)
  }

  /** `put`: the sub-struct's own write on the view, stored back in place. */
  function EmbeddedStore(buf: Bytes, f: Field, view: Bytes): (r: Bytes)
    requires EmbeddedIn(buf, f) && |view| == f.kind.sub.size
    ensures |r| == |buf| && EmbeddedView(r, f) == view
    ensures forall i :: 0 <= i < |buf| && !(f.offset <= i < f.offset + f.kind.sub.size) ==> r[i] == buf[i]
  {
    Splice(buf, f.offset, view)
  }
}

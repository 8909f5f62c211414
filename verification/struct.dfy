/** The instance side of `StructEx`: a struct value is its layout and its bytes.
    Field values are mapped from descriptive to native form, stored through the
    field accessors, read back as one little-endian integer, and compared with
    integers, numeric text and hashes of field values. */
module StructEx {
  import opened Wrappers
  import opened Bits
  import opened Literal
  import opened FfiTypes
  import opened Packer
  import opened Access

  /** A Ruby value handed to `[]=`, `write`, `new` or `==`. A hash is its entries
      in insertion order. */
  datatype Value =
    | IntVal(n: int)
    | TextVal(s: string)
    | HashVal(entries: seq<Entry>)
    | NilVal

  datatype Entry = Entry(name: string, value: Value)

  /** What `self[name]` returns: an integer, or the bytes an embedded sub-struct views. */
  datatype Got = Number(n: int) | Nested(bytes: Bytes)

  /** A struct's bytes fit its layout. */
  predicate Fits(l: Layout, buf: Bytes)
  {
    WellFormed(l) && |buf| == l.size
  }

  /** The field a name denotes: the last one declared with it, as both the field
      table of the class and the layout's name map keep the last entry. */
  function FieldIndex(fields: seq<Field>, name: string): (r: Option<nat>)
    ensures r.None? <==> forall i :: 0 <= i < |fields| ==> fields[i].name != name
    ensures r.Some? ==> r.value < |fields| && fields[r.value].name == name
    ensures r.Some? ==> forall j :: r.value < j < |fields| ==> fields[j].name != name
  {
    if |fields| == 0 then None
    else if fields[|fields| - 1].name == name then Some(|fields| - 1)
    else FieldIndex(fields[..|fields| - 1], name)
  }

  /** ASCII lower-casing of `String#downcase`. */
  function Downcase(s: string): (r: string)
    ensures |r| == |s|
    ensures forall i :: 0 <= i < |s| ==>
      r[i] == if 'A' <= s[i] <= 'Z' then ((s[i] as int) + 32) as char else s[i]
  {
    if |s| == 0 then ""
    else [if 'A' <= s[0] <= 'Z' then ((s[0] as int) + 32) as char else s[0]] + Downcase(s[1..])
  }

  lemma DowncaseIdempotent(s: string)
    ensures Downcase(Downcase(s)) == Downcase(s)
  {
  }

  /** The key a value is looked up under in a descriptor table. */
  function DescriptorKey(v: Value): Option<Key>
  {
    match v
    case TextVal(s) => Some(TextKey(Downcase(s)))
    case IntVal(n) => Some(IntKey(n))
    case _ => None
  }

  /** `map_field_value`: a descriptor first, then `to_dec` for text given to a
      numeric field (nil when the text is not a number), else the value itself.
      An unknown field name fails. */
  function MapFieldValue(l: Layout, name: string, v: Value): (r: Result<Value>)
    ensures r.Failure? <==> FieldIndex(l.fields, name).None?
    // a descriptor for the value wins over everything else, `to_dec` included
    ensures r.Success? ==> var f := l.fields[FieldIndex(l.fields, name).value];
      var key := DescriptorKey(v);
      key.Some? && key.value in f.descriptors ==> r.value == IntVal(f.descriptors[key.value])
    // the result is the value itself, an integer, or nil
    ensures r.Success? ==> r.value == v || r.value.IntVal? || r.value.NilVal?
    // a numeric field is never handed text
    ensures r.Success? && IsNumeric(l.fields[FieldIndex(l.fields, name).value]) ==> !r.value.TextVal?
    // only a descriptor, or text given to a numeric field, changes the value
    ensures r.Success? && r.value != v ==> var f := l.fields[FieldIndex(l.fields, name).value];
      var key := DescriptorKey(v);
      (key.Some? && key.value in f.descriptors) || (IsNumeric(f) && v.TextVal?)
    // nil comes only from nil or from text that is not a number
    ensures r.Success? && r.value.NilVal? ==> v.NilVal? || (v.TextVal? && ToDec(v.s).None?)
  {
    match FieldIndex(l.fields, name)
    case None => Failure(UnknownField(name))
    case Some(i) =>
      var f := l.fields[i];
      var key := DescriptorKey(v);
      if key.Some? && key.value in f.descriptors then Success(IntVal(f.descriptors[key.value]))
      else if IsNumeric(f) && v.TextVal? then
        Success(match ToDec(v.s) case Some(n) => IntVal(n) case None => NilVal)
      else Success(v)
  }

  /** Fields inside a fitting buffer can be accessed. */
  lemma FieldAccessible(l: Layout, buf: Bytes, i: nat)
    requires Fits(l, buf) && i < |l.fields|
    ensures var f := l.fields[i];
      && (f.kind.BitField? ==> BitFieldIn(buf, f))
      && (f.kind.Plain? ==> PlainIn(buf, f))
      && (f.kind.Embedded? ==> EmbeddedIn(buf, f) && WellFormed(f.kind.sub))
  {
    assert FieldWithin(l.fields[i], l.size);
  }

  /** `self[name]`: the field's getter. */
  function Get(l: Layout, buf: Bytes, name: string): (r: Result<Got>)
    requires Fits(l, buf)
    ensures r.Success? ==> FieldIndex(l.fields, name).Some?
    ensures r.Success? ==> (r.value.Nested? <==> l.fields[FieldIndex(l.fields, name).value].kind.Embedded?)
  {
    match FieldIndex(l.fields, name)
    case None => Failure(UnknownField(name))
    case Some(i) =>
      var f := l.fields[i];
      FieldAccessible(l, buf, i);
      match f.kind
      case BitField(_, _, _) => Success(Number(BitFieldGet(buf, f)))
      case Plain(_) =>
        var n :- PlainGet(buf, f);
        Success(Number(n))
      case Embedded(_) => Success(Nested(EmbeddedView(buf, f)))
  }

  /** The field's setter given an already mapped value. Bit-fields and integer
      fields take integers only; an embedded sub-struct writes the value over
      its own bytes. */
  function Store(l: Layout, buf: Bytes, i: nat, v: Value): (r: Result<Bytes>)
    requires Fits(l, buf) && i < |l.fields|
    ensures r.Success? ==> |r.value| == |buf|
    ensures r.Success? ==> var f := l.fields[i];
      forall j :: 0 <= j < |buf| && !(f.offset <= j < f.offset + KindSize(f.kind)) ==> r.value[j] == buf[j]
    decreases l, 0
  {
    var f := l.fields[i];
    FieldAccessible(l, buf, i);
    match f.kind
    case BitField(_, _, _) =>
      if v.IntVal? then Success(BitFieldPut(buf, f, v.n)) else Failure(TypeMismatch)
    case Plain(_) =>
      if v.IntVal? then PlainPut(buf, f, v.n) else Failure(TypeMismatch)
    case Embedded(sub) =>
      assert l.fields[i] in l.fields;
      var view' :- Write(sub, EmbeddedView(buf, f), v);
      Success(EmbeddedStore(buf, f, view'))
  }

  /** `self[name] = value` */
  function Set(l: Layout, buf: Bytes, name: string, v: Value): (r: Result<Bytes>)
    requires Fits(l, buf)
    ensures r.Success? ==> |r.value| == |buf| && FieldIndex(l.fields, name).Some?
    ensures r.Success? ==> var f := l.fields[FieldIndex(l.fields, name).value];
      forall j :: 0 <= j < |buf| && !(f.offset <= j < f.offset + KindSize(f.kind)) ==> r.value[j] == buf[j]
    decreases l, 1, 0
  {
    var mapped :- MapFieldValue(l, name, v);
    Store(l, buf, FieldIndex(l.fields, name).value, mapped)
  }

  /** `write(value)`: an integer replaces every byte, a hash sets its entries in
      order, anything else changes nothing. */
  function Write(l: Layout, buf: Bytes, v: Value): (r: Result<Bytes>)
    requires Fits(l, buf)
    ensures r.Success? ==> |r.value| == |buf|
    // an integer is stored whole: `read` gives it back modulo 2^(8 size)
    ensures v.IntVal? ==> r.Success? && ReadBytes(r.value) == v.n % Pow2(8 * l.size)
    // a hash changes no byte outside the fields its entries name
    ensures v.HashVal? && r.Success? ==>
      forall j :: 0 <= j < |buf| && OutsideEntries(l, v.entries, j) ==> r.value[j] == buf[j]
    // any other value is ignored
    ensures !v.IntVal? && !v.HashVal? ==> r == Success(buf)
    decreases l, 3, 0
  {
    match v
    case IntVal(n) =>
      WriteThenRead(n, l.size);
      Success(ToBytes(n, l.size))
    case HashVal(es) => WriteEntries(l, buf, es)
    case _ => Success(buf)
  }

  /** Byte j lies outside every field that an entry of es names. */
  predicate OutsideEntries(l: Layout, es: seq<Entry>, j: int)
  {
    forall k :: 0 <= k < |es| && FieldIndex(l.fields, es[k].name).Some? ==>
      var f := l.fields[FieldIndex(l.fields, es[k].name).value];
      !(f.offset <= j < f.offset + KindSize(f.kind))
  }

  function WriteEntries(l: Layout, buf: Bytes, es: seq<Entry>): (r: Result<Bytes>)
    requires Fits(l, buf)
    ensures r.Success? ==> |r.value| == |buf|
    ensures r.Success? ==> forall j :: 0 <= j < |buf| && OutsideEntries(l, es, j) ==> r.value[j] == buf[j]
    decreases l, 2, |es|
  {
    if |es| == 0 then Success(buf)
    else
      var buf' :- Set(l, buf, es[0].name, es[0].value);
      OutsideRest(l, es, |buf|);
      WriteEntries(l, buf', es[1..])
  }

  /** A byte outside the fields of all entries is outside those of the first and
      of the rest. */
  lemma OutsideRest(l: Layout, es: seq<Entry>, n: nat)
    requires |es| > 0
    ensures forall j :: 0 <= j < n && OutsideEntries(l, es, j) ==> OutsideEntries(l, es[1..], j)
  {
    forall j | 0 <= j < n && OutsideEntries(l, es, j) ensures OutsideEntries(l, es[1..], j) {
      forall k | 0 <= k < |es[1..]| && FieldIndex(l.fields, es[1..][k].name).Some?
        ensures var f := l.fields[FieldIndex(l.fields, es[1..][k].name).value];
          !(f.offset <= j < f.offset + KindSize(f.kind))
      {
        assert es[1..][k] == es[k + 1];
      }
    }
  }

  /** `read`: the struct's bytes as one little-endian unsigned integer. */
  function Read(l: Layout, buf: Bytes): (r: nat)
    requires Fits(l, buf)
    ensures r < Pow2(8 * l.size)
  {
    ReadBytesIsLittleEndian(buf);
    ReadBytes(buf)
  }

  /** `StructEx.new(value)`: zeroed memory of the struct's size, then `write(value)`. */
  function New(l: Layout, v: Value): (r: Result<Bytes>)
    requires WellFormed(l)
    ensures r.Success? ==> |r.value| == l.size
  {
    Write(l, seq(l.size, _ => 0), v)
  }

  // ---------------------------------------------------------------------------
  // Comparison
  // ---------------------------------------------------------------------------

  /** `self == other`: an integer compares with `read`, text with its `to_dec`
      value, a hash entry by entry through `map_field_value`; anything else is
      unequal. */
  function Equals(l: Layout, buf: Bytes, other: Value): (r: Result<bool>)
    requires Fits(l, buf)
    decreases l, 2, 0
  {
    match other
    case IntVal(n) => Success(Read(l, buf) == n)
    case TextVal(s) =>
      (match ToDec(s)
       case Some(n) => Success(Read(l, buf) == n)
       case None => Success(false))
    case HashVal(es) => EqualsEntries(l, buf, es)
    case NilVal => Success(false)
  }

  /** `other.all? {|k, v| self[k] == map_field_value(k, v)}`, stopping at the
      first entry that differs. */
  function EqualsEntries(l: Layout, buf: Bytes, es: seq<Entry>): (r: Result<bool>)
    requires Fits(l, buf)
    decreases l, 1, |es|
  {
    if |es| == 0 then Success(true)
    else
      var same :- EntryEquals(l, buf, es[0]);
      if !same then Success(false) else EqualsEntries(l, buf, es[1..])
  }

  function EntryEquals(l: Layout, buf: Bytes, e: Entry): (r: Result<bool>)
    requires Fits(l, buf)
    decreases l, 0, 0
  {
    var got :- Get(l, buf, e.name);
    var mapped :- MapFieldValue(l, e.name, e.value);
    var i := FieldIndex(l.fields, e.name).value;
    FieldAccessible(l, buf, i);
    match got
    case Number(x) => Success(mapped == IntVal(x))
    case Nested(view) =>
      var sub := l.fields[i].kind.sub;
      assert l.fields[i] in l.fields;
      Equals(sub, view, mapped)
  }

  // ---------------------------------------------------------------------------
  // Whole-struct round trips
  // ---------------------------------------------------------------------------

  /** `write(V)` stores `V.to_bytes(size)`. */
  lemma WriteStoresBytes(l: Layout, buf: Bytes, n: int)
    requires Fits(l, buf)
    ensures Write(l, buf, IntVal(n)) == Success(ToBytes(n, l.size))
  {
  }

  /** `write(V)` then `read` gives V modulo 2^(8 size); for V in range the struct
      then compares equal to V, and to any text that `to_dec` parses as V. */
  lemma WriteIntegerThenRead(l: Layout, buf: Bytes, n: int)
    requires Fits(l, buf)
    ensures Write(l, buf, IntVal(n)).Success?
    ensures var b := Write(l, buf, IntVal(n)).value;
      && Read(l, b) == n % Pow2(8 * l.size)
      && (0 <= n < Pow2(8 * l.size) ==> Equals(l, b, IntVal(n)) == Success(true))
      && (forall s :: ToDec(s) == Some(n) && 0 <= n < Pow2(8 * l.size) ==> Equals(l, b, TextVal(s)) == Success(true))
  {
    WriteThenRead(n, l.size);
  }

  /** Comparing with the decimal, `0x` or `0b` text of a number is comparing with
      the number. */
  lemma EqualsFormatted(l: Layout, buf: Bytes, n: int)
    requires Fits(l, buf)
    ensures Equals(l, buf, TextVal(FormatDecimal(n))) == Equals(l, buf, IntVal(n))
    ensures Equals(l, buf, TextVal(FormatHex(n))) == Equals(l, buf, IntVal(n))
    ensures Equals(l, buf, TextVal(FormatBinary(n))) == Equals(l, buf, IntVal(n))
  {
    DecimalRoundTrip(n);
    HexRoundTrip(n);
    BinaryRoundTrip(n);
  }

  /** A struct never equals nil or text that is not a number. */
  lemma UnequalToNonNumbers(l: Layout, buf: Bytes, s: string)
    requires Fits(l, buf) && ToDec(s).None?
    ensures Equals(l, buf, TextVal(s)) == Success(false)
    ensures Equals(l, buf, NilVal) == Success(false)
  {
  }

  function Zeros(n: nat): (r: Bytes)
    ensures |r| == n
  {
    seq(n, _ => 0)
  }

  /** A new struct starts zeroed: with no value, or with an empty hash, every
      byte is zero and `read` is 0; with an integer it reads back that integer
      modulo 2^(8 size). */
  lemma NewStruct(l: Layout, n: int)
    requires WellFormed(l)
    ensures New(l, NilVal) == Success(Zeros(l.size))
    ensures New(l, HashVal([])) == Success(Zeros(l.size))
    ensures Read(l, Zeros(l.size)) == 0
    ensures New(l, IntVal(n)).Success? && Read(l, New(l, IntVal(n)).value) == n % Pow2(8 * l.size)
  {
    assert ToBytes(0, l.size) == Zeros(l.size);
    assert WriteEntries(l, Zeros(l.size), []) == Success(Zeros(l.size));
    WriteThenRead(0, l.size);
    WriteIntegerThenRead(l, Zeros(l.size), n);
  }

  // ---------------------------------------------------------------------------
  // Field-level round trips and frames
  // ---------------------------------------------------------------------------

  /** The field a name denotes, when there is one. */
  function FieldNamed(l: Layout, name: string): (f: Field)
    requires FieldIndex(l.fields, name).Some?
    ensures f in l.fields && f.name == name
  {
    l.fields[FieldIndex(l.fields, name).value]
  }

  /** The value `get` returns after `put` of the integer v on a bit-field. */
  function BitFieldReadBack(f: Field, v: int): int
    requires f.kind.BitField?
  {
    var w := f.kind.width;
    if f.kind.base.signed then ToSigned(v % Pow2(w), w) else v % Pow2(w)
  }

  /** `s[name] = v` then `s[name]` on a bit-field gives v truncated to the field's
      width, sign-extended on a signed base, when no descriptor maps v. */
  lemma SetBitFieldThenGet(l: Layout, buf: Bytes, name: string, v: int)
    requires Fits(l, buf) && FieldIndex(l.fields, name).Some?
    requires FieldNamed(l, name).kind.BitField?
    requires IntKey(v) !in FieldNamed(l, name).descriptors
    ensures Set(l, buf, name, IntVal(v)).Success?
    ensures Get(l, Set(l, buf, name, IntVal(v)).value, name) == Success(Number(BitFieldReadBack(FieldNamed(l, name), v)))
  {
    var i := FieldIndex(l.fields, name).value;
    FieldAccessible(l, buf, i);
    BitFieldRoundTrip(buf, l.fields[i], v);
  }

  /** Text given to a numeric field without a matching descriptor is stored as
      the number `to_dec` reads from it. */
  lemma SetText(l: Layout, buf: Bytes, name: string, s: string)
    requires Fits(l, buf) && FieldIndex(l.fields, name).Some?
    requires IsNumeric(FieldNamed(l, name)) && ToDec(s).Some?
    requires TextKey(Downcase(s)) !in FieldNamed(l, name).descriptors
    requires IntKey(ToDec(s).value) !in FieldNamed(l, name).descriptors
    ensures Set(l, buf, name, TextVal(s)) == Set(l, buf, name, IntVal(ToDec(s).value))
  {
  }

  /** A descriptor is looked up with the text lower-cased, so text in any case
      maps as its lower-case form does when the table holds that form. */
  lemma DescriptorCaseInsensitive(l: Layout, name: string, s: string)
    requires FieldIndex(l.fields, name).Some?
    requires TextKey(Downcase(s)) in FieldNamed(l, name).descriptors
    ensures MapFieldValue(l, name, TextVal(s)) == MapFieldValue(l, name, TextVal(Downcase(s)))
    ensures MapFieldValue(l, name, TextVal(s)) == Success(IntVal(FieldNamed(l, name).descriptors[TextKey(Downcase(s))]))
  {
    DowncaseIdempotent(s);
  }

  /** The bytes [start, start + n) of two buffers agree. */
  predicate SameBytes(a: Bytes, b: Bytes, start: nat, n: nat)
    requires start + n <= |a| && start + n <= |b|
  {
    forall j :: start <= j < start + n ==> a[j] == b[j]
  }

  /** `self[name]` reads only the field's own bytes. */
  lemma GetLocal(l: Layout, a: Bytes, b: Bytes, name: string)
    requires Fits(l, a) && Fits(l, b) && FieldIndex(l.fields, name).Some?
    requires var f := FieldNamed(l, name); SameBytes(a, b, f.offset, KindSize(f.kind))
    ensures Get(l, a, name) == Get(l, b, name)
  {
    var i := FieldIndex(l.fields, name).value;
    var f := l.fields[i];
    FieldAccessible(l, a, i);
    match f.kind
    case BitField(base, _, _) => ReadUnitLocal(a, b, f.offset, base.bytes);
    case Plain(t) =>
      if IntegerShape(t).Some? {
        ReadUnitLocal(a, b, f.offset, IntegerShape(t).value.0);
      }
    case Embedded(sub) =>
      assert EmbeddedView(a, f) == EmbeddedView(b, f);
  }

  /** Two fields whose bytes do not overlap. */
  predicate BytesApart(f: Field, g: Field)
  {
    f.offset + KindSize(f.kind) <= g.offset || g.offset + KindSize(g.kind) <= f.offset
  }

  /** Two bit-fields in the same allocation unit with disjoint bits. */
  predicate BitsApart(f: Field, g: Field)
  {
    && f.kind.BitField? && g.kind.BitField?
    && f.offset == g.offset && f.kind.base.bytes == g.kind.base.bytes
    && (f.kind.bitOffset + f.kind.width <= g.kind.bitOffset
        || g.kind.bitOffset + g.kind.width <= f.kind.bitOffset)
  }

  predicate Apart(f: Field, g: Field)
  {
    BytesApart(f, g) || BitsApart(f, g)
  }

  /** Setting one field leaves every field apart from it reading as before:
      one whose bytes it does not touch, whatever their kinds (this covers the
      embedded sub-struct's byte range), and a bit-field sharing its unit with
      disjoint bits. */
  lemma SetFrame(l: Layout, buf: Bytes, name: string, v: Value, other: string)
    requires Fits(l, buf) && FieldIndex(l.fields, other).Some?
    requires Set(l, buf, name, v).Success?
    requires Apart(FieldNamed(l, name), FieldNamed(l, other))
    ensures Get(l, Set(l, buf, name, v).value, other) == Get(l, buf, other)
  {
    var buf' := Set(l, buf, name, v).value;
    var f, g := FieldNamed(l, name), FieldNamed(l, other);
    if BytesApart(f, g) {
      GetLocal(l, buf', buf, other);
    } else {
      var i, k := FieldIndex(l.fields, name).value, FieldIndex(l.fields, other).value;
      FieldAccessible(l, buf, i);
      FieldAccessible(l, buf, k);
      var m := MapFieldValue(l, name, v).value;
      BitFieldPutFrame(buf, f, m.n, g);
    }
  }

  // ---------------------------------------------------------------------------
  // Writing a hash and comparing with it
  // ---------------------------------------------------------------------------

  /** An integer a bit-field or an integer field holds exactly. */
  predicate InRange(f: Field, m: int)
  {
    match f.kind
    case BitField(base, w, _) =>
      if base.signed then w >= 1 && -Pow2(w - 1) <= m < Pow2(w - 1) else 0 <= m < Pow2(w)
    case Plain(t) =>
      IntegerShape(t).Some? &&
      var (n, signed) := IntegerShape(t).value;
      n >= 1 && if signed then -Pow2(8 * n - 1) <= m < Pow2(8 * n - 1) else 0 <= m < Pow2(8 * n)
    case Embedded(_) => false
  }

  /** A hash entry that names a bit-field or an integer field and maps to an
      integer that field holds. */
  predicate Settles(l: Layout, e: Entry)
  {
    && FieldIndex(l.fields, e.name).Some?
    && var r := MapFieldValue(l, e.name, e.value);
       r.Success? && r.value.IntVal? && InRange(FieldNamed(l, e.name), r.value.n)
  }

  function Mapped(l: Layout, e: Entry): int
    requires Settles(l, e)
  {
    MapFieldValue(l, e.name, e.value).value.n
  }

  /** Setting a settling entry and reading its field back gives the mapped value. */
  lemma EntryRoundTrip(l: Layout, buf: Bytes, e: Entry)
    requires Fits(l, buf) && Settles(l, e)
    ensures Set(l, buf, e.name, e.value).Success?
    ensures Get(l, Set(l, buf, e.name, e.value).value, e.name) == Success(Number(Mapped(l, e)))
  {
    var i := FieldIndex(l.fields, e.name).value;
    var f := l.fields[i];
    FieldAccessible(l, buf, i);
    var m := Mapped(l, e);
    match f.kind
    case BitField(_, _, _) => BitFieldInRange(buf, f, m);
    case Plain(t) =>
      var (n, signed) := IntegerShape(t).value;
      PlainRoundTrip(buf, f, m);
      if signed {
        ToSignedOfTruncated(m, 8 * n);
      } else {
        DivModUnique(m, Pow2(8 * n), 0, m);
      }
  }

  /** Every entry names a field, and the fields of any two entries are apart. */
  predicate EntriesApart(l: Layout, es: seq<Entry>)
  {
    && (forall i :: 0 <= i < |es| ==> FieldIndex(l.fields, es[i].name).Some?)
    && (forall i, j :: 0 <= i < j < |es| ==> Apart(FieldNamed(l, es[i].name), FieldNamed(l, es[j].name)))
  }

  /** Writing entries whose fields are all apart from another field leaves that
      field reading as before. */
  lemma {:induction false} WriteEntriesFrame(l: Layout, buf: Bytes, es: seq<Entry>, other: string)
    requires Fits(l, buf) && FieldIndex(l.fields, other).Some?
    requires WriteEntries(l, buf, es).Success?
    requires forall i :: 0 <= i < |es| ==>
      FieldIndex(l.fields, es[i].name).Some? && Apart(FieldNamed(l, es[i].name), FieldNamed(l, other))
    ensures Get(l, WriteEntries(l, buf, es).value, other) == Get(l, buf, other)
    decreases |es|
  {
    if |es| > 0 {
      var buf' := Set(l, buf, es[0].name, es[0].value).value;
      SetFrame(l, buf, es[0].name, es[0].value, other);
      WriteEntriesFrame(l, buf', es[1..], other);
    }
  }

  /** After writing a hash of settling entries on fields that are apart, each
      entry's field reads its mapped value. */
  lemma {:induction false} WriteEntriesSettle(l: Layout, buf: Bytes, es: seq<Entry>)
    requires Fits(l, buf) && EntriesApart(l, es)
    requires forall i :: 0 <= i < |es| ==> Settles(l, es[i])
    ensures WriteEntries(l, buf, es).Success?
    ensures forall i :: 0 <= i < |es| ==>
      Get(l, WriteEntries(l, buf, es).value, es[i].name) == Success(Number(Mapped(l, es[i])))
    decreases |es|
  {
    if |es| > 0 {
      EntryRoundTrip(l, buf, es[0]);
      var buf' := Set(l, buf, es[0].name, es[0].value).value;
      var rest := es[1..];
      assert EntriesApart(l, rest) by {
        forall i, j | 0 <= i < j < |rest|
          ensures Apart(FieldNamed(l, rest[i].name), FieldNamed(l, rest[j].name))
        {
          assert rest[i] == es[i + 1] && rest[j] == es[j + 1];
        }
      }
      WriteEntriesSettle(l, buf', rest);
      forall i | 0 <= i < |rest|
        ensures FieldIndex(l.fields, rest[i].name).Some?
        ensures Apart(FieldNamed(l, rest[i].name), FieldNamed(l, es[0].name))
      {
        assert rest[i] == es[i + 1];
        ApartSymmetric(FieldNamed(l, es[0].name), FieldNamed(l, es[i + 1].name));
      }
      WriteEntriesFrame(l, buf', rest, es[0].name);
    }
  }

  lemma ApartSymmetric(f: Field, g: Field)
    requires Apart(f, g)
    ensures Apart(g, f)
  {
  }

  /** A hash compares equal when every entry's field reads its mapped value. */
  lemma {:induction false} EqualsEntriesOfSettled(l: Layout, buf: Bytes, es: seq<Entry>)
    requires Fits(l, buf)
    requires forall i :: 0 <= i < |es| ==>
      Settles(l, es[i]) && Get(l, buf, es[i].name) == Success(Number(Mapped(l, es[i])))
    ensures EqualsEntries(l, buf, es) == Success(true)
    decreases |es|
  {
    if |es| > 0 {
      assert EntryEquals(l, buf, es[0]) == Success(true);
      EqualsEntriesOfSettled(l, buf, es[1..]);
    }
  }

  /** Writing a hash of integer values to distinct, non-overlapping bit-fields or
      integer fields, each value in its field's range after mapping, makes the
      struct compare equal to that hash. */
  lemma WriteHashThenEquals(l: Layout, buf: Bytes, es: seq<Entry>)
    requires Fits(l, buf) && EntriesApart(l, es)
    requires forall i :: 0 <= i < |es| ==> Settles(l, es[i])
    ensures Write(l, buf, HashVal(es)).Success?
    ensures Equals(l, Write(l, buf, HashVal(es)).value, HashVal(es)) == Success(true)
  {
    WriteEntriesSettle(l, buf, es);
    var b := WriteEntries(l, buf, es).value;
    EqualsEntriesOfSettled(l, b, es);
  }
}

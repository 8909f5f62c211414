/** `array_layout`: the walk over a struct's declaration list that places plain
    fields, embedded sub-structs and bit-fields, packing adjacent bit-fields into
    shared allocation units.

    The declaration list is Ruby's flat argument list, one token per element.
    `FFI::StructLayoutBuilder` is not visible to the model; its behaviour is the
    stated assumption of `Add` and `Finish`: a field is placed at its explicit
    offset or at the builder's size rounded up to the field's alignment, the size
    grows to cover the field, the alignment is the largest field alignment, and
    the final size is rounded up to that alignment. */
module Packer {
  import opened Wrappers
  import opened FfiTypes
  import Bits

  /** A key of a descriptor table: text or an integer. */
  datatype Key = TextKey(text: string) | IntKey(number: int)

  /** Descriptors map a symbolic value of a field to its native integer. */
  type Descriptors = map<Key, int>

  /** One element of the declaration list. */
  datatype Token =
    | Sym(name: string)            // a field name, or a type name such as :uint8
    | Int(value: int)              // a bare bit-field width, or an explicit byte offset
    | Text(text: string)           // a "base: N" bit-field
    | Desc(table: Descriptors)     // a descriptor hash
    | Sub(specs: seq<Token>)       // bit_fields(...): an embedded sub-struct

  datatype FieldKind =
    | Plain(native: NativeType)
    | BitField(base: IntType, width: nat, bitOffset: nat)
    | Embedded(sub: Layout)

  /** A placed field: its byte offset is that of its allocation unit for a
      bit-field, of its storage otherwise. */
  datatype Field = Field(name: string, kind: FieldKind, offset: nat, descriptors: Descriptors)

  datatype Layout = Layout(fields: seq<Field>, size: nat, alignment: nat)

  /** Bytes a field occupies: the whole unit for a bit-field. */
  function KindSize(k: FieldKind): nat
  {
    match k
    case Plain(t) => Size(t)
    case BitField(base, _, _) => base.bytes
    case Embedded(sub) => sub.size
  }

  function KindAlignment(k: FieldKind): nat
  {
    match k
    case Plain(t) => Alignment(t)
    case BitField(base, _, _) => Alignment(Integer(base))
    case Embedded(sub) => sub.alignment
  }

  /** Fields whose textual values `map_field_value` parses with `to_dec`. */
  predicate IsNumeric(f: Field)
  {
    f.kind.BitField? || (f.kind.Plain? && IsNumber(f.kind.native))
  }

  function Max(a: nat, b: nat): nat
  {
    if a >= b then a else b
  }

  /** `align(off, a)`: the least multiple of a that is at least off. */
  function AlignUp(off: nat, a: nat): (r: nat)
    requires a >= 1
    ensures off <= r < off + a && r % a == 0
  {
    var q := (off + a - 1) / a;
    AlignUpFacts(off, a, q);
    q * a
  }

  lemma AlignUpFacts(off: nat, a: nat, q: int)
    requires a >= 1 && q == (off + a - 1) / a
    ensures q >= 0 && off <= q * a < off + a && (q * a) % a == 0
  {
    var r := (off + a - 1) % a;
    assert off + a - 1 == q * a + r;
    Bits.MulSign(q, a);
    Bits.DivModUnique(q * a, a, q, 0);
  }

  // ---------------------------------------------------------------------------
  // Well-formed layouts
  // ---------------------------------------------------------------------------

  /** A field lies inside a struct of the given size, and a bit-field's bits lie
      inside its unit. */
  predicate FieldWithin(f: Field, size: nat)
  {
    && f.offset + KindSize(f.kind) <= size
    && (f.kind.BitField? ==> f.kind.bitOffset + f.kind.width <= 8 * f.kind.base.bytes)
  }

  /** The invariants of a built layout, down through embedded sub-layouts. */
  predicate WellFormed(l: Layout)
  {
    && l.alignment >= 1
    && l.size % l.alignment == 0
    && (forall i :: 0 <= i < |l.fields| ==> FieldWithin(l.fields[i], l.size))
    && (forall i :: 0 <= i < |l.fields| ==> KindAlignment(l.fields[i].kind) <= l.alignment)
    && (forall i :: 0 <= i < |l.fields| ==>
          l.fields[i].kind.Embedded? ==> WellFormed(l.fields[i].kind.sub))
  }

  // ---------------------------------------------------------------------------
  // The builder
  // ---------------------------------------------------------------------------

  /** The open allocation unit: its byte width, the bits used so far and its
      byte offset. */
  datatype Unit = Unit(bytes: nat, bitsUsed: nat, offset: nat)

  datatype Builder = Builder(fields: seq<Field>, size: nat, alignment: nat, unit: Option<Unit>)

  const Empty := Builder([], 0, 1, None)

  predicate BuilderOk(b: Builder)
  {
    && b.alignment >= 1
    && (forall i :: 0 <= i < |b.fields| ==> FieldWithin(b.fields[i], b.size))
    && (forall i :: 0 <= i < |b.fields| ==> KindAlignment(b.fields[i].kind) <= b.alignment)
    && (forall i :: 0 <= i < |b.fields| ==>
          b.fields[i].kind.Embedded? ==> WellFormed(b.fields[i].kind.sub))
    && (b.unit.Some? ==>
          b.unit.value.bitsUsed <= 8 * b.unit.value.bytes
          && b.unit.value.offset + b.unit.value.bytes <= b.size)
  }

  /** `builder.add name, type, offset` */
  function Add(b: Builder, f: Field): (r: Builder)
    ensures r.fields == b.fields + [f]
    ensures r.size >= b.size && r.size >= f.offset + KindSize(f.kind)
    ensures r.alignment >= b.alignment && r.alignment >= KindAlignment(f.kind)
  {
    Builder(b.fields + [f], Max(b.size, f.offset + KindSize(f.kind)),
            Max(b.alignment, KindAlignment(f.kind)), b.unit)
  }

  /** `builder.build`: tail padding to the struct's alignment. */
  function Finish(b: Builder): (l: Layout)
    requires BuilderOk(b)
    ensures WellFormed(l)
    ensures l.fields == b.fields && l.alignment == b.alignment && l.size >= b.size
  {
    Layout(b.fields, AlignUp(b.size, b.alignment), b.alignment)
  }

  /** A plain or embedded field at its explicit offset, or aligned after the
      fields so far; it closes the open allocation unit. */
  function PlacePlain(b: Builder, name: string, kind: FieldKind, explicit: Option<nat>,
                      desc: Descriptors): (r: Builder)
    requires BuilderOk(b) && !kind.BitField? && KindAlignment(kind) >= 1
    requires kind.Embedded? ==> WellFormed(kind.sub)
    ensures BuilderOk(r) && r.unit.None? && |r.fields| == |b.fields| + 1
    ensures r.fields[..|b.fields|] == b.fields
    ensures var f := r.fields[|b.fields|];
      && f.name == name && f.kind == kind && f.descriptors == desc
      && f.offset == (if explicit.Some? then explicit.value else AlignUp(b.size, KindAlignment(kind)))
  {
    var offset := if explicit.Some? then explicit.value else AlignUp(b.size, KindAlignment(kind));
    var r := Add(b, Field(name, kind, offset, desc)).(unit := None);
    assert r.fields[..|b.fields|] == b.fields;
    r
  }

  /** `[@min_alignment || 1, base.alignment].max` */
  function UnitAlignment(minAlignment: Option<nat>, base: IntType): nat
  {
    Max(if minAlignment.Some? then minAlignment.value else 1, Alignment(Integer(base)))
  }

  /** The condition under which a new bit-field joins the open allocation unit:
      the same base byte size, and room for its bits. */
  predicate Joins(b: Builder, base: IntType, width: nat)
  {
    b.unit.Some? && b.unit.value.bytes == base.bytes
    && b.unit.value.bitsUsed + width <= 8 * base.bytes
  }

  /** The bit-field branch of `array_layout`. */
  function PlaceBitField(b: Builder, name: string, base: IntType, width: nat,
                         minAlignment: Option<nat>, desc: Descriptors): (r: Builder)
    requires BuilderOk(b) && base.bytes >= 1 && width <= 8 * base.bytes
    ensures BuilderOk(r) && |r.fields| == |b.fields| + 1
    ensures r.fields[..|b.fields|] == b.fields
    ensures var f := r.fields[|b.fields|];
      && f.name == name && f.descriptors == desc
      && f.kind.BitField? && f.kind.base == base && f.kind.width == width
      && r.unit == Some(Unit(base.bytes, f.kind.bitOffset + width, f.offset))
      && (Joins(b, base, width) ==>
            f.offset == b.unit.value.offset && f.kind.bitOffset == b.unit.value.bitsUsed)
      && (!Joins(b, base, width) ==>
            f.offset == AlignUp(b.size, UnitAlignment(minAlignment, base)) && f.kind.bitOffset == 0)
  {
    var unit :=
      if Joins(b, base, width) then b.unit.value.(bitsUsed := b.unit.value.bitsUsed + width)
      else Unit(base.bytes, width, AlignUp(b.size, UnitAlignment(minAlignment, base)));
    var f := Field(name, BitField(base, width, unit.bitsUsed - width), unit.offset, desc);
    var r := Add(b, f).(unit := Some(unit));
    assert r.fields[..|b.fields|] == b.fields;
    assert r.fields[|b.fields|] == f;
    r
  }

  // ---------------------------------------------------------------------------
  // The walk over the declaration list
  // ---------------------------------------------------------------------------

  /** An integer after a plain or embedded type is that field's byte offset. */
  function ExplicitOffset(toks: seq<Token>, j: nat): (r: Result<(Option<nat>, nat)>)
    requires j <= |toks|
    ensures r.Success? ==> j <= r.value.1 <= |toks|
  {
    if j < |toks| && toks[j].Int? then
      if toks[j].value >= 0 then Success((Some(toks[j].value as nat), j + 1))
      else Failure(MalformedDeclaration)
    else Success((None, j))
  }

  /** A hash after a field's type is its descriptor table. */
  function TakeDescriptors(toks: seq<Token>, j: nat): (r: (Descriptors, nat))
    requires j <= |toks|
    ensures j <= r.1 <= |toks|
  {
    if j < |toks| && toks[j].Desc? then (toks[j].table, j + 1) else (map[], j)
  }

  /** One field of the declaration list starting at index i: the builder after
      placing it and the index of the next field. */
  function PackField(reg: Registry, minAlignment: Option<nat>, toks: seq<Token>, i: nat, b: Builder)
    : (r: Result<(Builder, nat)>)
    requires i < |toks| && BuilderOk(b)
    ensures r.Success? ==> BuilderOk(r.value.0) && i < r.value.1 <= |toks|
    ensures r.Success? ==> |r.value.0.fields| == |b.fields| + 1 && r.value.0.fields[..|b.fields|] == b.fields
    decreases toks, 0, 0
  {
    if !toks[i].Sym? || i + 1 >= |toks| then Failure(MalformedDeclaration)
    else
      var name := toks[i].name;
      match toks[i + 1]
      case Int(n) => PackBitField(reg, minAlignment, toks, i + 2, b, name, BareWidth(n))
      case Text(t) => PackBitField(reg, minAlignment, toks, i + 2, b, name, BaseWidth(t))
      case Sym(typeName) =>
        var (explicit, j) :- ExplicitOffset(toks, i + 2);
        var t :- FindType(reg, typeName);
        var (desc, k) := TakeDescriptors(toks, j);
        Success((PlacePlain(b, name, Plain(t), explicit, desc), k))
      case Sub(specs) =>
        var (explicit, j) :- ExplicitOffset(toks, i + 2);
        var sub :- Build(reg, None, specs);
        var (desc, k) := TakeDescriptors(toks, j);
        Success((PlacePlain(b, name, Embedded(sub), explicit, desc), k))
      case Desc(_) => Failure(MalformedDeclaration)
  }

  function PackBitField(reg: Registry, minAlignment: Option<nat>, toks: seq<Token>, j: nat,
                        b: Builder, name: string, d: BitFieldDecl): (r: Result<(Builder, nat)>)
    requires j <= |toks| && BuilderOk(b)
    ensures r.Success? ==> BuilderOk(r.value.0) && j <= r.value.1 <= |toks|
    ensures r.Success? ==> |r.value.0.fields| == |b.fields| + 1 && r.value.0.fields[..|b.fields|] == b.fields
  {
    var (base, width) :- ResolveBitField(reg, d);
    BaseBytesPositive(base);
    var (desc, k) := TakeDescriptors(toks, j);
    Success((PlaceBitField(b, name, base, width, minAlignment, desc), k))
  }

  lemma BaseBytesPositive(t: IntType)
    requires t in SignedBases || t in UnsignedBases
    ensures t.bytes >= 1
  {
  }

  /** The fields from index i on, added to the builder b. */
  function Pack(reg: Registry, minAlignment: Option<nat>, toks: seq<Token>, i: nat, b: Builder)
    : (r: Result<Builder>)
    requires i <= |toks| && BuilderOk(b)
    ensures r.Success? ==> BuilderOk(r.value)
    ensures r.Success? ==> |r.value.fields| >= |b.fields| && r.value.fields[..|b.fields|] == b.fields
    decreases toks, 1, |toks| - i
  {
    if i == |toks| then Success(b)
    else
      var (b', k) :- PackField(reg, minAlignment, toks, i, b);
      var r :- Pack(reg, minAlignment, toks, k, b');
      assert r.fields[..|b.fields|] == r.fields[..|b'.fields|][..|b.fields|];
      Success(r)
  }

  /** `layout(*field_specs)` of a struct class, with the class's minimum unit
      alignment (`@min_alignment`, nil when `None`). */
  function Build(reg: Registry, minAlignment: Option<nat>, toks: seq<Token>): (r: Result<Layout>)
    ensures r.Success? ==> WellFormed(r.value)
    decreases toks, 2, 0
  {
    var b :- Pack(reg, minAlignment, toks, 0, Empty);
    Success(Finish(b))
  }

  // ---------------------------------------------------------------------------
  // Properties of the walk
  // ---------------------------------------------------------------------------

  /** A plain or embedded field closes the open unit, so the bit-field after it
      opens a fresh unit at an aligned offset with bit offset 0. */
  lemma PlainClosesUnit(b: Builder, name: string, kind: FieldKind, explicit: Option<nat>,
                        desc: Descriptors, next: string, base: IntType, width: nat,
                        minAlignment: Option<nat>, nextDesc: Descriptors)
    requires BuilderOk(b) && !kind.BitField? && KindAlignment(kind) >= 1
    requires kind.Embedded? ==> WellFormed(kind.sub)
    requires base.bytes >= 1 && width <= 8 * base.bytes
    ensures var b1 := PlacePlain(b, name, kind, explicit, desc);
      var b2 := PlaceBitField(b1, next, base, width, minAlignment, nextDesc);
      var f := b2.fields[|b1.fields|];
      f.offset == AlignUp(b1.size, UnitAlignment(minAlignment, base)) && f.kind.bitOffset == 0
  {
  }

  /** Two bit-fields placed one after the other share a unit exactly when their
      bases have the same byte size and the second still fits; the second then
      starts where the first ends. */
  lemma AdjacentBitFields(b: Builder, n1: string, base1: IntType, w1: nat, n2: string,
                          base2: IntType, w2: nat, minAlignment: Option<nat>, d1: Descriptors, d2: Descriptors)
    requires BuilderOk(b) && base1.bytes >= 1 && w1 <= 8 * base1.bytes
    requires base2.bytes >= 1 && w2 <= 8 * base2.bytes
    ensures var b1 := PlaceBitField(b, n1, base1, w1, minAlignment, d1);
      var b2 := PlaceBitField(b1, n2, base2, w2, minAlignment, d2);
      var f1, f2 := b1.fields[|b.fields|], b2.fields[|b1.fields|];
      && (Joins(b1, base2, w2) <==>
            base1.bytes == base2.bytes && f1.kind.bitOffset + w1 + w2 <= 8 * base2.bytes)
      && (Joins(b1, base2, w2) ==> f2.offset == f1.offset && f2.kind.bitOffset == f1.kind.bitOffset + w1)
  {
  }

  /** A field name followed by a type name places a plain field of that type,
      at the integer after it when there is one and otherwise at the builder's
      size rounded up to the type's alignment, and closes the open unit. */
  lemma PackPlainField(reg: Registry, minAlignment: Option<nat>, toks: seq<Token>, i: nat, b: Builder)
    requires i + 1 < |toks| && BuilderOk(b)
    requires toks[i].Sym? && toks[i + 1].Sym? && toks[i + 1].name in reg
    requires i + 2 < |toks| && toks[i + 2].Int? ==> toks[i + 2].value >= 0
    ensures PackField(reg, minAlignment, toks, i, b).Success?
    ensures var (b', _) := PackField(reg, minAlignment, toks, i, b).value;
      var f := b'.fields[|b.fields|];
      var t := reg[toks[i + 1].name];
      && f.name == toks[i].name && f.kind == Plain(t) && b'.unit.None?
      && (i + 2 < |toks| && toks[i + 2].Int? ==> f.offset == toks[i + 2].value)
      && (!(i + 2 < |toks| && toks[i + 2].Int?) ==> f.offset == AlignUp(b.size, Alignment(t)))
  {
  }

  /** A negative explicit offset is rejected. */
  lemma PackNegativeOffset(reg: Registry, minAlignment: Option<nat>, toks: seq<Token>, i: nat, b: Builder)
    requires i + 2 < |toks| && BuilderOk(b)
    requires toks[i].Sym? && (toks[i + 1].Sym? || toks[i + 1].Sub?)
    requires toks[i + 2].Int? && toks[i + 2].value < 0
    ensures PackField(reg, minAlignment, toks, i, b) == Failure(MalformedDeclaration)
  {
  }

  /** A bare integer width is accepted exactly when it is between 0 and 64; the
      field's base is then the smallest unsigned base that holds it. */
  lemma PackBareWidth(reg: Registry, minAlignment: Option<nat>, toks: seq<Token>, i: nat, b: Builder)
    requires i + 1 < |toks| && BuilderOk(b) && toks[i].Sym? && toks[i + 1].Int?
    ensures var n := toks[i + 1].value;
      PackField(reg, minAlignment, toks, i, b).Success? <==> 0 <= n <= 64
    ensures var n := toks[i + 1].value;
      PackField(reg, minAlignment, toks, i, b).Success? ==>
        var (b', _) := PackField(reg, minAlignment, toks, i, b).value;
        var f := b'.fields[|b.fields|];
        && f.name == toks[i].name
        && f.kind.BitField? && f.kind.width == n && f.kind.base in UnsignedBases
        && (forall u :: u in UnsignedBases && u.bytes < f.kind.base.bytes ==> n > 8 * u.bytes)
  {
    BareWidthBaseIsSmallest(toks[i + 1].value);
  }

  /** The declaration of a bit-field whose type token is at index j. */
  function BitFieldDeclAt(toks: seq<Token>, j: nat): BitFieldDecl
    requires j < |toks| && (toks[j].Int? || toks[j].Text?)
  {
    if toks[j].Int? then BareWidth(toks[j].value) else BaseWidth(toks[j].text)
  }

  /** A field name followed by a width or a `"base: N"` text places a bit-field of
      the resolved base and width by the packing rule, then takes a descriptor
      hash if one follows. */
  lemma PackBitFieldStep(reg: Registry, minAlignment: Option<nat>, toks: seq<Token>, i: nat, b: Builder,
                         d: BitFieldDecl, base: IntType, width: nat)
    requires i + 1 < |toks| && BuilderOk(b) && toks[i].Sym? && (toks[i + 1].Int? || toks[i + 1].Text?)
    requires BitFieldDeclAt(toks, i + 1) == d && ResolveBitField(reg, d) == Success((base, width))
    ensures base.bytes >= 1 && width <= 8 * base.bytes
    ensures var (desc, k) := TakeDescriptors(toks, i + 2);
      PackField(reg, minAlignment, toks, i, b)
        == Success((PlaceBitField(b, toks[i].name, base, width, minAlignment, desc), k))
  {
    BaseBytesPositive(base);
  }

  /** A field name followed by a sub-struct declaration places the built
      sub-layout as an embedded field. */
  lemma PackEmbeddedStep(reg: Registry, minAlignment: Option<nat>, toks: seq<Token>, i: nat, b: Builder,
                         sub: Layout)
    requires i + 1 < |toks| && BuilderOk(b) && toks[i].Sym? && toks[i + 1].Sub?
    requires !(i + 2 < |toks| && toks[i + 2].Int?)
    requires Build(reg, None, toks[i + 1].specs) == Success(sub)
    ensures WellFormed(sub)
    ensures var (desc, k) := TakeDescriptors(toks, i + 2);
      PackField(reg, minAlignment, toks, i, b)
        == Success((PlacePlain(b, toks[i].name, Embedded(sub), None, desc), k))
  {
  }

  /** A plain field without an explicit offset. */
  lemma PackPlainStep(reg: Registry, minAlignment: Option<nat>, toks: seq<Token>, i: nat, b: Builder)
    requires i + 1 < |toks| && BuilderOk(b) && toks[i].Sym? && toks[i + 1].Sym?
    requires toks[i + 1].name in reg && !(i + 2 < |toks| && toks[i + 2].Int?)
    ensures var (desc, k) := TakeDescriptors(toks, i + 2);
      PackField(reg, minAlignment, toks, i, b)
        == Success((PlacePlain(b, toks[i].name, Plain(reg[toks[i + 1].name]), None, desc), k))
  {
  }

  /** Packing from index i is packing the field there, then the rest. */
  lemma PackStep(reg: Registry, minAlignment: Option<nat>, toks: seq<Token>, i: nat, b: Builder,
                 b': Builder, k: nat)
    requires i < |toks| && BuilderOk(b)
    requires PackField(reg, minAlignment, toks, i, b) == Success((b', k))
    ensures k <= |toks| && BuilderOk(b')
    ensures Pack(reg, minAlignment, toks, i, b) == Pack(reg, minAlignment, toks, k, b')
  {
  }
}

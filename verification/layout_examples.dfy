/** Layouts the repository's tests declare, built one declaration at a time:
    a lemma per step states what `PackField` makes of the declaration at that
    index, and `Bn` names the builder after the n-th field. */
module LayoutExamples {
  import opened Wrappers
  import opened FfiTypes
  import opened Packer

  /** A registry that maps the type names the examples use to FFI's builtins;
      the examples hold for every such registry, the default one included. */
  predicate HasBuiltins(reg: Registry)
  {
    && "uint8" in reg && reg["uint8"] == Integer(UInt8)
    && "int8" in reg && reg["int8"] == Integer(Int8)
    && "uint16" in reg && reg["uint16"] == Integer(UInt16)
  }

  lemma DefaultHasBuiltins()
    ensures HasBuiltins(DefaultRegistry)
  {
  }

  /** A bare width of 1 takes a `uint8` base. */
  lemma BareOne(reg: Registry)
    ensures ResolveBitField(reg, BareWidth(1)) == Success((UInt8, 1))
  {
    BareWidthBaseIsSmallest(1);
  }

  /** `"name: n"` with a one-digit n over a registered integer base. */
  lemma TextWidth(reg: Registry, name: string, n: nat, text: string)
    requires IsWord(name) && name in reg && IsBitFieldBase(reg[name])
    requires n < 10 && n <= 8 * reg[name].it.bytes
    requires text == name + ": " + [Literal.DigitChar(n)]
    ensures ResolveBitField(reg, BaseWidth(text)) == Success((reg[name].it, n))
  {
    assert Literal.Digits(n, 10) == [Literal.DigitChar(n)];
    ResolveBaseWidth(reg, name, n);
  }

  // ---------------------------------------------------------------------------
  // `[1, 1, :uint8, 1, 1]`: the plain field closes the first unit, so the last
  // two bits open a third byte.
  // ---------------------------------------------------------------------------

  const Mixed := [Sym("field_0"), Int(1), Sym("field_1"), Int(1), Sym("field_2"), Sym("uint8"),
                  Sym("field_3"), Int(1), Sym("field_4"), Int(1)]
  const M1 := PlaceBitField(Empty, "field_0", UInt8, 1, None, map[])
  const M2 := PlaceBitField(M1, "field_1", UInt8, 1, None, map[])
  const M3 := PlacePlain(M2, "field_2", Plain(Integer(UInt8)), None, map[])
  const M4 := PlaceBitField(M3, "field_3", UInt8, 1, None, map[])
  const M5 := PlaceBitField(M4, "field_4", UInt8, 1, None, map[])

  lemma MixedStep0(reg: Registry)
    requires HasBuiltins(reg)
    ensures PackField(reg, None, Mixed, 0, Empty) == Success((M1, 2))
  {
    BareOne(reg);
    PackBitFieldStep(reg, None, Mixed, 0, Empty, BareWidth(1), UInt8, 1);
  }

  lemma MixedStep1(reg: Registry)
    requires HasBuiltins(reg)
    ensures PackField(reg, None, Mixed, 2, M1) == Success((M2, 4))
  {
    BareOne(reg);
    PackBitFieldStep(reg, None, Mixed, 2, M1, BareWidth(1), UInt8, 1);
  }

  lemma MixedStep2(reg: Registry)
    requires HasBuiltins(reg)
    ensures PackField(reg, None, Mixed, 4, M2) == Success((M3, 6))
  {
    PackPlainStep(reg, None, Mixed, 4, M2);
  }

  lemma MixedStep3(reg: Registry)
    requires HasBuiltins(reg)
    ensures PackField(reg, None, Mixed, 6, M3) == Success((M4, 8))
  {
    BareOne(reg);
    PackBitFieldStep(reg, None, Mixed, 6, M3, BareWidth(1), UInt8, 1);
  }

  lemma MixedStep4(reg: Registry)
    requires HasBuiltins(reg)
    ensures PackField(reg, None, Mixed, 8, M4) == Success((M5, 10))
  {
    BareOne(reg);
    PackBitFieldStep(reg, None, Mixed, 8, M4, BareWidth(1), UInt8, 1);
  }

  lemma MixedBuilds(reg: Registry)
    requires HasBuiltins(reg)
    ensures Build(reg, None, Mixed) == Success(Finish(M5))
  {
    MixedStep0(reg);
    PackStep(reg, None, Mixed, 0, Empty, M1, 2);
    MixedStep1(reg);
    PackStep(reg, None, Mixed, 2, M1, M2, 4);
    MixedStep2(reg);
    PackStep(reg, None, Mixed, 4, M2, M3, 6);
    MixedStep3(reg);
    PackStep(reg, None, Mixed, 6, M3, M4, 8);
    MixedStep4(reg);
    PackStep(reg, None, Mixed, 8, M4, M5, 10);
    assert Pack(reg, None, Mixed, 10, M5) == Success(M5);
  }

  lemma MixedShape()
    ensures M2.size == 1 && M2.unit == Some(Unit(1, 2, 0))
    ensures M3.size == 2 && M3.fields[2].offset == 1
    ensures M4.size == 3 && M4.fields[3].offset == 2 && M4.fields[3].kind.bitOffset == 0
    ensures M5.size == 3 && M5.alignment == 1 && |M5.fields| == 5
    ensures M5.fields[3] == M4.fields[3] && M5.fields[4].offset == 2 && M5.fields[4].kind.bitOffset == 1
  {
    assert M1.size == 1 && M1.unit == Some(Unit(1, 1, 0));
  }

  /** The struct is 3 bytes; the third holds the last two bits. */
  lemma MixedSize(reg: Registry)
    requires HasBuiltins(reg)
    ensures Build(reg, None, Mixed).Success?
    ensures var l := Build(reg, None, Mixed).value;
      l.size == 3 && |l.fields| == 5 && l.fields[3].offset == 2 && l.fields[4].offset == 2
  {
    MixedBuilds(reg);
    MixedShape();
  }
  // ---------------------------------------------------------------------------
  // Five `uint16` bit-fields of 3 + 1 + 1 + 3 + 8 bits share one 2-byte unit.
  // The width texts are parameters: a step is proved for any texts that
  // resolve to the stated base and width, and `Halves` takes the test's texts.
  // ---------------------------------------------------------------------------

  /** Declarations of the sub-struct of `test_bit_fields`, with `t3`, `t1` and
      `t8` in place of `'uint16: 3'`, `'uint16: 1'` and `'uint16: 8'`. */
  predicate HalvesTokens(toks: seq<Token>, t3: string, t1: string, t8: string)
  {
    && |toks| == 10
    && toks[0] == Sym("bits_0_2") && toks[1] == Text(t3)
    && toks[2] == Sym("bit_3") && toks[3] == Text(t1)
    && toks[4] == Sym("bit_4") && toks[5] == Text(t1)
    && toks[6] == Sym("bits_5_7") && toks[7] == Text(t3)
    && toks[8] == Sym("bits_8_15") && toks[9] == Text(t8)
  }

  const Halves := [Sym("bits_0_2"), Text("uint16: 3"), Sym("bit_3"), Text("uint16: 1"),
                   Sym("bit_4"), Text("uint16: 1"), Sym("bits_5_7"), Text("uint16: 3"),
                   Sym("bits_8_15"), Text("uint16: 8")]

  lemma HalvesDeclared()
    ensures HalvesTokens(Halves, "uint16: 3", "uint16: 1", "uint16: 8")
  {
  }

  /** The three texts name a `uint16` base with widths 3, 1 and 8. */
  predicate Uint16Widths(reg: Registry, t3: string, t1: string, t8: string)
  {
    && ResolveBitField(reg, BaseWidth(t3)) == Success((UInt16, 3))
    && ResolveBitField(reg, BaseWidth(t1)) == Success((UInt16, 1))
    && ResolveBitField(reg, BaseWidth(t8)) == Success((UInt16, 8))
  }

  lemma Uint16Text(reg: Registry, n: nat)
    requires HasBuiltins(reg) && n < 10 && n <= 16
    ensures ResolveBitField(reg, BaseWidth("uint16: " + [Literal.DigitChar(n)])) == Success((UInt16, n))
  {
    TextWidth(reg, "uint16", n, "uint16: " + [Literal.DigitChar(n)]);
  }

  lemma Uint16Texts(reg: Registry)
    requires HasBuiltins(reg)
    ensures Uint16Widths(reg, "uint16: 3", "uint16: 1", "uint16: 8")
  {
    Uint16Text(reg, 3);
    assert "uint16: " + [Literal.DigitChar(3)] == "uint16: 3";
    Uint16Text(reg, 1);
    assert "uint16: " + [Literal.DigitChar(1)] == "uint16: 1";
    Uint16Text(reg, 8);
    assert "uint16: " + [Literal.DigitChar(8)] == "uint16: 8";
  }

  const H1 := PlaceBitField(Empty, "bits_0_2", UInt16, 3, None, map[])
  const H2 := PlaceBitField(H1, "bit_3", UInt16, 1, None, map[])
  const H3 := PlaceBitField(H2, "bit_4", UInt16, 1, None, map[])
  const H4 := PlaceBitField(H3, "bits_5_7", UInt16, 3, None, map[])
  const H5 := PlaceBitField(H4, "bits_8_15", UInt16, 8, None, map[])

  lemma HalvesStep0(reg: Registry, toks: seq<Token>, t3: string, t1: string, t8: string)
    requires HalvesTokens(toks, t3, t1, t8) && Uint16Widths(reg, t3, t1, t8)
    ensures PackField(reg, None, toks, 0, Empty) == Success((H1, 2))
  {
    PackBitFieldStep(reg, None, toks, 0, Empty, BaseWidth(t3), UInt16, 3);
  }

  lemma HalvesStep1(reg: Registry, toks: seq<Token>, t3: string, t1: string, t8: string)
    requires HalvesTokens(toks, t3, t1, t8) && Uint16Widths(reg, t3, t1, t8)
    ensures PackField(reg, None, toks, 2, H1) == Success((H2, 4))
  {
    PackBitFieldStep(reg, None, toks, 2, H1, BaseWidth(t1), UInt16, 1);
  }

  lemma HalvesStep2(reg: Registry, toks: seq<Token>, t3: string, t1: string, t8: string)
    requires HalvesTokens(toks, t3, t1, t8) && Uint16Widths(reg, t3, t1, t8)
    ensures PackField(reg, None, toks, 4, H2) == Success((H3, 6))
  {
    PackBitFieldStep(reg, None, toks, 4, H2, BaseWidth(t1), UInt16, 1);
  }

  lemma HalvesStep3(reg: Registry, toks: seq<Token>, t3: string, t1: string, t8: string)
    requires HalvesTokens(toks, t3, t1, t8) && Uint16Widths(reg, t3, t1, t8)
    ensures PackField(reg, None, toks, 6, H3) == Success((H4, 8))
  {
    PackBitFieldStep(reg, None, toks, 6, H3, BaseWidth(t3), UInt16, 3);
  }

  lemma HalvesStep4(reg: Registry, toks: seq<Token>, t3: string, t1: string, t8: string)
    requires HalvesTokens(toks, t3, t1, t8) && Uint16Widths(reg, t3, t1, t8)
    ensures PackField(reg, None, toks, 8, H4) == Success((H5, 10))
  {
    PackBitFieldStep(reg, None, toks, 8, H4, BaseWidth(t8), UInt16, 8);
  }

  lemma HalvesBuilds(reg: Registry, toks: seq<Token>, t3: string, t1: string, t8: string)
    requires HalvesTokens(toks, t3, t1, t8) && Uint16Widths(reg, t3, t1, t8)
    ensures Build(reg, None, toks) == Success(Finish(H5))
  {
    HalvesStep0(reg, toks, t3, t1, t8);
    PackStep(reg, None, toks, 0, Empty, H1, 2);
    HalvesStep1(reg, toks, t3, t1, t8);
    PackStep(reg, None, toks, 2, H1, H2, 4);
    HalvesStep2(reg, toks, t3, t1, t8);
    PackStep(reg, None, toks, 4, H2, H3, 6);
    HalvesStep3(reg, toks, t3, t1, t8);
    PackStep(reg, None, toks, 6, H3, H4, 8);
    HalvesStep4(reg, toks, t3, t1, t8);
    PackStep(reg, None, toks, 8, H4, H5, 10);
    assert Pack(reg, None, toks, 10, H5) == Success(H5);
  }

  lemma HalvesShape()
    ensures H5.size == 2 && H5.alignment == 2 && H5.unit == Some(Unit(2, 16, 0))
    ensures H5.fields[0].kind.bitOffset == 0 && H5.fields[1].kind.bitOffset == 3
    ensures H5.fields[2].kind.bitOffset == 4 && H5.fields[3].kind.bitOffset == 5
    ensures H5.fields[4].kind.bitOffset == 8
  {
    assert H1.size == 2 && H1.unit == Some(Unit(2, 3, 0));
    assert H2.unit == Some(Unit(2, 4, 0));
    assert H3.unit == Some(Unit(2, 5, 0));
    assert H4.size == 2 && H4.unit == Some(Unit(2, 8, 0));
  }

  /** The sub-struct of `test_bit_fields`: 2 bytes, aligned to 2. */
  const HalvesLayout := Finish(H5)

  lemma HalvesSize(reg: Registry)
    requires HasBuiltins(reg)
    ensures Build(reg, None, Halves) == Success(HalvesLayout)
    ensures HalvesLayout.size == 2 && HalvesLayout.alignment == 2
  {
    Uint16Texts(reg);
    HalvesDeclared();
    HalvesBuilds(reg, Halves, "uint16: 3", "uint16: 1", "uint16: 8");
    HalvesShape();
  }

  // ---------------------------------------------------------------------------
  // `'uint8: 1'` then `'int8: 1'`: bases of the same byte size share the unit.
  // ---------------------------------------------------------------------------

  predicate SharedByteTokens(toks: seq<Token>, tu: string, ts: string)
  {
    |toks| == 4 && toks[0] == Sym("field_0") && toks[1] == Text(tu)
    && toks[2] == Sym("field_1") && toks[3] == Text(ts)
  }

  const SharedByte := [Sym("field_0"), Text("uint8: 1"), Sym("field_1"), Text("int8: 1")]

  predicate ByteWidths(reg: Registry, tu: string, ts: string)
  {
    && ResolveBitField(reg, BaseWidth(tu)) == Success((UInt8, 1))
    && ResolveBitField(reg, BaseWidth(ts)) == Success((Int8, 1))
  }

  lemma ByteTexts(reg: Registry)
    requires HasBuiltins(reg)
    ensures ByteWidths(reg, "uint8: 1", "int8: 1")
  {
    TextWidth(reg, "uint8", 1, "uint8: " + [Literal.DigitChar(1)]);
    assert "uint8: " + [Literal.DigitChar(1)] == "uint8: 1";
    TextWidth(reg, "int8", 1, "int8: " + [Literal.DigitChar(1)]);
    assert "int8: " + [Literal.DigitChar(1)] == "int8: 1";
  }

  const Y1 := PlaceBitField(Empty, "field_0", UInt8, 1, None, map[])
  const Y2 := PlaceBitField(Y1, "field_1", Int8, 1, None, map[])

  lemma SharedByteStep0(reg: Registry, toks: seq<Token>, tu: string, ts: string)
    requires SharedByteTokens(toks, tu, ts) && ByteWidths(reg, tu, ts)
    ensures PackField(reg, None, toks, 0, Empty) == Success((Y1, 2))
  {
    PackBitFieldStep(reg, None, toks, 0, Empty, BaseWidth(tu), UInt8, 1);
  }

  lemma SharedByteStep1(reg: Registry, toks: seq<Token>, tu: string, ts: string)
    requires SharedByteTokens(toks, tu, ts) && ByteWidths(reg, tu, ts)
    ensures PackField(reg, None, toks, 2, Y1) == Success((Y2, 4))
  {
    PackBitFieldStep(reg, None, toks, 2, Y1, BaseWidth(ts), Int8, 1);
  }

  lemma SharedByteBuilds(reg: Registry, toks: seq<Token>, tu: string, ts: string)
    requires SharedByteTokens(toks, tu, ts) && ByteWidths(reg, tu, ts)
    ensures Build(reg, None, toks) == Success(Finish(Y2))
  {
    SharedByteStep0(reg, toks, tu, ts);
    PackStep(reg, None, toks, 0, Empty, Y1, 2);
    SharedByteStep1(reg, toks, tu, ts);
    PackStep(reg, None, toks, 2, Y1, Y2, 4);
    assert Pack(reg, None, toks, 4, Y2) == Success(Y2);
  }

  lemma SharedByteDeclared()
    ensures SharedByteTokens(SharedByte, "uint8: 1", "int8: 1")
  {
  }

  lemma SharedByteShape()
    ensures Finish(Y2).size == 1 && Y2.fields[1].offset == 0 && Y2.fields[1].kind.bitOffset == 1
  {
    assert Y1.size == 1 && Y1.unit == Some(Unit(1, 1, 0));
  }

  /** One byte: the signed field is bit 1 of the unsigned field's unit. */
  lemma SharedByteSize(reg: Registry)
    requires HasBuiltins(reg)
    ensures Build(reg, None, SharedByte) == Success(Finish(Y2))
    ensures Finish(Y2).size == 1 && Y2.fields[1].offset == 0 && Y2.fields[1].kind.bitOffset == 1
  {
    ByteTexts(reg);
    SharedByteDeclared();
    SharedByteBuilds(reg, SharedByte, "uint8: 1", "int8: 1");
    SharedByteShape();
  }

  // ---------------------------------------------------------------------------
  // `test_bit_fields`: the 2-byte sub-struct, then three `uint8` fields.
  // ---------------------------------------------------------------------------

  /** `test_bit_fields` with the declarations `specs` for the sub-struct. */
  predicate OuterTokens(toks: seq<Token>, specs: seq<Token>)
  {
    && |toks| == 8
    && toks[0] == Sym("field_0") && toks[1] == Sub(specs)
    && toks[2] == Sym("field_1") && toks[3] == Sym("uint8")
    && toks[4] == Sym("field_2") && toks[5] == Sym("uint8")
    && toks[6] == Sym("field_3") && toks[7] == Sym("uint8")
  }

  const Outer := [Sym("field_0"), Sub(Halves), Sym("field_1"), Sym("uint8"),
                  Sym("field_2"), Sym("uint8"), Sym("field_3"), Sym("uint8")]

  lemma OuterDeclared()
    ensures OuterTokens(Outer, Halves)
  {
  }

  const O1 := PlacePlain(Empty, "field_0", Embedded(HalvesLayout), None, map[])
  const O2 := PlacePlain(O1, "field_1", Plain(Integer(UInt8)), None, map[])
  const O3 := PlacePlain(O2, "field_2", Plain(Integer(UInt8)), None, map[])
  const O4 := PlacePlain(O3, "field_3", Plain(Integer(UInt8)), None, map[])

  lemma OuterStep0(reg: Registry, toks: seq<Token>, specs: seq<Token>, sub: Layout)
    requires OuterTokens(toks, specs) && Build(reg, None, specs) == Success(sub)
    ensures PackField(reg, None, toks, 0, Empty)
      == Success((PlacePlain(Empty, "field_0", Embedded(sub), None, map[]), 2))
  {
    PackEmbeddedStep(reg, None, toks, 0, Empty, sub);
  }

  /** A `uint8` field placed after builder `b`, which any builder accepts. */
  lemma OuterByteStep(reg: Registry, toks: seq<Token>, specs: seq<Token>, i: nat, b: Builder)
    requires OuterTokens(toks, specs) && HasBuiltins(reg) && BuilderOk(b)
    requires i in {2, 4, 6}
    ensures PackField(reg, None, toks, i, b)
      == Success((PlacePlain(b, toks[i].name, Plain(Integer(UInt8)), None, map[]), i + 2))
  {
    PackPlainStep(reg, None, toks, i, b);
  }

  lemma OuterBuilds(reg: Registry, toks: seq<Token>, specs: seq<Token>)
    requires OuterTokens(toks, specs)
    requires HasBuiltins(reg) && Build(reg, None, specs) == Success(HalvesLayout)
    ensures Build(reg, None, toks) == Success(Finish(O4))
  {
    OuterStep0(reg, toks, specs, HalvesLayout);
    PackStep(reg, None, toks, 0, Empty, O1, 2);
    OuterByteStep(reg, toks, specs, 2, O1);
    PackStep(reg, None, toks, 2, O1, O2, 4);
    OuterByteStep(reg, toks, specs, 4, O2);
    PackStep(reg, None, toks, 4, O2, O3, 6);
    OuterByteStep(reg, toks, specs, 6, O3);
    PackStep(reg, None, toks, 6, O3, O4, 8);
    assert Pack(reg, None, toks, 8, O4) == Success(O4);
  }

  lemma OuterShape()
    ensures O4.size == 5 && O4.alignment == 2 && |O4.fields| == 4
    ensures O4.fields[1].offset == 2 && O4.fields[3].offset == 4
  {
    HalvesShape();
    assert O1.size == 2 && O1.alignment == 2;
    assert O2.size == 3;
    assert O3.size == 4;
  }

  /** Six bytes aligned to 2, `field_1` at offset 2: the sub-struct's 2 bytes,
      three bytes, and one byte of tail padding. */
  lemma OuterSize(reg: Registry)
    requires HasBuiltins(reg)
    ensures Build(reg, None, Outer).Success?
    ensures var l := Build(reg, None, Outer).value;
      l.size == 6 && l.alignment == 2 && |l.fields| == 4 && l.fields[1].offset == 2
  {
    HalvesSize(reg);
    OuterDeclared();
    OuterBuilds(reg, Outer, Halves);
    OuterShape();
  }

  /** A name and a `"base: N"` text with no descriptor hash after them place
      one bit-field and move on by two tokens. */
  lemma TextBitFieldStep(reg: Registry, toks: seq<Token>, i: nat, b: Builder, name: string,
                         base: IntType, width: nat)
    requires i + 1 < |toks| && BuilderOk(b) && toks[i] == Sym(name) && toks[i + 1].Text?
    requires i + 2 == |toks| || toks[i + 2].Sym?
    requires ResolveBitField(reg, BaseWidth(toks[i + 1].text)) == Success((base, width))
    ensures PackField(reg, None, toks, i, b) == Success((PlaceBitField(b, name, base, width, None, map[]), i + 2))
  {
    PackBitFieldStep(reg, None, toks, i, b, BaseWidth(toks[i + 1].text), base, width);
  }

  // ---------------------------------------------------------------------------
  // `'uint8: 3'`, `'char: 1'`, `'uint8: 1'`, `'char: 3'`: signed and unsigned
  // one-byte bases share a single byte.
  // ---------------------------------------------------------------------------

  /** The C names the signed-field cases use, mapped to FFI's builtins. */
  predicate HasCNames(reg: Registry)
  {
    && "char" in reg && reg["char"] == Integer(Int8)
    && "uint" in reg && reg["uint"] == Integer(UInt32)
    && "int" in reg && reg["int"] == Integer(Int32)
  }

  lemma DefaultHasCNames()
    ensures HasCNames(DefaultRegistry)
  {
  }

  predicate SignedTokens(toks: seq<Token>, u3: string, c1: string, u1: string, c3: string)
  {
    && |toks| == 8
    && toks[0] == Sym("f0") && toks[1] == Text(u3)
    && toks[2] == Sym("f1") && toks[3] == Text(c1)
    && toks[4] == Sym("f2") && toks[5] == Text(u1)
    && toks[6] == Sym("f3") && toks[7] == Text(c3)
  }

  const Signed := [Sym("f0"), Text("uint8: 3"), Sym("f1"), Text("char: 1"),
                   Sym("f2"), Text("uint8: 1"), Sym("f3"), Text("char: 3")]

  lemma SignedDeclared()
    ensures SignedTokens(Signed, "uint8: 3", "char: 1", "uint8: 1", "char: 3")
  {
  }

  predicate SignedWidths(reg: Registry, u3: string, c1: string, u1: string, c3: string)
  {
    && ResolveBitField(reg, BaseWidth(u3)) == Success((UInt8, 3))
    && ResolveBitField(reg, BaseWidth(c1)) == Success((Int8, 1))
    && ResolveBitField(reg, BaseWidth(u1)) == Success((UInt8, 1))
    && ResolveBitField(reg, BaseWidth(c3)) == Success((Int8, 3))
  }

  lemma Uint8Text(reg: Registry, n: nat)
    requires HasBuiltins(reg) && n <= 8
    ensures ResolveBitField(reg, BaseWidth("uint8: " + [Literal.DigitChar(n)])) == Success((UInt8, n))
  {
    TextWidth(reg, "uint8", n, "uint8: " + [Literal.DigitChar(n)]);
  }

  lemma CharText(reg: Registry, n: nat)
    requires HasCNames(reg) && n <= 8
    ensures ResolveBitField(reg, BaseWidth("char: " + [Literal.DigitChar(n)])) == Success((Int8, n))
  {
    TextWidth(reg, "char", n, "char: " + [Literal.DigitChar(n)]);
  }

  lemma Uint8Texts(reg: Registry)
    requires HasBuiltins(reg)
    ensures ResolveBitField(reg, BaseWidth("uint8: 3")) == Success((UInt8, 3))
    ensures ResolveBitField(reg, BaseWidth("uint8: 1")) == Success((UInt8, 1))
  {
    Uint8Text(reg, 3);
    assert "uint8: " + [Literal.DigitChar(3)] == "uint8: 3";
    Uint8Text(reg, 1);
    assert "uint8: " + [Literal.DigitChar(1)] == "uint8: 1";
  }

  lemma CharTexts(reg: Registry)
    requires HasCNames(reg)
    ensures ResolveBitField(reg, BaseWidth("char: 1")) == Success((Int8, 1))
    ensures ResolveBitField(reg, BaseWidth("char: 3")) == Success((Int8, 3))
  {
    CharText(reg, 1);
    assert "char: " + [Literal.DigitChar(1)] == "char: 1";
    CharText(reg, 3);
    assert "char: " + [Literal.DigitChar(3)] == "char: 3";
  }

  lemma SignedTexts(reg: Registry)
    requires HasBuiltins(reg) && HasCNames(reg)
    ensures SignedWidths(reg, "uint8: 3", "char: 1", "uint8: 1", "char: 3")
  {
    Uint8Texts(reg);
    CharTexts(reg);
  }

  const S1 := PlaceBitField(Empty, "f0", UInt8, 3, None, map[])
  const S2 := PlaceBitField(S1, "f1", Int8, 1, None, map[])
  const S3 := PlaceBitField(S2, "f2", UInt8, 1, None, map[])
  const S4 := PlaceBitField(S3, "f3", Int8, 3, None, map[])

  lemma SignedStep0(reg: Registry, toks: seq<Token>, u3: string, c1: string, u1: string, c3: string)
    requires SignedTokens(toks, u3, c1, u1, c3) && SignedWidths(reg, u3, c1, u1, c3)
    ensures PackField(reg, None, toks, 0, Empty) == Success((S1, 2))
  {
    TextBitFieldStep(reg, toks, 0, Empty, "f0", UInt8, 3);
  }

  lemma SignedStep1(reg: Registry, toks: seq<Token>, u3: string, c1: string, u1: string, c3: string)
    requires SignedTokens(toks, u3, c1, u1, c3) && SignedWidths(reg, u3, c1, u1, c3)
    ensures PackField(reg, None, toks, 2, S1) == Success((S2, 4))
  {
    TextBitFieldStep(reg, toks, 2, S1, "f1", Int8, 1);
  }

  lemma SignedStep2(reg: Registry, toks: seq<Token>, u3: string, c1: string, u1: string, c3: string)
    requires SignedTokens(toks, u3, c1, u1, c3) && SignedWidths(reg, u3, c1, u1, c3)
    ensures PackField(reg, None, toks, 4, S2) == Success((S3, 6))
  {
    TextBitFieldStep(reg, toks, 4, S2, "f2", UInt8, 1);
  }

  lemma SignedStep3(reg: Registry, toks: seq<Token>, u3: string, c1: string, u1: string, c3: string)
    requires SignedTokens(toks, u3, c1, u1, c3) && SignedWidths(reg, u3, c1, u1, c3)
    ensures PackField(reg, None, toks, 6, S3) == Success((S4, 8))
  {
    TextBitFieldStep(reg, toks, 6, S3, "f3", Int8, 3);
  }

  lemma SignedBuilds(reg: Registry, toks: seq<Token>, u3: string, c1: string, u1: string, c3: string)
    requires SignedTokens(toks, u3, c1, u1, c3) && SignedWidths(reg, u3, c1, u1, c3)
    ensures Build(reg, None, toks) == Success(Finish(S4))
  {
    SignedStep0(reg, toks, u3, c1, u1, c3);
    PackStep(reg, None, toks, 0, Empty, S1, 2);
    SignedStep1(reg, toks, u3, c1, u1, c3);
    PackStep(reg, None, toks, 2, S1, S2, 4);
    SignedStep2(reg, toks, u3, c1, u1, c3);
    PackStep(reg, None, toks, 4, S2, S3, 6);
    SignedStep3(reg, toks, u3, c1, u1, c3);
    PackStep(reg, None, toks, 6, S3, S4, 8);
    assert Pack(reg, None, toks, 8, S4) == Success(S4);
  }

  const SignedLayout := Finish(S4)

  /** One byte: `f1` is bit 3 and `f3` bits 5 to 7 of the byte at offset 0. */
  lemma SignedShape()
    ensures SignedLayout.size == 1 && |SignedLayout.fields| == 4
    ensures S4.fields[1] == Field("f1", BitField(Int8, 1, 3), 0, map[])
    ensures S4.fields[3] == Field("f3", BitField(Int8, 3, 5), 0, map[])
  {
    assert S1.size == 1 && S1.unit == Some(Unit(1, 3, 0));
    assert S2.unit == Some(Unit(1, 4, 0)) && S2.fields[1] == Field("f1", BitField(Int8, 1, 3), 0, map[]);
    assert S3.unit == Some(Unit(1, 5, 0)) && S3.fields[1] == S2.fields[1];
    assert S4.size == 1 && S4.alignment == 1 && S4.fields[1] == S3.fields[1];
  }

  lemma SignedSize(reg: Registry)
    requires HasBuiltins(reg) && HasCNames(reg)
    ensures Build(reg, None, Signed) == Success(SignedLayout)
  {
    SignedTexts(reg);
    SignedDeclared();
    SignedBuilds(reg, Signed, "uint8: 3", "char: 1", "uint8: 1", "char: 3");
  }

  // ---------------------------------------------------------------------------
  // `'uint: 8'` then `'int: 1'`: both 4-byte bases, so one 4-byte unit.
  // ---------------------------------------------------------------------------

  predicate IntBitsTokens(toks: seq<Token>, u8: string, i1: string)
  {
    |toks| == 4 && toks[0] == Sym("field_0") && toks[1] == Text(u8)
    && toks[2] == Sym("field_1") && toks[3] == Text(i1)
  }

  const IntBits := [Sym("field_0"), Text("uint: 8"), Sym("field_1"), Text("int: 1")]

  lemma IntBitsDeclared()
    ensures IntBitsTokens(IntBits, "uint: 8", "int: 1")
  {
  }

  predicate IntWidths(reg: Registry, u8: string, i1: string)
  {
    && ResolveBitField(reg, BaseWidth(u8)) == Success((UInt32, 8))
    && ResolveBitField(reg, BaseWidth(i1)) == Success((Int32, 1))
  }

  lemma IntTexts(reg: Registry)
    requires HasCNames(reg)
    ensures IntWidths(reg, "uint: 8", "int: 1")
  {
    TextWidth(reg, "uint", 8, "uint: " + [Literal.DigitChar(8)]);
    assert "uint: " + [Literal.DigitChar(8)] == "uint: 8";
    TextWidth(reg, "int", 1, "int: " + [Literal.DigitChar(1)]);
    assert "int: " + [Literal.DigitChar(1)] == "int: 1";
  }

  const W1 := PlaceBitField(Empty, "field_0", UInt32, 8, None, map[])
  const W2 := PlaceBitField(W1, "field_1", Int32, 1, None, map[])

  lemma IntBitsStep0(reg: Registry, toks: seq<Token>, u8: string, i1: string)
    requires IntBitsTokens(toks, u8, i1) && IntWidths(reg, u8, i1)
    ensures PackField(reg, None, toks, 0, Empty) == Success((W1, 2))
  {
    TextBitFieldStep(reg, toks, 0, Empty, "field_0", UInt32, 8);
  }

  lemma IntBitsStep1(reg: Registry, toks: seq<Token>, u8: string, i1: string)
    requires IntBitsTokens(toks, u8, i1) && IntWidths(reg, u8, i1)
    ensures PackField(reg, None, toks, 2, W1) == Success((W2, 4))
  {
    TextBitFieldStep(reg, toks, 2, W1, "field_1", Int32, 1);
  }

  lemma IntBitsBuilds(reg: Registry, toks: seq<Token>, u8: string, i1: string)
    requires IntBitsTokens(toks, u8, i1) && IntWidths(reg, u8, i1)
    ensures Build(reg, None, toks) == Success(Finish(W2))
  {
    IntBitsStep0(reg, toks, u8, i1);
    PackStep(reg, None, toks, 0, Empty, W1, 2);
    IntBitsStep1(reg, toks, u8, i1);
    PackStep(reg, None, toks, 2, W1, W2, 4);
    assert Pack(reg, None, toks, 4, W2) == Success(W2);
  }

  const IntBitsLayout := Finish(W2)

  /** Four bytes, with `field_1` at bit 8 of the unit at offset 0. */
  lemma IntBitsShape()
    ensures IntBitsLayout.size == 4 && |IntBitsLayout.fields| == 2
    ensures W2.fields[1] == Field("field_1", BitField(Int32, 1, 8), 0, map[])
  {
    assert W1.size == 4 && W1.unit == Some(Unit(4, 8, 0));
    assert W2.size == 4 && W2.alignment == 4;
  }

  lemma IntBitsSize(reg: Registry)
    requires HasCNames(reg)
    ensures Build(reg, None, IntBits) == Success(IntBitsLayout)
  {
    IntTexts(reg);
    IntBitsDeclared();
    IntBitsBuilds(reg, IntBits, "uint: 8", "int: 1");
  }
}

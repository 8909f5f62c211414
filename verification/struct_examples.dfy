/** Field-level cases from the repository's tests: a signed 1-bit field that
    reads -1 after 1 is put, sign extension of a 3-bit `char` field, and the
    precedence of descriptors over `to_dec` when a value is mapped. */
module StructExamples {
  import opened Wrappers
  import opened Bits
  import opened FfiTypes
  import opened Packer
  import opened Access
  import opened StructEx
  import Examples
  import Literal
  import opened LayoutExamples

  // ---------------------------------------------------------------------------
  // `'char: 1'` at bit 3 and `'char: 3'` at bit 5 of one byte
  // ---------------------------------------------------------------------------

  const SignedBit := Field("f1", BitField(Int8, 1, 3), 0, map[])
  const SignedTriple := Field("f3", BitField(Int8, 3, 5), 0, map[])

  /** Both fields are what the builder makes of
      `[:f0, 'uint8: 3', :f1, 'char: 1', :f2, 'uint8: 1', :f3, 'char: 3']`. */
  lemma SignedFieldsBuilt()
    ensures Build(DefaultRegistry, None, Signed) == Success(SignedLayout)
    ensures SignedLayout.size == 1 && |SignedLayout.fields| == 4
    ensures SignedLayout.fields[1] == SignedBit && SignedLayout.fields[3] == SignedTriple
  {
    DefaultHasBuiltins();
    DefaultHasCNames();
    SignedSize(DefaultRegistry);
    SignedShape();
  }

  /** A 1-bit field on a signed base holds only 0 and -1: both 1 and -1 read
      back as -1. */
  /** Any 1-bit field on a signed base reads an even value as 0 and an odd one as -1. */
  lemma SignedOneBitReads(buf: Bytes, f: Field, v: int)
    requires BitFieldIn(buf, f) && f.kind.base.signed && f.kind.width == 1
    ensures BitFieldGet(BitFieldPut(buf, f, v), f) == if v % 2 == 0 then 0 else -1
  {
    BitFieldRoundTrip(buf, f, v);
    assert Pow2(1) == 2;
    Examples.SignExtensionCases();
  }

  lemma SignedBitReadsMinusOne(buf: Bytes)
    requires |buf| >= 1
    ensures BitFieldGet(BitFieldPut(buf, SignedBit, 1), SignedBit) == -1
    ensures BitFieldGet(BitFieldPut(buf, SignedBit, -1), SignedBit) == -1
    ensures BitFieldGet(BitFieldPut(buf, SignedBit, 0), SignedBit) == 0
  {
    SignedOneBitReads(buf, SignedBit, 1);
    SignedOneBitReads(buf, SignedBit, -1);
    SignedOneBitReads(buf, SignedBit, 0);
  }

  /** `'int: 1'` after `'uint: 8'`: one bit of a 4-byte signed unit, at bit 8. */
  const IntOneBit := Field("field_1", BitField(Int32, 1, 8), 0, map[])

  /** The field is what the builder makes of `[:field_0, 'uint: 8', :field_1, 'int: 1']`. */
  lemma IntOneBitBuilt()
    ensures Build(DefaultRegistry, None, IntBits) == Success(IntBitsLayout)
    ensures IntBitsLayout.size == 4 && |IntBitsLayout.fields| == 2
    ensures IntBitsLayout.fields[1] == IntOneBit
  {
    DefaultHasCNames();
    IntBitsSize(DefaultRegistry);
    IntBitsShape();
  }

  lemma IntOneBitReadsMinusOne(buf: Bytes)
    requires |buf| >= 4
    ensures BitFieldGet(BitFieldPut(buf, IntOneBit, 1), IntOneBit) == -1
    ensures BitFieldGet(BitFieldPut(buf, IntOneBit, 0), IntOneBit) == 0
    ensures BitFieldGet(BitFieldPut(buf, IntOneBit, -1), IntOneBit) == -1
  {
    SignedOneBitReads(buf, IntOneBit, 1);
    SignedOneBitReads(buf, IntOneBit, 0);
    SignedOneBitReads(buf, IntOneBit, -1);
  }

  /** A 3-bit pattern put into the signed field reads back sign-extended. */
  lemma SignedTripleReads(buf: Bytes, v: nat)
    requires |buf| >= 1 && v < 8
    ensures BitFieldGet(BitFieldPut(buf, SignedTriple, v), SignedTriple) == ToSigned(v, 3)
  {
    BitFieldRoundTrip(buf, SignedTriple, v);
    assert Pow2(3) == 8;
    assert v % Pow2(3) == v;
  }

  /** 0b100 reads -4, 0b010 reads 2 and 0b110 reads -2 on a 3-bit signed field. */
  lemma SignedTripleCases(buf: Bytes)
    requires |buf| >= 1
    ensures BitFieldGet(BitFieldPut(buf, SignedTriple, 4), SignedTriple) == -4
    ensures BitFieldGet(BitFieldPut(buf, SignedTriple, 2), SignedTriple) == 2
    ensures BitFieldGet(BitFieldPut(buf, SignedTriple, 6), SignedTriple) == -2
    ensures BitFieldGet(BitFieldPut(buf, SignedTriple, 0), SignedTriple) == 0
  {
    Examples.SignExtensionCases();
    SignedTripleReads(buf, 4);
    SignedTripleReads(buf, 2);
    SignedTripleReads(buf, 6);
    SignedTripleReads(buf, 0);
  }

  /** Putting the 1-bit field leaves the 3-bit field of the same byte alone. */
  lemma SiblingUntouched(buf: Bytes, v: int)
    requires |buf| >= 1
    ensures BitFieldGet(BitFieldPut(buf, SignedBit, v), SignedTriple) == BitFieldGet(buf, SignedTriple)
  {
    BitFieldPutFrame(buf, SignedBit, v, SignedTriple);
  }

  // ---------------------------------------------------------------------------
  // `test_descriptors`: two `uint8` fields, the first with textual descriptors
  // and the second with the integer descriptor 3 => 1
  // ---------------------------------------------------------------------------

  const Named := Field("field_0", Plain(Integer(UInt8)), 0,
                       map[TextKey("all_1") := 0xff, TextKey("all_0") := 0])
  const Renumbered := Field("field_1", Plain(Integer(UInt8)), 1, map[IntKey(3) := 1])
  const Described := Layout([Named, Renumbered], 2, 1)

  lemma DescribedFits()
    ensures WellFormed(Described)
  {
  }

  lemma Indices()
    ensures FieldIndex(Described.fields, "field_0") == Some(0)
    ensures FieldIndex(Described.fields, "field_1") == Some(1)
    ensures FieldIndex(Described.fields, "field_2") == None
  {
    assert Described.fields[1].name == "field_1" != "field_0";
    assert Described.fields[0].name == "field_0" != "field_2";
  }

  /** An integer descriptor wins over the integer itself: 3 maps to 1. */
  lemma IntegerDescriptor()
    ensures MapFieldValue(Described, "field_1", IntVal(3)) == Success(IntVal(1))
  {
    Indices();
  }

  /** A `uint8` field whose descriptor table names the number text `'10'`. */
  const Tens := Layout([Field("field_0", Plain(Integer(UInt8)), 0, map[TextKey("10") := 1])], 1, 1)

  /** The descriptor wins over `to_dec` even for numeric text: `'10'` maps to 1,
      not to its value 10. */
  lemma DescriptorBeforeToDec()
    ensures Literal.ToDec("10") == Some(10)
    ensures MapFieldValue(Tens, "field_0", TextVal("10")) == Success(IntVal(1))
  {
    Examples.DecimalTenCase();
    assert FieldIndex(Tens.fields, "field_0") == Some(0);
    var d := Downcase("10");
    assert d[0] == '1' && d[1] == '0';
    assert d == "10";
  }

  /** A textual descriptor is looked up in lower case: `'ALL_1'` maps to 0xff. */
  lemma TextDescriptor()
    ensures MapFieldValue(Described, "field_0", TextVal("ALL_1")) == Success(IntVal(0xff))
  {
    Indices();
    var d := Downcase("ALL_1");
    assert d[0] == 'a' && d[1] == 'l' && d[2] == 'l' && d[3] == '_' && d[4] == '1';
    assert d == "all_1";
  }

  /** Without a descriptor, text becomes its `to_dec` number: `'0x1'` is 1. */
  lemma HexTextMapped()
    ensures MapFieldValue(Described, "field_1", TextVal("0x1")) == Success(IntVal(1))
  {
    Indices();
    var d := Downcase("0x1");
    assert d[0] == '0' && d[1] == 'x' && d[2] == '1';
    assert d == "0x1";
    Examples.HexLiteralCase();
  }

  /** Text that is not a number maps to nil on an integer field. */
  lemma NonNumericMapped()
    ensures MapFieldValue(Described, "field_1", TextVal("all_1")) == Success(NilVal)
  {
    Indices();
    Examples.NonNumericCases();
  }

  /** An integer without a descriptor is kept. */
  lemma IntegerKept()
    ensures MapFieldValue(Described, "field_1", IntVal(0x12)) == Success(IntVal(0x12))
  {
    Indices();
  }

  /** A name the layout does not declare is an error. */
  lemma UnknownName()
    ensures MapFieldValue(Described, "field_2", IntVal(0)).Failure?
  {
    Indices();
  }

  lemma SetField1(buf: Bytes)
    requires |buf| == 2
    ensures Set(Described, buf, "field_1", IntVal(3)) == PlainPut(buf, Renumbered, 1)
  {
    IntegerDescriptor();
    Indices();
    DescribedFits();
    assert Described.fields[1] == Renumbered;
  }

  lemma GetField1(buf: Bytes)
    requires |buf| == 2
    ensures Get(Described, buf, "field_1") == (var n :- PlainGet(buf, Renumbered); Success(Number(n)))
  {
    Indices();
    DescribedFits();
    assert Described.fields[1] == Renumbered;
  }

  /** The `uint8` at offset 1 stores 1 and reads 1 back. */
  lemma RenumberedRoundTrip(buf: Bytes)
    requires |buf| == 2
    ensures PlainPut(buf, Renumbered, 1).Success?
    ensures PlainGet(PlainPut(buf, Renumbered, 1).value, Renumbered) == Success(1)
  {
    assert PlainIn(buf, Renumbered);
    PlainRoundTrip(buf, Renumbered, 1);
    assert 1 % Pow2(8) == 1;
  }

  /** `s[:field_1] = 3` then `s[:field_1]` reads 1. */
  lemma SetThroughDescriptor(buf: Bytes)
    requires |buf| == 2
    ensures Set(Described, buf, "field_1", IntVal(3)).Success?
    ensures Get(Described, Set(Described, buf, "field_1", IntVal(3)).value, "field_1") == Success(Number(1))
  {
    SetField1(buf);
    RenumberedRoundTrip(buf);
    var stored := PlainPut(buf, Renumbered, 1).value;
    assert |stored| == 2;
    GetField1(stored);
  }

  // ---------------------------------------------------------------------------
  // `test_bit_fields`: the 2-byte sub-struct written with 0b0110_1001
  // ---------------------------------------------------------------------------

  const Bits0To2 := Field("bits_0_2", BitField(UInt16, 3, 0), 0, map[])

  /** The sub-struct as the packing rule lays it out: five fields in one
      2-byte unit at bit offsets 0, 3, 4, 5 and 8. */
  const HalvesFields := [Bits0To2, Field("bit_3", BitField(UInt16, 1, 3), 0, map[]),
                         Field("bit_4", BitField(UInt16, 1, 4), 0, map[]),
                         Field("bits_5_7", BitField(UInt16, 3, 5), 0, map[]),
                         Field("bits_8_15", BitField(UInt16, 8, 8), 0, map[])]
  const HalvesStruct := Layout(HalvesFields, 2, 2)

  lemma HalvesStructBuilt()
    ensures HalvesLayout == HalvesStruct
  {
    HalvesShape();
    assert H1.fields == [Bits0To2];
    assert H2.fields == HalvesFields[..2];
    assert H3.fields == HalvesFields[..3];
    assert H4.fields == HalvesFields[..4];
    assert H5.fields == HalvesFields;
  }

  lemma HalvesStructWellFormed()
    ensures WellFormed(HalvesStruct)
  {
    assert forall i :: 0 <= i < 5 ==> HalvesFields[i].kind.base == UInt16;
  }

  lemma HalvesLowIndex()
    ensures FieldIndex(HalvesStruct.fields, "bits_0_2") == Some(0)
  {
    assert HalvesStruct.fields[0].name == "bits_0_2";
    assert |HalvesStruct.fields[1].name| == |HalvesStruct.fields[2].name| == 5;
    assert HalvesStruct.fields[3].name[5] != "bits_0_2"[5];
    assert |HalvesStruct.fields[4].name| == 9;
  }

  lemma HalvesStructFits(buf: Bytes)
    requires |buf| == 2
    ensures Fits(HalvesStruct, buf)
    ensures FieldIndex(HalvesStruct.fields, "bits_0_2") == Some(0)
  {
    HalvesStructWellFormed();
    HalvesLowIndex();
  }

  /** `s[:field_0] = 0b0110_1001` stores the bytes 0x69, 0x00. */
  lemma HalvesWrite(buf: Bytes)
    requires |buf| == 2
    ensures Write(HalvesStruct, buf, IntVal(0x69)) == Success([0x69, 0])
    ensures Read(HalvesStruct, [0x69, 0]) == 0x69
  {
    HalvesStructFits(buf);
    HalvesStructFits([0x69, 0]);
    WriteStoresBytes(HalvesStruct, buf, 0x69);
    BytesOf69();
    ReadBytesIsLittleEndian([0x69, 0]);
  }

  lemma BytesOf69()
    ensures ToBytes(0x69, 2) == [0x69, 0]
  {
    LittleEndianCases();
    ToBytesLittleEndian([0x69, 0]);
  }

  lemma LittleEndianCases()
    ensures LittleEndian([0x69, 0]) == 0x69 && LittleEndian([0x6D, 0]) == 0x6D
  {
    assert [0x69, 0][1..] == [0] && [0x6D, 0][1..] == [0];
  }

  /** A bit-field without descriptors is read and written through its unit. */
  lemma BitFieldAccess(l: Layout, buf: Bytes, name: string, i: nat, v: int)
    requires Fits(l, buf) && FieldIndex(l.fields, name) == Some(i)
    requires l.fields[i].kind.BitField? && l.fields[i].descriptors == map[]
    ensures BitFieldIn(buf, l.fields[i])
    ensures Get(l, buf, name) == Success(Number(BitFieldGet(buf, l.fields[i])))
    ensures Set(l, buf, name, IntVal(v)) == Success(BitFieldPut(buf, l.fields[i], v))
  {
    FieldAccessible(l, buf, i);
  }

  /** The low three bits of 0x69 are 0b001. */
  lemma LowBitsOf69()
    ensures BitFieldGet([0x69, 0], Bits0To2) == 1
  {
    LittleEndianCases();
    assert Slice([0x69, 0], 0, 2) == [0x69, 0];
    assert Extract(0x69, 0, 3) == 1;
  }

  lemma HalvesGetLowBits()
    ensures Get(HalvesStruct, [0x69, 0], "bits_0_2") == Success(Number(1))
  {
    HalvesStructFits([0x69, 0]);
    BitFieldAccess(HalvesStruct, [0x69, 0], "bits_0_2", 0, 0);
    LowBitsOf69();
  }

  lemma PutLowBits()
    ensures BitFieldPut([0x69, 0], Bits0To2, 5) == [0x6D, 0]
  {
    LittleEndianCases();
    assert Slice([0x69, 0], 0, 2) == [0x69, 0];
    assert Insert(0x69, 0, 3, 5) == 0x6D;
    ToBytesLittleEndian([0x6D, 0]);
  }

  /** Setting 0b101 there makes the sub-struct read 0b0110_1101. */
  lemma HalvesSetLowBits()
    ensures Set(HalvesStruct, [0x69, 0], "bits_0_2", IntVal(5)) == Success([0x6D, 0])
    ensures Read(HalvesStruct, [0x6D, 0]) == 0x6D
  {
    HalvesStructFits([0x69, 0]);
    BitFieldAccess(HalvesStruct, [0x69, 0], "bits_0_2", 0, 5);
    PutLowBits();
    LittleEndianCases();
    ReadBytesIsLittleEndian([0x6D, 0]);
  }
}

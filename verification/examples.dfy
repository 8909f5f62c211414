/** Concrete cases pinned by the repository's tests: sizes and offsets of
    declared layouts, sign extension, literal parsing and field round trips.
    Each layout is built one declaration at a time, `Bn` naming the builder
    after the n-th field. */
module Examples {
  import opened Wrappers
  import opened Bits
  import opened Literal
  import opened FfiTypes
  import opened Packer
  import opened Access
  import opened StructEx

  // ---------------------------------------------------------------------------
  // Helpers on literals and integers
  // ---------------------------------------------------------------------------

  /** `to_signed` on 3-bit and 1-bit values: 0b110, 0b100 and 0b010 at 3 bits. */
  lemma SignExtensionCases()
    ensures ToSigned(6, 3) == -2 && ToSigned(4, 3) == -4
    ensures ToSigned(2, 3) == 2 && ToSigned(0, 3) == 0
    ensures ToSigned(1, 1) == -1 && ToSigned(0, 1) == 0
  {
  }

  /** `to_dec` of `'0x1'`, the text mapped to 1 for a `:uint8` field. */
  lemma HexLiteralCase()
    ensures ToDec("0x1") == Some(1)
  {
    assert !DecimalShape("0x1") by { assert !IsDigitIn("0x1"[1], 10); }
    assert "0x1"[2..] == "1";
  }

  /** `to_dec` of `'10'`, a number that is also a descriptor name. */
  lemma DecimalTenCase()
    ensures ToDec("10") == Some(10)
  {
    assert DecimalShape("10") by { assert IsDigitIn("10"[0], 10) && IsDigitIn("10"[1], 10); }
    assert "10"[1..] == "0";
    assert ScanDigits("10", 10, 0) == ScanDigits("0", 10, 1);
  }

  /** `to_dec` of `'0b0110_1001'`, which the tests compare a struct with. */
  lemma BinaryLiteralCase()
    ensures ToDec("0b0110_1001") == Some(0x69)
  {
    var s := "0b0110_1001";
    assert !DecimalShape(s) by { assert !IsDigitIn(s[1], 10); }
    assert !HexShape(s) by { assert s[1] == 'b'; }
    BinaryShapeCase();
    assert s[2..] == "0110_1001";
    BinaryDigitsCase();
  }

  lemma BinaryShapeCase()
    ensures BinaryShape("0b0110_1001")
  {
    var d := "0b0110_1001"[2..];
    assert d == "0110_1001";
    assert forall i :: 0 <= i < |d| ==> d[i] in "01_";
  }

  lemma BinaryDigitsCase()
    ensures ScanUnsigned("0110_1001", 2) == 0x69
  {
    BinaryHighDigits();
    BinaryLowDigits();
  }

  /** The first nibble, 0110, accumulates to 6. */
  lemma BinaryHighDigits()
    ensures ScanDigits("0110_1001", 2, 0) == ScanDigits("_1001", 2, 6)
  {
    assert ScanDigits("0110_1001", 2, 0) == ScanDigits("110_1001", 2, 0);
    assert ScanDigits("110_1001", 2, 0) == ScanDigits("10_1001", 2, 1);
    assert ScanDigits("10_1001", 2, 1) == ScanDigits("0_1001", 2, 3);
  }

  /** The separator is skipped and 1001 brings 6 to 0x69. */
  lemma BinaryLowDigits()
    ensures ScanDigits("_1001", 2, 6) == 105
  {
    assert ScanDigits("_1001", 2, 6) == ScanDigits("001", 2, 13);
    assert ScanDigits("001", 2, 13) == ScanDigits("01", 2, 26);
    assert ScanDigits("01", 2, 26) == ScanDigits("1", 2, 52);
  }

  /** `to_dec` rejects a descriptor name and a prefix with no digits. */
  lemma NonNumericCases()
    ensures ToDec("all_1") == None
    ensures ToDec("0x") == None
  {
    assert !IsDigitIn("all_1"[0], 10);
    assert !IsDigitIn("0x"[1], 10);
  }

  /** The five bytes of a struct written with 0x0302010069, and the read back. */
  lemma StructBytesCase()
    ensures ReadBytes([0x69, 0x00, 0x01, 0x02, 0x03]) == 0x0302010069
    ensures ToBytes(0x0302010069, 5) == [0x69, 0x00, 0x01, 0x02, 0x03]
  {
    var b: seq<byte> := [0x69, 0x00, 0x01, 0x02, 0x03];
    assert Reverse(b) == [0x03, 0x02, 0x01, 0x00, 0x69];
    ReadBytesIsLittleEndian(b);
    ToBytesLittleEndian(b);
  }
}

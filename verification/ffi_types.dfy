/** The FFI types a struct field can have, the type registry that resolves type
    names, and the resolution of a bit-field declaration: a bare integer width or
    a `"base: N"` text.

    Sizes and alignments are those of a little-endian LP64 host. The registry of
    FFI (`find_field_type`, `FFI.typedef`) is not visible to the model; it is a
    map from names to types that the caller supplies, with `DefaultRegistry`
    holding FFI's builtin names. */
module FfiTypes {
  import opened Wrappers
  import Literal

  /** A builtin fixed-width integer type: its size in bytes and its signedness. */
  datatype IntType = IntType(bytes: nat, signed: bool)

  const Int8 := IntType(1, true)
  const Int16 := IntType(2, true)
  const Int32 := IntType(4, true)
  const Int64 := IntType(8, true)
  const UInt8 := IntType(1, false)
  const UInt16 := IntType(2, false)
  const UInt32 := IntType(4, false)
  const UInt64 := IntType(8, false)

  /** `UNSIGNED_NUMBER_TYPES`, in declaration order. */
  const UnsignedBases: seq<IntType> := [UInt8, UInt16, UInt32, UInt64]

  /** `SIGNED_NUMBER_TYPES` */
  const SignedBases: seq<IntType> := [Int8, Int16, Int32, Int64]

  /** The type of a plain field. `Long` is FFI's separate `LONG`/`ULONG` builtin:
      eight bytes wide here, numeric, but in neither list above. */
  datatype NativeType =
    | Integer(it: IntType)
    | Long(signed: bool)
    | Float(bytes: nat)
    | Pointer

  function Size(t: NativeType): nat
  {
    match t
    case Integer(i) => i.bytes
    case Long(_) => 8
    case Float(b) => b
    case Pointer => 8
  }

  /** Every builtin type is aligned to its own size on the modelled host. */
  function Alignment(t: NativeType): nat
  {
    if Size(t) == 0 then 1 else Size(t)
  }

  /** Membership in `FFI::StructLayoutBuilder::NUMBER_TYPES`. */
  predicate IsNumber(t: NativeType)
  {
    !t.Pointer?
  }

  /** Membership in `SIGNED_NUMBER_TYPES` or `UNSIGNED_NUMBER_TYPES`. */
  predicate IsBitFieldBase(t: NativeType)
  {
    t.Integer? && (t.it in SignedBases || t.it in UnsignedBases)
  }

  type Registry = map<string, NativeType>

  /** FFI's builtin type names on a little-endian LP64 host. */
  const DefaultRegistry: Registry := map[
    "char" := Integer(Int8), "int8" := Integer(Int8),
    "uchar" := Integer(UInt8), "uint8" := Integer(UInt8),
    "short" := Integer(Int16), "int16" := Integer(Int16),
    "ushort" := Integer(UInt16), "uint16" := Integer(UInt16),
    "int" := Integer(Int32), "int32" := Integer(Int32),
    "uint" := Integer(UInt32), "uint32" := Integer(UInt32),
    "long_long" := Integer(Int64), "int64" := Integer(Int64),
    "ulong_long" := Integer(UInt64), "uint64" := Integer(UInt64),
    "long" := Long(true), "ulong" := Long(false),
    "float" := Float(4), "float32" := Float(4),
    "double" := Float(8), "float64" := Float(8),
    "pointer" := Pointer
  ]

  /** `find_field_type` on a type name. */
  function FindType(reg: Registry, name: string): Result<NativeType>
  {
    if name in reg then Success(reg[name]) else Failure(UnknownType(name))
  }

  // ---------------------------------------------------------------------------
  // A bare integer width
  // ---------------------------------------------------------------------------

  /** `UNSIGNED_NUMBER_TYPES.find { |t| n <= t.size * 8 }`, as written: the first
      unsigned base wide enough, with no lower bound on n. */
  function FindUnsignedBase(bases: seq<IntType>, n: int): Option<IntType>
  {
    if |bases| == 0 then None
    else if n <= 8 * bases[0].bytes then Some(bases[0])
    else FindUnsignedBase(bases[1..], n)
  }

  /** Base selection for a bare width as the source writes it. */
  function BareWidthBaseAsWritten(n: int): Option<IntType>
  {
    FindUnsignedBase(UnsignedBases, n)
  }

  /** The source lets a negative bare width through: `-1` selects `uint8`. */
  lemma NegativeWidthAccepted()
    ensures BareWidthBaseAsWritten(-1) == Some(UInt8)
  {
  }

  /** Base selection for a bare width with the evidently intended lower bound:
      negative widths are rejected like widths above 64. */
  function BareWidthBase(n: int): Option<IntType>
  {
    if n < 0 then None else BareWidthBaseAsWritten(n)
  }

  /** A bare width selects the smallest unsigned base that holds it, and fails
      exactly when it is negative or wider than 64 bits. */
  lemma BareWidthBaseIsSmallest(n: int)
    ensures BareWidthBase(n).None? <==> n < 0 || n > 64
    ensures BareWidthBase(n).Some? ==>
      var t := BareWidthBase(n).value;
      && t in UnsignedBases
      && 0 <= n <= 8 * t.bytes
      && (forall u :: u in UnsignedBases && u.bytes < t.bytes ==> n > 8 * u.bytes)
  {
    assert UnsignedBases[1..] == [UInt16, UInt32, UInt64];
    assert UnsignedBases[1..][1..] == [UInt32, UInt64];
    assert UnsignedBases[1..][1..][1..] == [UInt64];
    assert UnsignedBases[1..][1..][1..][1..] == [];
    var b1, b2, b3 := UnsignedBases[1..], UnsignedBases[1..][1..], UnsignedBases[1..][1..][1..];
    if n > 8 {
      assert FindUnsignedBase(UnsignedBases, n) == FindUnsignedBase(b1, n);
      if n > 16 {
        assert FindUnsignedBase(b1, n) == FindUnsignedBase(b2, n);
        if n > 32 {
          assert FindUnsignedBase(b2, n) == FindUnsignedBase(b3, n);
          if n > 64 {
            assert FindUnsignedBase(b3, n) == FindUnsignedBase(b3[1..], n);
          }
        }
      }
    }
  }

  // ---------------------------------------------------------------------------
  // A "base: N" text
  // ---------------------------------------------------------------------------

  /** `\s` */
  predicate IsSpace(c: char)
  {
    c == ' ' || c == '\t' || c == '\n' || c == '\r' || c == '\U{0C}' || c == '\U{0B}'
  }

  /** `\w` */
  predicate IsWordChar(c: char)
  {
    'a' <= c <= 'z' || 'A' <= c <= 'Z' || '0' <= c <= '9' || c == '_'
  }

  function SkipSpaces(s: string): (r: string)
    ensures |r| <= |s|
    ensures |r| > 0 ==> !IsSpace(r[0])
  {
    if |s| > 0 && IsSpace(s[0]) then SkipSpaces(s[1..]) else s
  }

  function DropTrailingSpaces(s: string): (r: string)
    ensures |r| <= |s|
    ensures |r| > 0 ==> !IsSpace(r[|r| - 1])
  {
    if |s| > 0 && IsSpace(s[|s| - 1]) then DropTrailingSpaces(s[..|s| - 1]) else s
  }

  /** `String#strip` (blanks only). */
  function Strip(s: string): string
  {
    DropTrailingSpaces(SkipSpaces(s))
  }

  /** Length of the longest prefix of word characters. */
  function WordLength(s: string): (r: nat)
    ensures r <= |s|
  {
    if |s| > 0 && IsWordChar(s[0]) then 1 + WordLength(s[1..]) else 0
  }

  /** `/^(?<ffi_type>[\w_]+)\s*:\s*(?<bits_size>\d+)$/` applied to `text.strip`:
      the base name and the width, or `UnrecognizedFormat`. A word character is
      never a blank nor a colon, so the greedy name group is the longest run of
      word characters. */
  function ParseBaseWidth(text: string): Result<(string, nat)>
  {
    var s := Strip(text);
    var k := WordLength(s);
    var afterName := SkipSpaces(s[k..]);
    if k == 0 || |afterName| == 0 || afterName[0] != ':' then Failure(UnrecognizedFormat)
    else
      var digits := SkipSpaces(afterName[1..]);
      if |digits| == 0 || !Literal.AllDigitsIn(digits, 10) then Failure(UnrecognizedFormat)
      else Success((s[..k], Literal.ScanUnsigned(digits, 10)))
  }

  /** The text `"name: N"` the parser is meant to read. */
  function FormatBaseWidth(name: string, n: nat): string
  {
    name + ": " + Literal.Digits(n, 10)
  }

  predicate IsWord(name: string)
  {
    |name| > 0 && forall i :: 0 <= i < |name| ==> IsWordChar(name[i])
  }

  lemma {:induction false} WordLengthOfWord(name: string, rest: string)
    requires IsWord(name)
    requires |rest| == 0 || !IsWordChar(rest[0])
    ensures WordLength(name + rest) == |name|
    decreases |name|
  {
    assert (name + rest)[0] == name[0];
    assert (name + rest)[1..] == name[1..] + rest;
    if |name| > 1 {
      WordLengthOfWord(name[1..], rest);
    } else {
      assert name[1..] + rest == rest;
    }
  }

  lemma {:induction false} DropTrailingOfNonSpace(s: string)
    requires |s| > 0 && !IsSpace(s[|s| - 1])
    ensures DropTrailingSpaces(s) == s
  {
  }

  /** A text that starts and ends with non-blanks is its own strip. */
  lemma StripUnchanged(s: string)
    requires |s| > 0 && !IsSpace(s[0]) && !IsSpace(s[|s| - 1])
    ensures Strip(s) == s
  {
    assert SkipSpaces(s) == s;
    DropTrailingOfNonSpace(s);
  }

  /** After the name of a formatted text come a colon, a blank and the digits. */
  lemma AfterNameOfFormatted(ds: string)
    requires |ds| > 0 && Literal.AllDigitsIn(ds, 10)
    ensures SkipSpaces(": " + ds) == ": " + ds
    ensures SkipSpaces((": " + ds)[1..]) == ds
  {
    var t := " " + ds;
    ColonNotSkipped(": " + ds);
    ColonThenRest(ds, t);
    SkipOneSpace(ds);
  }

  lemma ColonThenRest(ds: string, t: string)
    requires t == " " + ds
    ensures (": " + ds)[1..] == t
  {
  }

  lemma ColonNotSkipped(s: string)
    requires |s| > 0 && s[0] == ':'
    ensures SkipSpaces(s) == s
  {
  }

  lemma SkipOneSpace(ds: string)
    requires |ds| > 0 && Literal.AllDigitsIn(ds, 10)
    ensures SkipSpaces(" " + ds) == ds
  {
    assert (" " + ds)[0] == ' ' && (" " + ds)[1..] == ds;
    assert Literal.IsDigitIn(ds[0], 10) && !IsSpace(ds[0]);
  }

  /** Parsing a formatted base-width text gives the name and the width back. */
  lemma ParseFormatRoundTrip(name: string, n: nat)
    requires IsWord(name)
    ensures ParseBaseWidth(FormatBaseWidth(name, n)) == Success((name, n))
  {
    var ds := Literal.Digits(n, 10);
    var rest := ": " + ds;
    var s := FormatBaseWidth(name, n);
    assert s == name + rest;
    assert s[0] == name[0] && s[|s| - 1] == ds[|ds| - 1];
    assert Literal.IsDigitIn(ds[|ds| - 1], 10);
    StripUnchanged(s);
    WordLengthOfWord(name, rest);
    assert s[|name|..] == rest && s[..|name|] == name;
    AfterNameOfFormatted(ds);
    Literal.ScanDigitsOfDigits(n, 10);
    assert Literal.ScanUnsigned(ds, 10) == n;
  }

  // ---------------------------------------------------------------------------
  // Resolving a bit-field declaration
  // ---------------------------------------------------------------------------

  /** A bit-field declaration: a bare width or a `"base: N"` text. */
  datatype BitFieldDecl = BareWidth(n: int) | BaseWidth(text: string)

  /** The base type and width of a bit-field declaration, with the three
      failures of the source: no base wide enough or a malformed text
      (`UnrecognizedFormat`), a base that is not a builtin integer
      (`UnrecognizedType`), and a width above the base's bits (`IllegalFormat`). */
  function ResolveBitField(reg: Registry, d: BitFieldDecl): (r: Result<(IntType, nat)>)
    ensures r.Success? ==> r.value.1 <= 8 * r.value.0.bytes
    ensures r.Success? ==> r.value.0 in SignedBases || r.value.0 in UnsignedBases
  {
    match d
    case BareWidth(n) =>
      (match BareWidthBase(n)
       case None => Failure(UnrecognizedFormat)
       case Some(t) =>
         BareWidthBaseIsSmallest(n);
         Success((t, n as nat)))
    case BaseWidth(text) =>
      var (name, n) :- ParseBaseWidth(text);
      var t :- FindType(reg, name);
      if !IsBitFieldBase(t) then Failure(UnrecognizedType)
      else if n > 8 * t.it.bytes then Failure(IllegalFormat)
      else Success((t.it, n))
  }

  /** A well-formed `"base: N"` text over a registered integer base resolves to
      that base and width exactly when N fits; otherwise it is rejected as
      `IllegalFormat`. */
  lemma ResolveBaseWidth(reg: Registry, name: string, n: nat)
    requires IsWord(name) && name in reg && IsBitFieldBase(reg[name])
    ensures n <= 8 * reg[name].it.bytes ==>
      ResolveBitField(reg, BaseWidth(FormatBaseWidth(name, n))) == Success((reg[name].it, n))
    ensures n > 8 * reg[name].it.bytes ==>
      ResolveBitField(reg, BaseWidth(FormatBaseWidth(name, n))) == Failure(IllegalFormat)
  {
    ParseFormatRoundTrip(name, n);
  }
}

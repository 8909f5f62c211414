# FFI::StructEx in Dafny

A model of `FFI::StructEx`, a Ruby FFI struct that supports bit-fields. A struct
is declared as a flat list of name/type pairs, and there are three kinds of
type:

- a plain FFI type, optionally followed by an explicit byte offset;
- a bit-field, given as a bare width (`3`) or as `'base: width'` text;
- an embedded sub-struct of bit-fields (`bit_fields(...)`).

Any of them may be followed by a descriptor table that maps symbolic values to
integers.

`array_layout` walks the list. Adjacent bit-fields pack into shared allocation
units; plain and embedded fields close the open unit. An instance is a byte
buffer with these operations:

- a bit-field is read and written through its unit by shifting and masking;
- an embedded field is the sub-struct's view of its byte range;
- `write` stores an integer little-endian or applies a hash field by field;
- `read` folds the bytes back into an integer;
- `==` compares with an integer, a numeric literal or a hash;
- `map_field_value` resolves a value through descriptors, then `String#to_dec`.

The modules follow the source's structure:

| module | file | what it holds |
|---|---|---|
| `Wrappers` | `wrappers.dfy` | `Option`, `Result` and the error values the source raises |
| `Bits` | `bits.dfy` | `Integer#to_bytes` and `Integer#to_signed`, the little-endian fold, and bit-range extract and insert |
| `Literal` | `literal.dfy` | `String#to_dec` with Ruby's `to_i`, and an independent formatter used for round trips |
| `FfiTypes` | `ffi_types.dfy` | the FFI integer types and the name registry; bare widths and `'base: N'` text |
| `Packer` | `packer.dfy` | `array_layout` as a fold over the declaration list, and the layout builder it drives |
| `Access` | `access.dfy` | `bit_field` and `bit_fields` get/put, and plain integer fields, over a byte buffer |
| `StructEx` | `struct.dfy` | `map_field_value`, `[]`, `[]=`, `write`, `read`, `initialize` and `==` |
| `Examples`, `LayoutExamples`, `StructExamples` | `examples.dfy`, `layout_examples.dfy`, `struct_examples.dfy` | the concrete cases the repository's tests pin down |

Ruby's shifts and masks on unbounded integers are modelled arithmetically.
`(u >> bo) & ((1 << w) - 1)` is `(u / 2^bo) % 2^w`. The masked read-modify-write
of `put` replaces bits `[bo, bo + w)` of the unit with `value mod 2^w`. Dafny's
Euclidean `%` agrees with Ruby's two's-complement masking, negative values
included.

The model assumes this behaviour of `FFI::StructLayoutBuilder`, whose code is
not part of this model:

- a field is placed at its explicit offset, or at the current size rounded up
  to the field's alignment;
- the size grows to cover the field;
- the struct's alignment is the largest field alignment;
- the final size is rounded up to that alignment.

The host is taken to be little-endian with 8-byte `long` and pointers.

## Model

| member | source | states |
|---|---|---|
| Bits.ToBytesCons | lib/ffi/struct_ex/struct_ex.rb:4-11 | `to_bytes(n)` puts the low byte first and the bytes of `v >> 8` after it |
| Bits.LittleEndianToBytes | lib/ffi/struct_ex/struct_ex.rb:4-11 | folding the bytes of `to_bytes(n)` little-endian gives back v modulo 2^(8n), negative v included |
| Bits.ToBytesLittleEndian | lib/ffi/struct_ex/struct_ex.rb:4-11 | `to_bytes` inverts the little-endian fold: any byte sequence is the `to_bytes` of its own value |
| Bits.ReadBytesIsLittleEndian | lib/ffi/struct_ex/struct_ex.rb:205-208 | `read`'s fold over the reversed bytes equals the little-endian value of the bytes |
| Bits.WriteThenRead | lib/ffi/struct_ex/struct_ex.rb:195-208 | writing V as `to_bytes(size)` and reading gives V mod 2^(8 size), and exactly V when 0 <= V < 2^(8 size) |
| Bits.ToSignedRange | lib/ffi/struct_ex/struct_ex.rb:13-15 | on an n-bit value, `to_signed` subtracts 2^n exactly when the value is at least 2^(n-1); the result lies in [-2^(n-1), 2^(n-1)) and keeps the value modulo 2^n |
| Bits.ToSignedOfTruncated | lib/ffi/struct_ex/struct_ex.rb:13-15 | every s in [-2^(n-1), 2^(n-1)) comes back from `to_signed` of its low n bits |
| Bits.InsertParts | lib/ffi/struct_ex/struct_ex.rb:96-99 | the masked write leaves `value mod 2^w` in bits [bo, bo+w) and keeps the unit's bits below bo and from bo+w up |
| Bits.InsertFrame | lib/ffi/struct_ex/struct_ex.rb:96-99 | the masked write leaves every bit range disjoint from [bo, bo+w) as it was |
| Bits.InsertExtracted | lib/ffi/struct_ex/struct_ex.rb:89-99 | writing back the bits just read leaves the unit unchanged |
| Bits.InsertBound | lib/ffi/struct_ex/struct_ex.rb:96-99 | when the field lies inside an n-bit unit, the masked write stays in [0, 2^n), so `write_uintN` keeps all of it |
| Literal.DecimalRoundTrip | lib/ffi/struct_ex/struct_ex.rb:19-22 | `to_dec` of any integer's decimal text, signed, is that integer |
| Literal.HexRoundTrip | lib/ffi/struct_ex/struct_ex.rb:19-24 | `to_dec` of any integer's `0x` text, signed, is that integer |
| Literal.BinaryRoundTrip | lib/ffi/struct_ex/struct_ex.rb:19-26 | `to_dec` of any integer's `0b` text, signed, is that integer |
| Literal.SeparatorIgnored | lib/ffi/struct_ex/struct_ex.rb:23-26 | an underscore between two digit runs does not change the number `to_i` reads |
| Examples.HexLiteralCase | test/test_struct_ex.rb:127 | `'0x1'.to_dec` is 1 |
| Examples.BinaryLiteralCase | test/test_struct_ex.rb:42 | `'0b0110_1001'.to_dec` is 0x69 |
| Examples.NonNumericCases | lib/ffi/struct_ex/struct_ex.rb:19-28 | `to_dec` is nil for a descriptor name (`'all_1'`) and for a prefix with no digits (`'0x'`) |
| Examples.SignExtensionCases | spec/ffi/struct_ex_spec.rb:280-293 | `to_signed` at 3 bits maps 0b110 to -2, 0b100 to -4, 0b010 to 2 and 0 to 0; at 1 bit it maps 1 to -1 |
| Examples.StructBytesCase | test/test_struct_ex.rb:48 | the bytes 69 00 01 02 03 read as 0x0302010069, and `to_bytes(5)` of that number gives them back |
| FfiTypes.BareWidthBaseIsSmallest | lib/ffi/struct_ex/struct_ex.rb:133-135 | a bare width picks the smallest of uint8/16/32/64 that holds it, and fails exactly when it is above 64 or negative |
| FfiTypes.NegativeWidthAccepted | lib/ffi/struct_ex/struct_ex.rb:134 | the base lookup as written selects uint8 for the width -1 |
| FfiTypes.ParseFormatRoundTrip | lib/ffi/struct_ex/struct_ex.rb:137-140 | the `'name: N'` pattern reads back the name and N of any word name and number |
| FfiTypes.ResolveBitField | lib/ffi/struct_ex/struct_ex.rb:133-144 | a resolved bit-field has a signed or unsigned base and a width no larger than the base's bits |
| FfiTypes.ResolveBaseWidth | lib/ffi/struct_ex/struct_ex.rb:136-144 | `'name: N'` over a registered integer base resolves to that base and N when N fits its bits, and fails with the illegal-format error when it does not |
| LayoutExamples.TextWidth | test/test_struct_ex.rb:256-259 | `'uint8: 1'`, `'int8: 1'` and the like resolve to their base and width in any registry that maps the names to FFI's builtins |
| Packer.AlignUp | lib/ffi/struct_ex/struct_ex.rb:148 | `align(off, a)` is the least multiple of a that is at least off |
| Packer.PlacePlain | lib/ffi/struct_ex/struct_ex.rb:119-131 | a plain or embedded field is placed at its explicit offset or at the aligned size, keeps its name, type and descriptors, and closes the open unit |
| Packer.PlaceBitField | lib/ffi/struct_ex/struct_ex.rb:146-166 | a bit-field joining the open unit takes that unit's offset and the bits used so far as its bit offset; otherwise it opens a unit at the size aligned to max(min alignment, base alignment) with bit offset 0 |
| Packer.AdjacentBitFields | lib/ffi/struct_ex/struct_ex.rb:150-159 | the second of two bit-fields shares the first's unit exactly when the base sizes match and the bits still fit, and then starts where the first ends |
| Packer.PlainClosesUnit | lib/ffi/struct_ex/struct_ex.rb:131 | the bit-field after a plain or embedded field always opens a new unit at bit 0 |
| Packer.PackPlainField | lib/ffi/struct_ex/struct_ex.rb:119-131 | a name followed by a type name places a field of that type, at the integer after it when there is one and otherwise at the aligned size, and closes the unit |
| Packer.PackNegativeOffset | lib/ffi/struct_ex/struct_ex.rb:121-123 | a negative explicit offset is a malformed declaration |
| Packer.PackBareWidth | lib/ffi/struct_ex/struct_ex.rb:133-135 | a name followed by an integer width from 0 to 64 becomes a bit-field of that width on the smallest unsigned base that holds it, and a width above 64 is rejected; a negative width is rejected too, following the corrected lookup of the finding below |
| Packer.PackBitFieldStep | lib/ffi/struct_ex/struct_ex.rb:133-176 | a bit-field declaration whose width resolves is placed by the packing rule, and its descriptor table is taken when one follows |
| Packer.PackEmbeddedStep | lib/ffi/struct_ex/struct_ex.rb:37-52 | a sub-struct declaration whose own declarations build a layout is placed, like a plain field, at the size aligned to that layout's alignment, holding that layout |
| Packer.PackStep | lib/ffi/struct_ex/struct_ex.rb:115-177 | the walk continues from the index after each placed field |
| Packer.Build | lib/ffi/struct_ex/struct_ex.rb:106-178 | every built layout is well formed: fields lie inside the size, bit-fields inside their units, the size is a multiple of the alignment, recursively through sub-structs |
| LayoutExamples.MixedSize | test/test_struct_ex.rb:199-205 | `[1, 1, :uint8, 1, 1]` is 3 bytes, and the last two bits share the third byte |
| LayoutExamples.HalvesSize | test/test_struct_ex.rb:243-249 | five `uint16` bit-fields of 3, 1, 1, 3 and 8 bits take 2 bytes aligned to 2 |
| LayoutExamples.SharedByteSize | test/test_struct_ex.rb:256-259 | `'uint8: 1'` then `'int8: 1'` take one byte, the second at bit 1 |
| LayoutExamples.OuterSize | test/test_struct_ex.rb:6-20 | the 2-byte sub-struct followed by three `uint8` fields is 6 bytes aligned to 2, with `field_1` at offset 2 |
| Access.BitFieldRoundTrip | lib/ffi/struct_ex/struct_ex.rb:89-99 | after `put(value)`, `get` returns value mod 2^w on an unsigned base and its sign extension on a signed base; nothing is rejected |
| Access.BitFieldInRange | lib/ffi/struct_ex/struct_ex.rb:89-99 | a value in the field's range reads back unchanged |
| Access.BitFieldGetRange | lib/ffi/struct_ex/struct_ex.rb:89-94 | `get` lies in [0, 2^w) on an unsigned base and in [-2^(w-1), 2^(w-1)) on a signed one |
| Access.BitFieldPut | lib/ffi/struct_ex/struct_ex.rb:96-99 | `put` changes no byte outside the field's unit |
| Access.BitFieldPutFrame | lib/ffi/struct_ex/struct_ex.rb:96-99 | `put` leaves a sibling bit-field reading as before when it has disjoint bits of the same unit or a disjoint unit |
| Access.BitFieldPutGet | lib/ffi/struct_ex/struct_ex.rb:89-99 | putting back the value just read leaves the buffer unchanged, on a signed or an unsigned base |
| Access.PlainRoundTrip | lib/ffi/struct_ex/struct_ex.rb:191-193 | a plain integer field reads back what was written, modulo its width and sign-extended when signed |
| Access.EmbeddedStore | lib/ffi/struct_ex/struct_ex.rb:54-60 | storing a sub-struct's bytes makes its view equal to them and changes no parent byte outside [offset, offset + size) |
| StructEx.FieldIndex | lib/ffi/struct_ex/struct_ex.rb:176 | a name denotes the last field declared with it, and there is none exactly when no field has that name |
| StructEx.MapFieldValue | lib/ffi/struct_ex/struct_ex.rb:231-241 | only an unknown field fails; a descriptor for the value beats `to_dec`; the result is the value itself, an integer or nil; a numeric field is never handed text; the value changes only through a descriptor or as text on a numeric field; nil arises only from nil or from text that is not a number |
| StructExamples.DescriptorBeforeToDec | lib/ffi/struct_ex/struct_ex.rb:234-238 | with descriptor `'10' => 1`, the text `'10'`, although `to_dec` reads it as 10, maps to 1 |
| StructEx.DescriptorCaseInsensitive | lib/ffi/struct_ex/struct_ex.rb:234-235 | text in any case maps as its lower-case form when the descriptor table holds that form |
| StructEx.Get | lib/ffi/struct_ex/struct_ex.rb:54-56 | reading a field gives a nested view exactly when the field is an embedded sub-struct |
| StructEx.Store | lib/ffi/struct_ex/struct_ex.rb:58-60 | storing into a field, including writing a sub-struct through its view, changes no byte outside that field |
| StructEx.Set | lib/ffi/struct_ex/struct_ex.rb:191-193 | `[]=` maps the value, then changes no byte outside the named field |
| StructEx.Write | lib/ffi/struct_ex/struct_ex.rb:195-203 | `write` keeps the buffer's length; after `write(V)` of an integer the buffer reads V mod 2^(8 size); a hash changes no byte outside the fields its entries name; any other value changes nothing |
| StructEx.WriteEntries | lib/ffi/struct_ex/struct_ex.rb:198-201 | setting a hash's entries one by one keeps the length and changes no byte outside the fields they name |
| StructEx.WriteStoresBytes | lib/ffi/struct_ex/struct_ex.rb:196-197 | `write(V)` stores exactly `V.to_bytes(size)` |
| StructEx.WriteIntegerThenRead | lib/ffi/struct_ex/struct_ex.rb:195-220 | after `write(V)`, `read` is V mod 2^(8 size); for V in range the struct `==` V and `==` any text whose `to_dec` is V |
| StructEx.EqualsFormatted | lib/ffi/struct_ex/struct_ex.rb:210-215 | comparing with the decimal, hex or binary text of a number is comparing with the number |
| StructEx.UnequalToNonNumbers | lib/ffi/struct_ex/struct_ex.rb:210-215 | a struct never equals text that is not a number |
| StructEx.NewStruct | lib/ffi/struct_ex/struct_ex.rb:181-188 | a new struct is zeroed when no value or an empty hash is given, and holds the integer modulo 2^(8 size) when one is given |
| StructEx.SetBitFieldThenGet | lib/ffi/struct_ex/struct_ex.rb:89-99 | `s[f] = v` then `s[f]` on a bit-field without a descriptor for v gives v truncated to the width, sign-extended on a signed base |
| StructEx.SetText | lib/ffi/struct_ex/struct_ex.rb:237-238 | numeric text set on a numeric field without a matching descriptor stores its `to_dec` number |
| StructEx.GetLocal | lib/ffi/struct_ex/struct_ex.rb:54-56 | a field's value depends only on the field's own bytes |
| StructEx.SetFrame | lib/ffi/struct_ex/struct_ex.rb:54-60 | setting a field leaves any field with disjoint bytes, or a bit-field with disjoint bits of the same unit, reading as before |
| StructEx.EntryRoundTrip | lib/ffi/struct_ex/struct_ex.rb:191-193 | setting a hash entry whose mapped integer is in its field's range reads that integer back |
| StructEx.WriteEntriesFrame | lib/ffi/struct_ex/struct_ex.rb:198-201 | writing hash entries leaves a field that is apart from all their fields reading as before |
| StructEx.WriteEntriesSettle | lib/ffi/struct_ex/struct_ex.rb:198-201 | after writing a hash of in-range entries on fields that are pairwise apart, each field reads its mapped value |
| StructEx.EqualsEntriesOfSettled | lib/ffi/struct_ex/struct_ex.rb:216-217 | a struct equals a hash when every entry's field reads the entry's mapped value |
| StructEx.WriteHashThenEquals | lib/ffi/struct_ex/struct_ex.rb:198-217 | writing a hash of in-range entries on pairwise-apart fields makes the struct `==` that hash |
| StructExamples.SignedFieldsBuilt | spec/ffi/struct_ex_spec.rb:270-275 | `[:f0, 'uint8: 3', :f1, 'char: 1', :f2, 'uint8: 1', :f3, 'char: 3']` builds one byte, with `f1` the signed bit 3 and `f3` the signed bits 5 to 7 |
| StructExamples.IntOneBitBuilt | test/test_struct_ex.rb:276-280 | `[:field_0, 'uint: 8', :field_1, 'int: 1']` builds four bytes, with `field_1` the signed bit 8 of one 4-byte unit |
| LayoutExamples.SignedSize | spec/ffi/struct_ex_spec.rb:270-275 | the four-field declaration with `char` bit-fields builds the layout that `LayoutExamples.SignedShape` describes |
| LayoutExamples.SignedShape | spec/ffi/struct_ex_spec.rb:270-275 | that layout is one byte, `f1` at bit 3 and `f3` at bits 5 to 7, both on `int8` |
| LayoutExamples.IntBitsSize | test/test_struct_ex.rb:276-280 | `'uint: 8'` then `'int: 1'` builds the layout that `LayoutExamples.IntBitsShape` describes |
| LayoutExamples.IntBitsShape | test/test_struct_ex.rb:276-280 | that layout is four bytes, with `field_1` one `int32` bit at bit 8 |
| StructExamples.SignedOneBitReads | lib/ffi/struct_ex/struct_ex.rb:89-99 | on any 1-bit field with a signed base, putting an even value reads 0 and an odd one reads -1 |
| StructExamples.SignedBitReadsMinusOne | spec/ffi/struct_ex_spec.rb:271-282 | on `'char: 1'`, putting 1 or -1 reads -1 and putting 0 reads 0 |
| StructExamples.IntOneBitReadsMinusOne | test/test_struct_ex.rb:276-292 | on `'int: 1'` after `'uint: 8'`, putting 1 or -1 reads -1 and putting 0 reads 0 |
| StructExamples.SignedTripleCases | spec/ffi/struct_ex_spec.rb:284-293 | on `'char: 3'` at bit 5, 0b100 reads -4, 0b010 reads 2, 0b110 reads -2 and 0 reads 0 |
| StructExamples.SiblingUntouched | spec/ffi/struct_ex_spec.rb:271-293 | putting the `'char: 1'` field leaves the `'char: 3'` field of the same byte as it was |
| StructExamples.IntegerDescriptor | test/test_struct_ex.rb:151-152 | with descriptor `{3 => 1}`, 3 maps to 1 |
| StructExamples.TextDescriptor | test/test_struct_ex.rb:132 | `'ALL_1'` maps through the descriptor `'all_1' => 0xff` |
| StructExamples.HexTextMapped | test/test_struct_ex.rb:127 | `'0x1'` given to a `uint8` field without a text descriptor maps to 1 |
| StructExamples.NonNumericMapped | lib/ffi/struct_ex/struct_ex.rb:237-238 | text that is not a number maps to nil on a `uint8` field |
| StructExamples.SetThroughDescriptor | test/test_struct_ex.rb:151-152 | `s[:field_1] = 3` then `s[:field_1]` reads 1 |
| StructExamples.HalvesStructBuilt | test/test_struct_ex.rb:7-12 | the built sub-struct has fields at bit offsets 0, 3, 4, 5 and 8 of one 2-byte unit |
| StructExamples.HalvesWrite | test/test_struct_ex.rb:28-29 | writing 0b0110_1001 to the sub-struct stores 69 00, which reads 0x69 |
| StructExamples.HalvesGetLowBits | test/test_struct_ex.rb:30 | `bits_0_2` of 0x69 is 0b001 |
| StructExamples.HalvesSetLowBits | test/test_struct_ex.rb:32-34 | setting `bits_0_2` to 0b101 makes the sub-struct read 0b0110_1101 |

## Left out

- Pointer and memory primitives (`ptr.slice`, `read_uintN`, `write_uintN`, `read_array_of_uint8`, `write_array_of_uint8`) are foreign code. The struct's memory is a byte sequence, and a slice is an index range into it.
- `initialize` with an `FFI::Pointer` wraps existing memory; only the zeroed-memory path is modelled (`StructEx.New`).
- `FFI::StructLayoutBuilder` and FFI's type and typedef registry are not visible. The builder is the stated assumption of `Packer.Add` and `Packer.Finish`. The registry is a parameter (`FfiTypes.Registry`), and `FfiTypes.DefaultRegistry` holds FFI's builtin names.
- Ruby's per-field `Class.new` and `send` are replaced by a field-kind datatype with plain, bit-field and embedded variants.
- Floating-point and pointer fields can be declared and placed, but reading or writing one returns a not-modelled error.
- The little-endian, 64-bit host is fixed. On a big-endian host `read_uintN` would order a unit's bytes differently from `read`.
- Declarations are tokens: a field name must be a symbol, and any other shape is a malformed declaration. Ruby would fail on such input in various ways.
- Packer.PackNegativeOffset: a negative explicit offset is rejected. Ruby passes it on to the builder, whose handling is not part of this model.
- `@min_alignment` is used only as the floor of a unit's alignment, as the code uses it. Capping placement at a `pack` value is not done by this code.
- Packer.PackBareWidth: follows the corrected bare-width lookup of "## Findings" and rejects a negative width. The code as written accepts it; `FfiTypes.NegativeWidthAccepted` models that behaviour.
- `FFI::StructLayoutBuilder` is assumed to place fields with no minimum alignment of its own. A builder configured with one could align plain fields further than `Packer.PlacePlain` does.
- `String#strip` is modelled as removing blanks only. Ruby's `strip` also drops trailing NUL characters; a width text ending in NUL is not covered.
- Regular-expression line anchors are modelled as whole-string matches, so text with embedded newlines is not covered.
- `String#to_i` is modelled for the shapes `to_dec` lets through: one underscore between digits is skipped, and scanning stops at anything else.
- `String#downcase` is modelled on ASCII letters only.
- The `super` fallback of `==` (object identity in FFI::Struct) is modelled as "not equal".
- StructEx.Store: putting a non-integer value into an integer or bit-field field is a type-mismatch error. Ruby raises there too, but the exact exception is not modelled, and neither are the partial writes a hash leaves behind when an entry fails.
- Access.PlainRoundTrip: FFI's range check on plain integer writes (`RangeError` for a value too wide for the field) is not modelled; the value is truncated to the field's width instead.

## Findings

| source | as written | input that shows it | evidently intended | confidence | as-written member | corrected member |
|---|---|---|---|---|---|---|
| lib/ffi/struct_ex/struct_ex.rb:134 | a bare width selects the first unsigned type with `width <= size * 8`, with no lower bound, and line 144 only checks the upper bound | the declaration `[:f, -1]` selects `uint8` and passes validation, so a field of width -1 is created | a negative width is rejected as an unrecognized format, like a width above 64 | not executed | FfiTypes.NegativeWidthAccepted | FfiTypes.BareWidthBaseIsSmallest |

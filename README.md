# ArrayBoolean in Dafny

A model of `ArrayBoolean`, a C# container that stores booleans one bit each
in a byte array `value`, together with a logical length `Count`. Element `i`
lives in byte `i / 8` under the mask `128 >> (i % 8)`, so the first element
of each byte is its most significant bit. The container offers:
- a range-checked indexer (get and set);
- a set that flips one bit with XOR and does nothing when the bit already
  holds the value;
- conversion from and to `bool[]`;
- construction from raw bytes;
- byte-wise equality;
- a clone.

Files:

- `bit_packing.dfy`, module `BitPacking`: the expression-only helpers of the
  class as functions (`ByteIndex`, `BitIndex`, `Mask`, `GetBoolAtBit`,
  `InvertBit`). It also has value-level views of the buffer:
  - `BitAt` is `GetBoolAt`;
  - `FlipAt` is `InvertBitAt`;
  - `SetBit` is the setter's in-range branch;
  - `Unpack` reads the first `n` elements.

  `Pack` is an independent reference definition of the buffer built from a
  boolean sequence, written out bit by bit. The lemmas relate all of these.
- `array_boolean.dfy`, module `ModiferTypes`: the class `ArrayBoolean` with
  its fields `value: array<bv8>` and `Count`, its constructors, and its
  methods over the array. The three conversion operators are static methods
  of the class, and the range check is a function of the module. `Elements()` is the sequence of
  booleans the object holds. Each method's postcondition ties the new
  buffer or the result to the functions of `BitPacking`.
- `scenarios.dfy`, module `ArrayBooleanScenarios`: the situations the
  repository's test program sets up, each stated with the result the code
  gives.

What the code does, and what the model follows:
- There is no length prefix. A `bool[]` of length `n` becomes `n / 8 + 1`
  bytes of bit data, so 0 elements take one byte and 8 elements take two.
  The padding bits are zero.
- The constructor from raw bytes uses the given array itself as the buffer
  and sets `Count` to eight times its length.
- `Clone` shares the buffer with the original.
- `Equals` compares the buffers byte by byte and ignores `Count`.

Several assertions of `TestArrayBoolean/Test.cs` expect something else:
- Lines 28, 76, 81, 87 and 167 expect a variable-length count prefix in the
  buffer, and expect `Count` to survive a trip through the raw-bytes
  constructor. `NoCountPrefixExample`, `RestoreFromBuffer` and
  `RestoreCountExample` state what happens instead.
- Line 106 expects the clone to be independent (see Findings).
- Line 120 expects `Equals(null)` to be false, but the code dereferences
  its argument (see Left out).

## Model

| member | source | states |
|---|---|---|
| `BitPacking.ByteIndex` | ArrayBoolean/ArrayBoolean.cs:55 | the byte chosen for element `index` covers it: `8r <= index < 8r + 8` |
| `BitPacking.BitIndex` | ArrayBoolean/ArrayBoolean.cs:57 | the position within the byte is below 8 and, with the byte index, gives `index` back |
| `BitPacking.MaskTable` | ArrayBoolean/ArrayBoolean.cs:23 | `128 >> j` for `j = 0..7` is the single-bit mask 0x80, 0x40, …, 0x01 |
| `BitPacking.GetBoolAtBitMsbFirst` | ArrayBoolean/ArrayBoolean.cs:89-93 | position `j` reads true exactly when bit `7 - j`, counted from the least significant bit, is set (most significant bit first) |
| `BitPacking.BitAt` | ArrayBoolean/ArrayBoolean.cs:83-88 | element `index` is bit `7 - index % 8`, counted from the least significant bit, of byte `index / 8` |
| `BitPacking.InvertBit` | ArrayBoolean/ArrayBoolean.cs:79-82 | XOR with the mask flips position `j` and leaves the seven other positions as they were |
| `BitPacking.InvertBitTwice` | ArrayBoolean/ArrayBoolean.cs:79-82 | inverting the same position twice gives the byte back |
| `BitPacking.FlipAt` | ArrayBoolean/ArrayBoolean.cs:72-77 | flipping element `index` keeps the buffer length and every other byte; element `j` of the result is element `j` of the input negated exactly when `j == index` |
| `BitPacking.FlipAtTwice` | ArrayBoolean/ArrayBoolean.cs:72-77 | flipping the same element twice restores the buffer |
| `BitPacking.SetBit` | ArrayBoolean/ArrayBoolean.cs:40-46 | after writing `v` at `index`, element `index` reads `v` and every other element reads as before; length and every byte other than `index / 8` are unchanged; writing the value already stored changes nothing |
| `BitPacking.UnpackSetBit` | ArrayBoolean/ArrayBoolean.cs:40-46 | writing element `index` of the buffer updates exactly position `index` of the boolean sequence the buffer holds |
| `BitPacking.PackBits` | ArrayBoolean/ArrayBoolean.cs:59-70 | the buffer built from `s` has `n / 8 + 1` bytes, `n` the length of `s`; its element `i` is `s[i]` for `i < n` and false on the padding |
| `BitPacking.BitsDetermineBytes` | ArrayBoolean/ArrayBoolean.cs:79-93 | two buffers of one length that agree on every element are equal byte for byte |
| `BitPacking.RoundTrip` | ArrayBoolean/ArrayBoolean.cs:94-102 | unpacking as many elements as `s` has from the buffer built from `s` gives `s` back, and they fit in the buffer |
| `BitPacking.ReadWholeBuffer` | ArrayBoolean/ArrayBoolean.cs:17-21 | reading every bit of the buffer built from `s` gives `s` followed only by false values |
| `BitPacking.PackEqual` | ArrayBoolean/ArrayBoolean.cs:118-128 | two sequences give equal buffers if and only if their lengths agree after division by 8 and their elements agree up to the buffer's end, reading false past their ends |
| `ModiferTypes.CheckRangeArray` | ArrayBoolean/ArrayBoolean.cs:49-53 | the check fails, with IndexOutOfRange, exactly when `index < 0` or `index >= count` |
| `ModiferTypes.ArrayBoolean.FromBools` | ArrayBoolean/ArrayBoolean.cs:12-16 | a fresh buffer of `n / 8 + 1` bytes equal to the packed form of the input; `Count == n`; the elements are the input |
| `ModiferTypes.ArrayBoolean.FromBytes` | ArrayBoolean/ArrayBoolean.cs:17-21 | the given array itself becomes the buffer and `Count` is eight times its length |
| `ModiferTypes.ArrayBoolean.WithFields` | ArrayBoolean/ArrayBoolean.cs:8-11 | the parameterless constructor plus object initializer: both fields take the given values |
| `ModiferTypes.ArrayBoolean.ConvertArrayToBytes` | ArrayBoolean/ArrayBoolean.cs:59-70 | the loop that starts from a zeroed buffer and flips in each `true` element yields a fresh buffer equal to the reference packing `Pack` |
| `ModiferTypes.ArrayBoolean.InvertBitAt` | ArrayBoolean/ArrayBoolean.cs:72-77 | the in-place XOR leaves the buffer equal to `FlipAt` of its old contents |
| `ModiferTypes.ArrayBoolean.Get` | ArrayBoolean/ArrayBoolean.cs:33-39 | IndexOutOfRange exactly when `index < 0` or `index >= Count`, otherwise the element at `index` |
| `ModiferTypes.ArrayBoolean.Set` | ArrayBoolean/ArrayBoolean.cs:40-46 | IndexOutOfRange with the buffer unchanged exactly when out of range; otherwise the buffer becomes `SetBit` of the old one and the elements become the old ones with position `index` replaced by `v` |
| `ModiferTypes.ArrayBoolean.ConvertBytesToArray` | ArrayBoolean/ArrayBoolean.cs:94-102 | a fresh `bool` array of length `Count` holding exactly the elements |
| `ModiferTypes.ArrayBoolean.Clone` | ArrayBoolean/ArrayBoolean.cs:109-116 | a fresh object with the same `Count` whose buffer is the same array reference |
| `ModiferTypes.ArrayBoolean.CloneDeep` | ArrayBoolean/ArrayBoolean.cs:109-116 | corrected clone: a fresh object with the same `Count` and a fresh buffer with the same bytes |
| `ModiferTypes.ArrayBoolean.Equals` | ArrayBoolean/ArrayBoolean.cs:118-128 | true if and only if the two buffers have the same bytes (same length, same contents); `Count` plays no part |
| `ModiferTypes.ArrayBoolean.FromBoolArray` | ArrayBoolean/ArrayBoolean.cs:130-133 | the conversion from `bool[]` gives a valid object with `Count == n` holding the input |
| `ModiferTypes.ArrayBoolean.ToBoolArray` | ArrayBoolean/ArrayBoolean.cs:135-138 | the conversion to `bool[]` gives a fresh array holding exactly the elements |
| `ModiferTypes.ArrayBoolean.FromByteArray` | ArrayBoolean/ArrayBoolean.cs:140-143 | the conversion from `byte[]` keeps the array as the buffer and sets `Count` to eight times its length |
| `ArrayBooleanScenarios.PackFiveExample` | ArrayBoolean/ArrayBoolean.cs:59-70 | `[true, false, true, true, false]` packs into the single byte 0xB0 |
| `ArrayBooleanScenarios.ConstructAndRead` | TestArrayBoolean/Test.cs:7-19 | reading every index of an object built from `bools` gives `bools`, and `Count` is its length |
| `ArrayBooleanScenarios.RestoreFromBuffer` | TestArrayBoolean/Test.cs:21-34 | an object built from the buffer of an original holding `n` booleans uses that same buffer and has `Count == 8 * (n / 8 + 1) > n`; it agrees with the original on the first `n` indices and reads false after them |
| `ArrayBooleanScenarios.RestoreCountExample` | TestArrayBoolean/Test.cs:24-28 | three booleans restored from their buffer give `Count == 8`, not 3 |
| `ArrayBooleanScenarios.NoCountPrefixExample` | TestArrayBoolean/Test.cs:74-76 | ten false booleans give a two-byte buffer whose first byte is 0, not the count 10 |
| `ArrayBooleanScenarios.EqualsAfterConstruction` | ArrayBoolean/ArrayBoolean.cs:118-128 | two objects built from boolean arrays are equal exactly when the arrays pack to the same buffer |
| `ArrayBooleanScenarios.EqualsExample` | TestArrayBoolean/Test.cs:114-119 | objects from equal inputs are equal; objects from inputs differing at index 2 are not |
| `ArrayBooleanScenarios.EqualsIgnoresCount` | ArrayBoolean/ArrayBoolean.cs:118-128 | objects with `Count` 3 and 4 but the same buffer compare equal |
| `ArrayBooleanScenarios.IndexerExample` | TestArrayBoolean/Test.cs:36-53 | writes at 0, 5, 9 and then false at 5 on ten falses read back as true, false, false, true at 0, 1, 5, 9 |
| `ArrayBooleanScenarios.OutOfRangeExample` | TestArrayBoolean/Test.cs:198-208 | reading index 10, -1 or `Count` and writing index 5 of a five-element object report IndexOutOfRange |
| `ArrayBooleanScenarios.CloneSharesWrites` | ArrayBoolean/ArrayBoolean.cs:109-116 | a write through a clone changes what the original holds, and the two always hold the same elements |
| `ArrayBooleanScenarios.ShallowCloneExample` | TestArrayBoolean/Test.cs:92-109 | after `clone[0] = false` on a clone of `[true, false, true, true]`, the original reads false at 0 |
| `ArrayBooleanScenarios.DeepCloneIndependent` | TestArrayBoolean/Test.cs:104-107 | with `CloneDeep`, a write through the clone leaves the original's elements unchanged and updates the clone's |
| `ArrayBooleanScenarios.DeepCloneExample` | TestArrayBoolean/Test.cs:92-109 | with `CloneDeep`, the test's scenario gives original true and clone false at index 0 |

## Left out

- No variable-length count prefix is modelled, because the code writes none.
- Exceptions become values. An out-of-range index gives `Err(IndexOutOfRange)` from `Get` and `Fail(IndexOutOfRange)` from `Set` and from `CheckRangeArray`.
- ModiferTypes.ArrayBoolean.FromBytes: requires `bits.Length <= 0x7FFFFFFF / 8`. The source computes `bits.Length * 8` in a 32-bit `int`, which wraps for longer arrays, and that wrap-around is not modelled.
- ModiferTypes.ArrayBoolean.FromByteArray: requires the same bound as `FromBytes`, for the same reason.
- ArrayBooleanScenarios.RestoreFromBuffer: requires `n / 8 + 1 <= 0x7FFFFFFF / 8` for the raw-bytes constructor. This excludes no `bool[]` that .NET can allocate, whose length is at most 0x7FFFFFC7.
- ModiferTypes.ArrayBoolean.FromBools: `Count` is the array's length, unbounded in Dafny. In .NET an array length always fits a 32-bit `int`.
- ModiferTypes.ArrayBoolean.Equals: its argument is a non-null `ArrayBoolean`. The source dereferences `other.value` without a null check and so throws on `null`, which the model does not represent.
- ModiferTypes.ArrayBoolean.InvertBitAt: a static method that takes the buffer as a parameter. The source's private instance method always acts on `this.value`, and a Dafny constructor cannot call instance methods before its fields are set.
- ModiferTypes.ArrayBoolean.ConvertBytesToArray: takes no parameter. The source's `bits` parameter is never read; the method reads `this.value`.
- `GetEnumerator` (ArrayBoolean/ArrayBoolean.cs:104-107) enumerates the array returned by `ConvertBytesToArray`, which is modelled. The .NET enumerator is not.
- The `GetByte` property exposes `value`; the model reads the field directly.
- The .NET interfaces `IEnumerable`, `ICloneable` and `IEquatable`, the `object` return type of `Clone`, and the exception classes are not modelled.
- The console driver TestArrayBoolean/Program.cs and the assertion plumbing of TestArrayBoolean/Test.cs are not modelled.

## Findings

| source | as written | input that shows it | evidently intended | confidence | as-written member | corrected member |
|---|---|---|---|---|---|---|
| ArrayBoolean/ArrayBoolean.cs:109-116 | `Clone` copies the reference to the buffer, so the clone and the original share one byte array | clone `[true, false, true, true]`, then set index 0 of the clone to false: the original then reads false at index 0 | an independent copy: TestArrayBoolean/Test.cs:104-107 expects the original to keep true | medium (not executed) | `ArrayBooleanScenarios.ShallowCloneExample` | `ModiferTypes.ArrayBoolean.CloneDeep` |

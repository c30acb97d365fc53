/** Uses of ArrayBoolean as its own test program exercises it, stated as
    what the code does: where that differs from what the tests assert, the
    postcondition gives the code's answer. */
module ArrayBooleanScenarios {
  import opened BitPacking
  import opened ModiferTypes

  /** Five booleans pack into the single byte 0xB0, most significant bit first. */
  lemma PackFiveExample()
    ensures Pack([true, false, true, true, false]) == [0xB0]
  {
    var s := [true, false, true, true, false];
    assert |Pack(s)| == 1;
    assert PackByte(s, 0) == 0xB0;
  }

  /** The packed forms of two sequences that differ at index 2 differ. */
  lemma PackDiffers()
    ensures Pack([true, false, true]) != Pack([true, false, false])
  {
    PackBits([true, false, true], 2);
    PackBits([true, false, false], 2);
  }

  /** Building a container from booleans and reading every index back gives
      the booleans, and `Count` is their number. */
  method ConstructAndRead(bools: array<bool>) returns (count: int, read: seq<bool>)
    ensures count == bools.Length && read == bools[..]
  {
    var ab := new ArrayBoolean.FromBools(bools);
    count := ab.Count;
    read := [];
    var i := 0;
    while i < ab.Count
      invariant 0 <= i <= ab.Count
      invariant ab.Valid() && ab.Count == bools.Length && ab.Elements() == bools[..]
      invariant read == bools[..i]
    {
      var r := ab.Get(i);
      read := read + [r.value];
      i := i + 1;
    }
  }

  /** Feeding the buffer of a container built from `bools` to the raw-bytes
      constructor gives a container that shares the buffer, whose `Count` is
      `8 * (n / 8 + 1)` rather than `n`, that agrees with the original on the
      first `n` indices and reads false on the padding after them. */
  method RestoreFromBuffer(bools: array<bool>) returns (original: ArrayBoolean, restored: ArrayBoolean)
    requires bools.Length / SizeByte + 1 <= MaxInt32 / SizeByte
    ensures original.Valid() && restored.Valid()
    ensures restored.value == original.value
    ensures original.Count == bools.Length && original.Elements() == bools[..]
    ensures restored.Count == SizeByte * (bools.Length / SizeByte + 1)
    ensures bools.Length < restored.Count
    ensures restored.Elements()[..bools.Length] == original.Elements()
    ensures forall i :: bools.Length <= i < restored.Count ==> !restored.Elements()[i]
  {
    original := new ArrayBoolean.FromBools(bools);
    restored := new ArrayBoolean.FromBytes(original.value);
    ReadWholeBuffer(bools[..]);
  }

  /** Three booleans come back from their buffer as eight elements. */
  method RestoreCountExample() returns (originalCount: int, restoredCount: int)
    ensures originalCount == 3 && restoredCount == 8
  {
    var bools := new bool[3] [true, false, true];
    var original := new ArrayBoolean.FromBools(bools);
    var restored := new ArrayBoolean.FromBytes(original.value);
    originalCount, restoredCount := original.Count, restored.Count;
  }

  /** Ten false booleans give a buffer of two zero bytes: its first byte is
      bit data, not the element count. */
  method NoCountPrefixExample() returns (length: int, first: bv8)
    ensures length == 2 && first == 0
  {
    var bools := new bool[10](_ => false);
    var ab := new ArrayBoolean.FromBools(bools);
    assert bools[..] == [false, false, false, false, false, false, false, false, false, false];
    length, first := ab.value.Length, ab.value[0];
  }

  /** Two containers built from boolean arrays are equal exactly when the
      arrays pack to the same buffer (see PackEqual for when that is). */
  method EqualsAfterConstruction(bools1: array<bool>, bools2: array<bool>) returns (eq: bool)
    ensures eq <==> Pack(bools1[..]) == Pack(bools2[..])
  {
    var arr1 := new ArrayBoolean.FromBools(bools1);
    var arr2 := new ArrayBoolean.FromBools(bools2);
    eq := arr1.Equals(arr2);
  }

  /** Containers built from equal booleans are equal; ones that differ in a
      stored element are not. */
  method EqualsExample() returns (same: bool, different: bool)
    ensures same && !different
  {
    var bools1 := new bool[3] [true, false, true];
    var bools2 := new bool[3] [true, false, true];
    var bools3 := new bool[3] [true, false, false];
    same := EqualsAfterConstruction(bools1, bools2);
    assert bools1[..] == bools2[..];
    different := EqualsAfterConstruction(bools1, bools3);
    assert bools1[..] == [true, false, true] && bools3[..] == [true, false, false];
    PackDiffers();
  }

  /** Equality ignores `Count`: three booleans and the same three followed by
      a false pack to the same buffer, so the containers are equal. */
  method EqualsIgnoresCount() returns (eq: bool, count1: int, count2: int)
    ensures eq && count1 == 3 && count2 == 4
  {
    var bools1 := new bool[3] [true, false, true];
    var arr1 := new ArrayBoolean.FromBools(bools1);
    var bools2 := new bool[4] [true, false, true, false];
    var arr2 := new ArrayBoolean.FromBools(bools2);
    PackEqual([true, false, true], [true, false, true, false]);
    eq := arr1.Equals(arr2);
    count1, count2 := arr1.Count, arr2.Count;
  }

  /** Writes to a container of ten falses read back as written, and the
      indices not written still read false. */
  method IndexerExample() returns (r0: Result<bool>, r1: Result<bool>, r5: Result<bool>, r9: Result<bool>)
    ensures r0 == Ok(true) && r1 == Ok(false) && r5 == Ok(false) && r9 == Ok(true)
  {
    var bools := new bool[10](_ => false);
    var ab := new ArrayBoolean.FromBools(bools);
    var _ := ab.Set(0, true);
    var _ := ab.Set(5, true);
    var _ := ab.Set(9, true);
    var _ := ab.Set(5, false);
    r0 := ab.Get(0);
    r1 := ab.Get(1);
    r5 := ab.Get(5);
    r9 := ab.Get(9);
  }

  /** Reading or writing index 10, -1 or `Count` of a five-element container
      reports IndexOutOfRange. */
  method OutOfRangeExample() returns (r10: Result<bool>, rMinus: Result<bool>, rCount: Result<bool>, w: Outcome)
    ensures r10 == Err(IndexOutOfRange) && rMinus == Err(IndexOutOfRange)
    ensures rCount == Err(IndexOutOfRange) && w == Fail(IndexOutOfRange)
  {
    var bools := new bool[5](_ => false);
    var ab := new ArrayBoolean.FromBools(bools);
    r10 := ab.Get(10);
    rMinus := ab.Get(-1);
    rCount := ab.Get(ab.Count);
    w := ab.Set(5, true);
  }

  /** A write through a clone made by Clone is seen through the original,
      because both use the same buffer. */
  method CloneSharesWrites(original: ArrayBoolean, index: int, v: bool) returns (clone: ArrayBoolean)
    requires original.Valid()
    modifies original.value
    ensures original.Valid() && clone.Valid()
    ensures 0 <= index < original.Count ==> original.Elements() == old(original.Elements())[index := v]
    ensures original.Elements() == clone.Elements()
  {
    clone := original.Clone();
    var _ := clone.Set(index, v);
  }

  /** The clone test's scenario with Clone: after writing false at index 0 of
      the clone, the original reads false there too. */
  method ShallowCloneExample() returns (originalFirst: Result<bool>, cloneFirst: Result<bool>)
    ensures originalFirst == Ok(false) && cloneFirst == Ok(false)
  {
    var bools := new bool[4] [true, false, true, true];
    var original := new ArrayBoolean.FromBools(bools);
    var clone := original.Clone();
    var _ := clone.Set(0, false);
    originalFirst := original.Get(0);
    cloneFirst := clone.Get(0);
  }

  /** With CloneDeep a write through the clone leaves the original alone. */
  method DeepCloneIndependent(original: ArrayBoolean, index: int, v: bool) returns (clone: ArrayBoolean)
    requires original.Valid()
    ensures original.Valid() && clone.Valid()
    ensures original.Elements() == old(original.Elements())
    ensures 0 <= index < original.Count ==> clone.Elements() == old(original.Elements())[index := v]
  {
    clone := original.CloneDeep();
    var _ := clone.Set(index, v);
  }

  /** The clone test's scenario with CloneDeep: the original still reads true
      at index 0 and the clone reads false. */
  method DeepCloneExample() returns (originalFirst: Result<bool>, cloneFirst: Result<bool>)
    ensures originalFirst == Ok(true) && cloneFirst == Ok(false)
  {
    var bools := new bool[4] [true, false, true, true];
    var original := new ArrayBoolean.FromBools(bools);
    var clone := original.CloneDeep();
    var _ := clone.Set(0, false);
    originalFirst := original.Get(0);
    cloneFirst := clone.Get(0);
  }
}

/** The bit-packed boolean container ArrayBoolean.

    The container keeps a byte buffer `value` and a logical length `Count`.
    Element `i` is the bit of `value[i / 8]` under the mask `0x80 >> (i % 8)`
    (module BitPacking). The buffer carries no length prefix: it is bit data
    only, `n / 8 + 1` bytes for `n` booleans.
 */
module ModiferTypes {
  import opened BitPacking

  /** The one failure the container reports: an index outside `[0, Count)`. */
  datatype Error = IndexOutOfRange

  /** The outcome of an indexed read. */
  datatype Result<T> = Ok(value: T) | Err(error: Error)

  /** The outcome of an indexed write or of the range check. */
  datatype Outcome = Pass | Fail(error: Error)

  /** Largest value of a 32-bit signed integer, the type of `Count`. */
  const MaxInt32: int := 0x7FFF_FFFF

  /** The range check performed before every indexed access
      (CheckRangeArray): it fails when `count - 1 < index` or `index < 0`. */
  function CheckRangeArray(count: int, index: int): (r: Outcome)
    ensures r.Pass? <==> 0 <= index < count
    ensures r.Fail? ==> r.error == IndexOutOfRange
  {
    if count - 1 < index || 0 > index then Fail(IndexOutOfRange) else Pass
  }

  class ArrayBoolean {
    /** The packed buffer; the constructor from raw bytes and Clone share it
        with their caller. */
    var value: array<bv8>
    /** The logical number of elements. */
    var Count: int

    /** Every index below `Count` addresses a byte of the buffer. */
    ghost predicate Valid()
      reads this
    {
      0 <= Count <= SizeByte * value.Length
    }

    /** The booleans the container holds, in order. */
    ghost function Elements(): seq<bool>
      reads this, value
      requires Valid()
    {
      Unpack(value[..], Count)
    }

    /** Construction from a boolean array: the buffer is packed from it and
        `Count` is its length. */
    constructor FromBools(bools: array<bool>)
      ensures Valid() && fresh(value)
      ensures Count == bools.Length
      ensures value.Length == bools.Length / SizeByte + 1
      ensures value[..] == Pack(bools[..])
      ensures Elements() == bools[..]
    {
      var bytes := ConvertArrayToBytes(bools);
      value := bytes;
      Count := bools.Length;
      new;
      RoundTrip(bools[..]);
    }

    /** Construction from raw bytes: the array itself becomes the buffer and
        every bit of it is an element. */
    constructor FromBytes(bits: array<bv8>)
      requires bits.Length <= MaxInt32 / SizeByte
      ensures Valid()
      ensures value == bits && Count == SizeByte * bits.Length
    {
      value := bits;
      Count := bits.Length * SizeByte;
    }

    /** The parameterless constructor followed by an object initializer that
        sets both fields, as Clone does. */
    constructor WithFields(bits: array<bv8>, count: int)
      requires 0 <= count <= SizeByte * bits.Length
      ensures Valid()
      ensures value == bits && Count == count
    {
      value := bits;
      Count := count;
    }

    /** Allocates a zeroed buffer of `bools.Length / 8 + 1` bytes and flips in
        every `true` element (ConvertArrayToBytes). */
    static method ConvertArrayToBytes(bools: array<bool>) returns (bytes: array<bv8>)
      ensures fresh(bytes)
      ensures bytes[..] == Pack(bools[..])
    {
      bytes := new bv8[ByteIndex(bools.Length) + 1](_ => 0);
      var i := 0;
      while i < bools.Length
        invariant 0 <= i <= bools.Length
        invariant bytes.Length == bools.Length / SizeByte + 1
        invariant forall j :: 0 <= j < SizeByte * bytes.Length ==> BitAt(bytes[..], j) == (j < i && bools[j])
      {
        if bools[i] {
          InvertBitAt(bytes, i);
        }
        i := i + 1;
      }
      forall j | 0 <= j < SizeByte * bytes.Length
        ensures BitAt(bytes[..], j) == BitAt(Pack(bools[..]), j)
      {
        PackBits(bools[..], j);
      }
      BitsDetermineBytes(bytes[..], Pack(bools[..]));
    }

    /** Flips element `index` of `buffer` in place (InvertBitAt). */
    static method InvertBitAt(buffer: array<bv8>, index: nat)
      requires ByteIndex(index) < buffer.Length
      modifies buffer
      ensures buffer[..] == FlipAt(old(buffer[..]), index)
    {
      var indexArray := ByteIndex(index);
      var indexBit := BitIndex(index);
      buffer[indexArray] := InvertBit(buffer[indexArray], indexBit);
    }

    /** The indexer's getter: the element at `index`, or IndexOutOfRange. */
    method Get(index: int) returns (r: Result<bool>)
      requires Valid()
      ensures r.Err? <==> index < 0 || index >= Count
      ensures r.Err? ==> r.error == IndexOutOfRange
      ensures r.Ok? ==> r.value == Elements()[index]
    {
      var check := CheckRangeArray(Count, index);
      if check.Fail? {
        return Err(check.error);
      }
      r := Ok(BitAt(value[..], index));
    }

    /** The indexer's setter: writes `v` at `index` in place, or reports
        IndexOutOfRange and changes nothing. A write of the value already
        stored returns before touching the buffer. */
    method Set(index: int, v: bool) returns (r: Outcome)
      requires Valid()
      modifies value
      ensures Valid()
      ensures r.Fail? <==> index < 0 || index >= Count
      ensures r.Fail? ==> r.error == IndexOutOfRange && value[..] == old(value[..])
      ensures r.Pass? ==> value[..] == SetBit(old(value[..]), index, v)
      ensures r.Pass? ==> Elements() == old(Elements())[index := v]
    {
      var check := CheckRangeArray(Count, index);
      if check.Fail? {
        return check;
      }
      UnpackSetBit(value[..], Count, index, v);
      r := Pass;
      if BitAt(value[..], index) == v {
        return;
      }
      InvertBitAt(value, index);
    }

    /** A new boolean array holding the `Count` elements
        (ConvertBytesToArray). */
    method ConvertBytesToArray() returns (bools: array<bool>)
      requires Valid()
      ensures fresh(bools)
      ensures bools[..] == Elements()
    {
      bools := new bool[Count];
      var i := 0;
      while i < Count
        invariant 0 <= i <= Count
        invariant forall j :: 0 <= j < i ==> bools[j] == BitAt(value[..], j)
      {
        bools[i] := BitAt(value[..], i);
        i := i + 1;
      }
    }

    /** A new container with the same `Count` whose buffer is this container's
        buffer itself, not a copy. */
    method Clone() returns (c: ArrayBoolean)
      requires Valid()
      ensures fresh(c) && c.Valid()
      ensures c.value == value && c.Count == Count
    {
      c := new ArrayBoolean.WithFields(value, Count);
    }

    /** A new container with the same `Count` and a fresh copy of the buffer,
        so that writes through either leave the other alone. */
    method CloneDeep() returns (c: ArrayBoolean)
      requires Valid()
      ensures fresh(c) && fresh(c.value) && c.Valid()
      ensures c.value[..] == value[..] && c.Count == Count
    {
      var copy := new bv8[value.Length](_ => 0);
      var i := 0;
      while i < value.Length
        invariant 0 <= i <= value.Length
        invariant forall j :: 0 <= j < i ==> copy[j] == value[j]
      {
        copy[i] := value[i];
        i := i + 1;
      }
      c := new ArrayBoolean.WithFields(copy, Count);
    }

    /** Byte-wise equality of the two buffers; `Count` is not compared. */
    method Equals(other: ArrayBoolean) returns (eq: bool)
      ensures eq <==> value[..] == other.value[..]
    {
      if value.Length != other.value.Length {
        return false;
      }
      var i := 0;
      while i < value.Length
        invariant 0 <= i <= value.Length
        invariant value[..i] == other.value[..i]
      {
        if value[i] != other.value[i] {
          return false;
        }
        i := i + 1;
      }
      assert value[..] == value[..i];
      assert other.value[..] == other.value[..i];
      return true;
    }

    /** The implicit conversion from `bool[]`: a call to the constructor. */
    static method FromBoolArray(bools: array<bool>) returns (ab: ArrayBoolean)
      ensures fresh(ab) && fresh(ab.value) && ab.Valid()
      ensures ab.Count == bools.Length && ab.Elements() == bools[..]
    {
      ab := new ArrayBoolean.FromBools(bools);
    }

    /** The implicit conversion to `bool[]`: a call to ConvertBytesToArray. */
    static method ToBoolArray(ab: ArrayBoolean) returns (bools: array<bool>)
      requires ab.Valid()
      ensures fresh(bools)
      ensures bools[..] == ab.Elements()
    {
      bools := ab.ConvertBytesToArray();
    }

    /** The explicit conversion from `byte[]`: a call to the constructor. */
    static method FromByteArray(bits: array<bv8>) returns (ab: ArrayBoolean)
      requires bits.Length <= MaxInt32 / SizeByte
      ensures fresh(ab) && ab.Valid()
      ensures ab.value == bits && ab.Count == SizeByte * bits.Length
    {
      ab := new ArrayBoolean.FromBytes(bits);
    }
  }
}

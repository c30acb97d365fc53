/** Bit addressing of a packed boolean buffer.

    Element `i` of the container lives in byte `i / 8` of the buffer, under the
    mask `0x80 >> (i % 8)`: the first element of each byte is its most
    significant bit. Everything in this module is a pure function of the
    buffer's bytes; the class in module ModiferTypes holds the buffer itself.
 */
module BitPacking {

  /** Number of elements stored in one byte. */
  const SizeByte: nat := 8

  /** Mask of the first element of a byte, its most significant bit. */
  const OffsetBit: bv8 := 0x80

  /** Position of the byte that holds element `index`. Indices reaching this
      function have passed the range check, so they are never negative and
      truncating and Euclidean division agree. */
  function ByteIndex(index: nat): (r: nat)
    ensures SizeByte * r <= index < SizeByte * r + SizeByte
  {
    index / SizeByte
  }

  /** Position of element `index` inside its byte, counted from the most
      significant bit. */
  function BitIndex(index: nat): (r: nat)
    ensures r < SizeByte
    ensures SizeByte * ByteIndex(index) + r == index
  {
    index % SizeByte
  }

  /** The single-bit mask selecting position `indexBit` of a byte. */
  function Mask(indexBit: nat): bv8
    requires indexBit < SizeByte
  {
    OffsetBit >> (indexBit as bv8)
  }

  /** The eight masks: position 0 is 0x80, position 7 is 0x01. */
  lemma MaskTable()
    ensures Mask(0) == 0x80 && Mask(1) == 0x40 && Mask(2) == 0x20 && Mask(3) == 0x10
    ensures Mask(4) == 0x08 && Mask(5) == 0x04 && Mask(6) == 0x02 && Mask(7) == 0x01
  {
  }

  /** True iff position `indexBit` of `b` is set (GetBoolAtBit). */
  function GetBoolAtBit(b: bv8, indexBit: nat): bool
    requires indexBit < SizeByte
  {
    var mask := Mask(indexBit);
    b & mask == mask
  }

  /** Position `indexBit` is bit `7 - indexBit` counted from the least
      significant bit: the layout is most-significant-bit first. */
  lemma GetBoolAtBitMsbFirst(b: bv8, indexBit: nat)
    requires indexBit < SizeByte
    ensures GetBoolAtBit(b, indexBit) <==> (b >> ((7 - indexBit) as bv8)) & 1 == 1
  {
  }

  /** XOR with the mask of one position leaves every other position alone. */
  lemma XorMaskOther(b: bv8, indexBit: nat, m: nat)
    requires indexBit < SizeByte && m < SizeByte && m != indexBit
    ensures GetBoolAtBit(b ^ Mask(indexBit), m) == GetBoolAtBit(b, m)
  {
  }

  /** Flips position `indexBit` of `b` and no other position. */
  function InvertBit(b: bv8, indexBit: nat): (r: bv8)
    requires indexBit < SizeByte
    ensures GetBoolAtBit(r, indexBit) == !GetBoolAtBit(b, indexBit)
    ensures forall m :: 0 <= m < SizeByte && m != indexBit ==> GetBoolAtBit(r, m) == GetBoolAtBit(b, m)
  {
    assert forall m :: 0 <= m < SizeByte && m != indexBit ==> GetBoolAtBit(b ^ Mask(indexBit), m) == GetBoolAtBit(b, m) by {
      forall m | 0 <= m < SizeByte && m != indexBit {
        XorMaskOther(b, indexBit, m);
      }
    }
    b ^ Mask(indexBit)
  }

  /** A byte is determined by its eight positions. */
  lemma ByteFromBits(b: bv8, c: bv8)
    requires forall m :: 0 <= m < SizeByte ==> GetBoolAtBit(b, m) == GetBoolAtBit(c, m)
    ensures b == c
  {
    assert GetBoolAtBit(b, 0) == GetBoolAtBit(c, 0);
    assert GetBoolAtBit(b, 1) == GetBoolAtBit(c, 1);
    assert GetBoolAtBit(b, 2) == GetBoolAtBit(c, 2);
    assert GetBoolAtBit(b, 3) == GetBoolAtBit(c, 3);
    assert GetBoolAtBit(b, 4) == GetBoolAtBit(c, 4);
    assert GetBoolAtBit(b, 5) == GetBoolAtBit(c, 5);
    assert GetBoolAtBit(b, 6) == GetBoolAtBit(c, 6);
    assert GetBoolAtBit(b, 7) == GetBoolAtBit(c, 7);
  }

  /** Applying InvertBit twice at the same position gives the byte back. */
  lemma InvertBitTwice(b: bv8, indexBit: nat)
    requires indexBit < SizeByte
    ensures InvertBit(InvertBit(b, indexBit), indexBit) == b
  {
  }

  /** The value of element `index` in the buffer `bytes` (GetBoolAt): bit
      `7 - index % 8`, counted from the least significant bit, of byte
      `index / 8`. */
  function BitAt(bytes: seq<bv8>, index: nat): (r: bool)
    requires ByteIndex(index) < |bytes|
    ensures r <==> (bytes[index / 8] >> ((7 - index % 8) as bv8)) & 1 == 1
  {
    GetBoolAtBitMsbFirst(bytes[ByteIndex(index)], BitIndex(index));
    GetBoolAtBit(bytes[ByteIndex(index)], BitIndex(index))
  }

  /** The buffer `bytes` with element `index` flipped (InvertBitAt). */
  function FlipAt(bytes: seq<bv8>, index: nat): (r: seq<bv8>)
    requires ByteIndex(index) < |bytes|
    ensures |r| == |bytes|
    ensures forall k :: 0 <= k < |r| && k != ByteIndex(index) ==> r[k] == bytes[k]
    ensures forall j :: 0 <= j < SizeByte * |r| ==> BitAt(r, j) == (BitAt(bytes, j) != (j == index))
  {
    var indexArray := ByteIndex(index);
    bytes[indexArray := InvertBit(bytes[indexArray], BitIndex(index))]
  }

  /** Flipping the same element twice gives the buffer back. */
  lemma FlipAtTwice(bytes: seq<bv8>, index: nat)
    requires ByteIndex(index) < |bytes|
    ensures FlipAt(FlipAt(bytes, index), index) == bytes
  {
    InvertBitTwice(bytes[ByteIndex(index)], BitIndex(index));
  }

  /** The buffer after the in-range branch of the indexed write: unchanged when
      element `index` already holds `v`, flipped at `index` otherwise. */
  function SetBit(bytes: seq<bv8>, index: nat, v: bool): (r: seq<bv8>)
    requires ByteIndex(index) < |bytes|
    ensures |r| == |bytes|
    ensures BitAt(r, index) == v
    ensures forall j :: 0 <= j < SizeByte * |r| && j != index ==> BitAt(r, j) == BitAt(bytes, j)
    ensures forall k :: 0 <= k < |r| && k != ByteIndex(index) ==> r[k] == bytes[k]
    ensures BitAt(bytes, index) == v ==> r == bytes
  {
    if BitAt(bytes, index) == v then bytes else FlipAt(bytes, index)
  }

  /** The first `n` elements held by `bytes`. */
  function Unpack(bytes: seq<bv8>, n: nat): seq<bool>
    requires n <= SizeByte * |bytes|
  {
    seq(n, i requires 0 <= i < n => BitAt(bytes, i))
  }

  /** Writing element `index` of the buffer writes element `index` of the
      sequence it holds and nothing else. */
  lemma {:induction false} UnpackSetBit(bytes: seq<bv8>, n: nat, index: nat, v: bool)
    requires n <= SizeByte * |bytes| && index < n
    ensures Unpack(SetBit(bytes, index, v), n) == Unpack(bytes, n)[index := v]
  {
    var r := SetBit(bytes, index, v);
    forall i | 0 <= i < n
      ensures Unpack(r, n)[i] == Unpack(bytes, n)[index := v][i]
    {
    }
  }

  /** Element `i` of `s`, reading false past its end (the zero padding). */
  function Elem(s: seq<bool>, i: nat): bool
  {
    i < |s| && s[i]
  }

  /** Byte `k` of the packed form of `s`, written out position by position:
      element `8k` goes to the most significant bit, element `8k + 7` to the
      least significant one, and elements past the end of `s` are zero. */
  function PackByte(s: seq<bool>, k: nat): bv8
  {
    var i := SizeByte * k;
    (if Elem(s, i) then 0x80 else 0)
    | (if Elem(s, i + 1) then 0x40 else 0)
    | (if Elem(s, i + 2) then 0x20 else 0)
    | (if Elem(s, i + 3) then 0x10 else 0)
    | (if Elem(s, i + 4) then 0x08 else 0)
    | (if Elem(s, i + 5) then 0x04 else 0)
    | (if Elem(s, i + 6) then 0x02 else 0)
    | (if Elem(s, i + 7) then 0x01 else 0)
  }

  /** The buffer built from `s`: `|s| / 8 + 1` bytes of bit data and no
      prefix, so 0 elements take 1 byte and 8 elements take 2. */
  function Pack(s: seq<bool>): seq<bv8>
  {
    seq(|s| / SizeByte + 1, k requires 0 <= k => PackByte(s, k))
  }

  /** Position `j` of byte `k` of the packed form is element `8k + j`. */
  lemma PackByteBit(s: seq<bool>, k: nat, j: nat)
    requires j < SizeByte
    ensures GetBoolAtBit(PackByte(s, k), j) == Elem(s, SizeByte * k + j)
  {
    MaskTable();
    if j == 0 {
    } else if j == 1 {
    } else if j == 2 {
    } else if j == 3 {
    } else if j == 4 {
    } else if j == 5 {
    } else if j == 6 {
    } else {
    }
  }

  /** Every element of the packed buffer, padding included, reads as the
      corresponding element of `s`, and as false past its end. */
  lemma PackBits(s: seq<bool>, i: nat)
    requires i < SizeByte * |Pack(s)|
    ensures |Pack(s)| == |s| / SizeByte + 1
    ensures BitAt(Pack(s), i) == Elem(s, i)
  {
    PackByteBit(s, ByteIndex(i), BitIndex(i));
  }

  /** Two buffers of the same length holding the same elements are equal. */
  lemma BitsDetermineBytes(a: seq<bv8>, b: seq<bv8>)
    requires |a| == |b|
    requires forall j :: 0 <= j < SizeByte * |a| ==> BitAt(a, j) == BitAt(b, j)
    ensures a == b
  {
    forall k | 0 <= k < |a|
      ensures a[k] == b[k]
    {
      forall m | 0 <= m < SizeByte
        ensures GetBoolAtBit(a[k], m) == GetBoolAtBit(b[k], m)
      {
        var j := SizeByte * k + m;
        assert ByteIndex(j) == k && BitIndex(j) == m;
        assert BitAt(a, j) == BitAt(b, j);
      }
      ByteFromBits(a[k], b[k]);
    }
  }

  /** Round trip: the first `|s|` elements of the packed buffer are `s`. */
  lemma RoundTrip(s: seq<bool>)
    ensures |s| < SizeByte * |Pack(s)|
    ensures Unpack(Pack(s), |s|) == s
  {
    forall i | 0 <= i < |s|
      ensures BitAt(Pack(s), i) == s[i]
    {
      PackBits(s, i);
    }
  }

  /** Reading the whole packed buffer, as the constructor from raw bytes does,
      gives `s` followed by false padding up to the next multiple of 8 above
      `|s|`. */
  lemma ReadWholeBuffer(s: seq<bool>)
    ensures |Pack(s)| == |s| / SizeByte + 1
    ensures Unpack(Pack(s), SizeByte * |Pack(s)|)[..|s|] == s
    ensures forall i :: |s| <= i < SizeByte * |Pack(s)| ==> !Unpack(Pack(s), SizeByte * |Pack(s)|)[i]
  {
    var b := Pack(s);
    var all := Unpack(b, SizeByte * |b|);
    RoundTrip(s);
    forall i | 0 <= i < |s|
      ensures all[i] == s[i]
    {
      PackBits(s, i);
    }
    forall i | |s| <= i < SizeByte * |b|
      ensures !all[i]
    {
      PackBits(s, i);
    }
  }

  /** Two sequences pack to the same buffer exactly when their lengths agree
      up to a multiple of 8 and they agree on every element up to the end of
      that buffer, reading false past their ends. */
  lemma PackEqual(s: seq<bool>, t: seq<bool>)
    ensures Pack(s) == Pack(t) <==>
      |s| / SizeByte == |t| / SizeByte &&
      forall i :: 0 <= i < SizeByte * (|s| / SizeByte + 1) ==> Elem(s, i) == Elem(t, i)
  {
    var n := SizeByte * (|s| / SizeByte + 1);
    if Pack(s) == Pack(t) {
      forall i | 0 <= i < n
        ensures Elem(s, i) == Elem(t, i)
      {
        PackBits(s, i);
        PackBits(t, i);
      }
    }
    if |s| / SizeByte == |t| / SizeByte && forall i :: 0 <= i < n ==> Elem(s, i) == Elem(t, i) {
      forall j | 0 <= j < SizeByte * |Pack(s)|
        ensures BitAt(Pack(s), j) == BitAt(Pack(t), j)
      {
        PackBits(s, j);
        PackBits(t, j);
      }
      BitsDetermineBytes(Pack(s), Pack(t));
    }
  }
}

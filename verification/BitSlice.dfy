/** The C bitwise operators the decoder uses, on naturals. */
module Bitwise {
  import opened Bytes

  function Or(x: nat, y: nat): nat
    decreases x + y
  {
    if x == 0 && y == 0 then 0
    else 2 * Or(x / 2, y / 2) + (if x % 2 == 1 || y % 2 == 1 then 1 else 0)
  }

  function And(x: nat, y: nat): nat
  {
    if x == 0 then 0
    else 2 * And(x / 2, y / 2) + (if x % 2 == 1 && y % 2 == 1 then 1 else 0)
  }

  function Xor(x: nat, y: nat): nat
    decreases x + y
  {
    if x == 0 && y == 0 then 0
    else 2 * Xor(x / 2, y / 2) + (if x % 2 != y % 2 then 1 else 0)
  }

  function ShiftLeft(x: nat, n: nat): nat { Lift(x, n) }

  function ShiftRight(x: nat, n: nat): nat { Drop(x, n) }

  lemma {:induction false} BitOfOr(x: nat, y: nat, k: nat)
    ensures Bit(Or(x, y), k) == (Bit(x, k) || Bit(y, k))
  {
    if x == 0 && y == 0 {
      BitOfZero(k);
    } else if k != 0 {
      BitOfOr(x / 2, y / 2, k - 1);
    }
  }

  lemma {:induction false} BitOfAnd(x: nat, y: nat, k: nat)
    ensures Bit(And(x, y), k) == (Bit(x, k) && Bit(y, k))
  {
    if x == 0 {
      BitOfZero(k);
    } else if k != 0 {
      BitOfAnd(x / 2, y / 2, k - 1);
    }
  }

  lemma {:induction false} BitOfXor(x: nat, y: nat, k: nat)
    ensures Bit(Xor(x, y), k) == (Bit(x, k) != Bit(y, k))
  {
    if x == 0 && y == 0 {
      BitOfZero(k);
    } else if k != 0 {
      BitOfXor(x / 2, y / 2, k - 1);
    }
  }

  lemma BitOfShiftLeft(x: nat, n: nat, k: nat)
    ensures Bit(ShiftLeft(x, n), k) == (n <= k && Bit(x, k - n))
  {
    BitOfSum(0, x, n, k);
    BitOfZero(k);
  }

  lemma {:induction false} ShiftStaysBelow(x: nat, n: nat, m: nat)
    requires x < Pow2(m)
    ensures ShiftLeft(x, n) < Pow2(n + m)
  {
    if n != 0 { ShiftStaysBelow(x, n - 1, m); }
  }

  /** 2^n - 1 has exactly the bits below n. */
  lemma {:induction false} BitOfMask(n: nat, k: nat)
    ensures Bit(Pow2(n) - 1, k) == (k < n)
  {
    if n == 0 {
      BitOfZero(k);
    } else {
      assert (Pow2(n) - 1) / 2 == Pow2(n - 1) - 1 && (Pow2(n) - 1) % 2 == 1;
      if k != 0 { BitOfMask(n - 1, k - 1); }
    }
  }

  /** Or, and and xor stay inside the width of their operands. */
  lemma {:induction false} OpsStayBelow(x: nat, y: nat, n: nat)
    requires x < Pow2(n) && y < Pow2(n)
    ensures Or(x, y) < Pow2(n) && And(x, y) < Pow2(n) && Xor(x, y) < Pow2(n)
  {
    if n != 0 { OpsStayBelow(x / 2, y / 2, n - 1); }
  }
}

/** Reading a run of bits out of a byte array into a fixed-size buffer. */
module BitSlice {
  import opened Bytes
  import opened Bitwise

  /** The `len` bits of `bytes` that start at bit `offset`, as an unsigned number. */
  function Slice(bytes: seq<Byte>, offset: nat, len: nat): nat
  {
    Keep(Drop(Value(bytes), offset), len)
  }

  lemma SliceIsDivMod(bytes: seq<Byte>, offset: nat, len: nat)
    ensures Slice(bytes, offset, len) == Value(bytes) / Pow2(offset) % Pow2(len)
  {
    DropKeepAreDivMod(Value(bytes), offset);
    DropKeepAreDivMod(Drop(Value(bytes), offset), len);
  }

  /** Two's complement reading of a `width`-bit pattern. */
  function Signed(v: nat, width: nat): int
    requires width > 0
  {
    if v < Pow2(width - 1) then v else v - Pow2(width)
  }

  /** The signed reading is the number of the signed range that is equal to the unsigned one modulo 2^width. */
  lemma SignedIsCongruent(v: nat, width: nat, i: int)
    requires width > 0 && v < Pow2(width) && 0 <= i + Pow2(width - 1) < Pow2(width)
    ensures i == Signed(v, width) <==> i == v || i == v - Pow2(width)
    ensures 0 <= Signed(v, width) + Pow2(width - 1) < Pow2(width)
  {
    assert Pow2(width) == 2 * Pow2(width - 1);
  }

  /** Buffer contents: the low `len` bits are the slice, the others are `fill`. */
  ghost predicate Holds(buffer: seq<Byte>, bytes: seq<Byte>, offset: nat, len: nat, fill: bool)
    requires offset + len <= 8 * |bytes|
  {
    forall k :: 0 <= k < 8 * |buffer| ==>
      BitAt(buffer, k) == if k < len then BitAt(bytes, offset + k) else fill
  }

  /** A zero-filled buffer holds the slice's number. */
  lemma HoldsSlice(buffer: seq<Byte>, bytes: seq<Byte>, offset: nat, len: nat)
    requires offset + len <= 8 * |bytes| && len <= 8 * |buffer|
    requires Holds(buffer, bytes, offset, len, false)
    ensures Value(buffer) == Slice(bytes, offset, len)
  {
    var w := 8 * |buffer|;
    ValueBound(buffer);
    SliceBelow(bytes, offset, len, w);
    forall k | 0 <= k < w ensures Bit(Value(buffer), k) == Bit(Slice(bytes, offset, len), k) {
      BitOfValue(buffer, k);
      SliceBit(bytes, offset, len, k);
    }
    EqualByBits(Value(buffer), Slice(bytes, offset, len), w);
  }

  lemma SliceBelow(bytes: seq<Byte>, offset: nat, len: nat, w: nat)
    requires len <= w
    ensures Slice(bytes, offset, len) < Pow2(len) <= Pow2(w)
  {
    KeepBound(Drop(Value(bytes), offset), len);
    Pow2Grows(len, w);
  }

  /** A buffer filled with the slice's top bit reads as the sign-extended slice. */
  lemma HoldsSigned(buffer: seq<Byte>, bytes: seq<Byte>, offset: nat, len: nat)
    requires offset + len <= 8 * |bytes| && 0 < len <= 8 * |buffer|
    requires Holds(buffer, bytes, offset, len, BitAt(bytes, offset + len - 1))
    ensures Signed(Value(buffer), 8 * |buffer|) == Signed(Slice(bytes, offset, len), len)
  {
    var w, v, s := 8 * |buffer|, Value(buffer), Slice(bytes, offset, len);
    ValueBound(buffer);
    var top := BitAt(bytes, offset + len - 1);
    forall k | 0 <= k < w ensures Bit(v, k) == if k < len then Bit(s, k) else top {
      BitOfValue(buffer, k);
      SliceBit(bytes, offset, len, k);
    }
    SliceBit(bytes, offset, len, len - 1);
    SliceBelow(bytes, offset, len, w);
    SignExtends(v, s, len, w, top);
  }

  lemma SliceBit(bytes: seq<Byte>, offset: nat, len: nat, k: nat)
    requires offset + len <= 8 * |bytes|
    ensures Bit(Slice(bytes, offset, len), k) == (k < len && BitAt(bytes, offset + k))
  {
    BitOfKeep(Drop(Value(bytes), offset), len, k);
    BitOfDrop(Value(bytes), offset, k);
    if k < len { BitOfValue(bytes, offset + k); }
  }

  /** Repeating the top bit of a pattern keeps its two's complement reading. */
  lemma {:induction false} SignExtends(v: nat, s: nat, len: nat, w: nat, top: bool)
    requires 0 < len <= w && v < Pow2(w) && s < Pow2(len)
    requires forall k :: 0 <= k < w ==> Bit(v, k) == if k < len then Bit(s, k) else top
    requires Bit(s, len - 1) == top
    ensures Signed(v, w) == Signed(s, len)
  {
    if len == 1 {
      AllTheSame(v, w, top);
      assert Bit(s, 0) == top;
    } else {
      assert Bit(v, 0) == Bit(s, 0);
      forall k | 0 <= k < w - 1
        ensures Bit(v / 2, k) == if k < len - 1 then Bit(s / 2, k) else top
      {
        assert Bit(v, k + 1) == if k + 1 < len then Bit(s, k + 1) else top;
      }
      SignExtends(v / 2, s / 2, len - 1, w - 1, top);
      assert Pow2(w - 1) == 2 * Pow2(w - 2) && Pow2(len - 1) == 2 * Pow2(len - 2);
    }
  }

  lemma {:induction false} AllTheSame(v: nat, w: nat, bit: bool)
    requires w > 0 && v < Pow2(w)
    requires forall k :: 0 <= k < w ==> Bit(v, k) == bit
    ensures v == if bit then Pow2(w) - 1 else 0
  {
    assert Bit(v, 0) == bit;
    if w > 1 {
      forall k | 0 <= k < w - 1 ensures Bit(v / 2, k) == bit { assert Bit(v, k + 1) == bit; }
      AllTheSame(v / 2, w - 1, bit);
    }
  }

  /** (byte >> q) & 1 */
  method TestBit(byte: Byte, q: nat) returns (b: bool)
    ensures b == Bit(byte, q)
  {
    var shifted := ShiftRight(byte, q);
    AndZero(shifted / 2);
    BitOfDrop(byte, q, 0);
    b := And(shifted, 1) != 0;
  }

  lemma {:induction false} AndZero(x: nat)
    ensures And(x, 0) == 0
  {
    if x != 0 { AndZero(x / 2); }
  }

  /** byte | (mask ^ ((1 << q) - 1)) for the all-ones mask */
  method SetFrom(byte: Byte, q: nat) returns (r: Byte)
    requires q < 8
    ensures forall k :: 0 <= k < 8 ==> Bit(r, k) == (q <= k || Bit(byte, k))
  {
    Pow2Of8();
    Pow2Grows(q, 8);
    BitOfMaskLift(8);
    BitOfMaskLift(q);
    var mask := ShiftLeft(1, 8) - 1;
    var below := ShiftLeft(1, q) - 1;
    OpsStayBelow(mask, below, 8);
    OpsStayBelow(byte, Xor(mask, below), 8);
    r := Or(byte, Xor(mask, below));
    forall k | 0 <= k < 8 ensures Bit(r, k) == (q <= k || Bit(byte, k)) {
      BitOfOr(byte, Xor(mask, below), k);
      BitOfXor(mask, below, k);
      BitOfMask(8, k);
      BitOfMask(q, k);
    }
  }

  lemma {:induction false} BitOfMaskLift(n: nat)
    ensures ShiftLeft(1, n) == Pow2(n)
  {
    if n != 0 { BitOfMaskLift(n - 1); }
  }

  /** Sets every bit above `signPos` to the bit at `signPos`, for a buffer that is zero above it. */
  method Sext(bytes: array<Byte>, signPos: nat)
    requires signPos < 8 * bytes.Length
    requires forall k :: signPos < k < 8 * bytes.Length ==> !BitAt(bytes[..], k)
    modifies bytes
    ensures forall k :: 0 <= k < 8 * bytes.Length ==>
              BitAt(bytes[..], k) == old(BitAt(bytes[..], if k <= signPos then k else signPos))
  {
    ghost var was := bytes[..];
    var p := signPos / 8;
    var bit := TestBit(bytes[p], signPos % 8);
    assert bit == BitAt(was, signPos);
    if bit {
      bytes[p] := SetFrom(bytes[p], signPos % 8);
      ghost var signByte := bytes[p];
      var i := p + 1;
      while i < bytes.Length
        invariant p < i <= bytes.Length
        invariant forall j :: 0 <= j < p ==> bytes[j] == was[j]
        invariant bytes[p] == signByte
        invariant forall j :: p < j < i ==> bytes[j] == 255
      {
        bytes[i] := 255;
        i := i + 1;
      }
      AllOnes();
      SignFilled(was, bytes[..], signPos);
    }
  }

  lemma AllOnes()
    ensures forall k :: 0 <= k < 8 ==> Bit(255, k)
  {
    Pow2Of8();
    forall k | 0 <= k < 8 ensures Bit(255, k) { BitOfMask(8, k); }
  }

  lemma SignFilled(was: seq<Byte>, now: seq<Byte>, signPos: nat)
    requires |was| == |now| && signPos < 8 * |was| && BitAt(was, signPos)
    requires forall k :: signPos < k < 8 * |was| ==> !BitAt(was, k)
    requires forall j :: 0 <= j < signPos / 8 ==> now[j] == was[j]
    requires forall k :: 0 <= k < 8 ==>
      Bit(now[signPos / 8], k) == (signPos % 8 <= k || Bit(was[signPos / 8], k))
    requires forall j :: signPos / 8 < j < |now| ==> now[j] == 255
    requires forall k :: 0 <= k < 8 ==> Bit(255, k)
    ensures forall k :: 0 <= k < 8 * |now| ==>
      BitAt(now, k) == BitAt(was, if k <= signPos then k else signPos)
  {
  }

  /** The buffer a read of a `size`-byte type leaves: the slice, sign-extended for signed types. */
  method ReadBytesAsValue(byteArray: seq<Byte>, offset: nat, len: nat, size: nat, signed: bool)
    returns (bytes: array<Byte>)
    requires 0 < size && len <= 8 * size && offset + len <= 8 * |byteArray|
    requires signed ==> len > 0
    ensures fresh(bytes) && bytes.Length == size
    ensures Holds(bytes[..], byteArray, offset, len, signed && BitAt(byteArray, offset + len - 1))
    ensures !signed ==> Value(bytes[..]) == Slice(byteArray, offset, len)
    ensures signed ==> Signed(Value(bytes[..]), 8 * size) == Signed(Slice(byteArray, offset, len), len)
  {
    bytes := new Byte[size](_ => 0);
    BitOfZeroForAll();
    if offset % 8 != 0 || len % 8 != 0 {
      ReadUnaligned(bytes, byteArray, offset, len);
    } else {
      var j := 0;
      while j < len / 8
        invariant 0 <= j <= len / 8
        invariant forall k :: 0 <= k < j ==> bytes[k] == byteArray[offset / 8 + k]
        invariant forall k :: j <= k < size ==> bytes[k] == 0
      {
        bytes[j] := byteArray[offset / 8 + j];
        j := j + 1;
      }
      assert Holds(bytes[..], byteArray, offset, len, false);
    }
    if signed {
      Sext(bytes, len - 1);
      HoldsSigned(bytes[..], byteArray, offset, len);
    } else {
      HoldsSlice(bytes[..], byteArray, offset, len);
    }
  }

  lemma BitOfZeroForAll()
    ensures forall k: nat :: !Bit(0, k)
  {
    forall k: nat ensures !Bit(0, k) { BitOfZero(k); }
  }

  /** Bits of the buffer after `j` source bytes have been shifted in. */
  ghost predicate ReadSoFar(buffer: seq<Byte>, byteArray: seq<Byte>, offset: nat, len: nat, j: nat)
    requires offset + len <= 8 * |byteArray|
  {
    forall k :: 0 <= k < 8 * |buffer| ==>
      BitAt(buffer, k) == (k < len && k < 8 * j - offset % 8 && BitAt(byteArray, offset + k))
  }

  /** The `lo` low bits of `next` put on top of `prev`. */
  ghost predicate Merged(r: Byte, prev: Byte, next: Byte, lo: nat)
    requires lo < 8
  {
    forall k :: 0 <= k < 8 ==>
      Bit(r, k) == (Bit(prev, k) || (8 - lo <= k && Bit(next, lo + k - 8)))
  }

  /** Shifting in one more source byte: its low bits complete byte j - 1, its high bits start byte j. */
  lemma StepBits(was: seq<Byte>, now: seq<Byte>, byteArray: seq<Byte>, byte: Byte, offset: nat, len: nat, j: nat)
    requires offset + len <= 8 * |byteArray| && offset / 8 + j < |byteArray|
    requires |was| == |now| && 0 <= j <= |was|
    requires ReadSoFar(was, byteArray, offset, len, j)
    requires forall k :: 0 <= k < 8 ==>
      Bit(byte, k) == (8 * (offset / 8 + j) + k < offset + len && Bit(byteArray[offset / 8 + j], k))
    requires forall b :: 0 <= b < |was| && b != j - 1 && b != j ==> now[b] == was[b]
    requires j > 0 ==> Merged(now[j - 1], was[j - 1], byte, offset % 8)
    requires j < |was| ==> forall k :: 0 <= k < 8 ==> Bit(now[j], k) == Bit(byte, offset % 8 + k)
    ensures ReadSoFar(now, byteArray, offset, len, j + 1)
  {
    var lo, i := offset % 8, offset / 8 + j;
    forall k | 0 <= k < 8 * |now|
      ensures BitAt(now, k) == (k < len && k < 8 * (j + 1) - lo && BitAt(byteArray, offset + k))
    {
      assert BitAt(was, k) == (k < len && k < 8 * j - lo && BitAt(byteArray, offset + k));
      var b, r := k / 8, k % 8;
      if b == j - 1 {
        if 8 - lo <= r {
          assert (offset + k) / 8 == i && (offset + k) % 8 == r - (8 - lo);
        }
      } else if b == j {
        if lo + r < 8 {
          assert (offset + k) / 8 == i && (offset + k) % 8 == lo + r;
        } else {
          HighBitsZeroOfByte(byte, lo + r);
        }
      }
    }
  }

  lemma HighBitsZeroOfByte(byte: Byte, k: nat)
    requires k >= 8
    ensures !Bit(byte, k)
  {
    Pow2Of8();
    HighBitsZero(byte, 8, k);
  }

  method ReadUnaligned(bytes: array<Byte>, byteArray: seq<Byte>, offset: nat, len: nat)
    requires 0 < bytes.Length && len <= 8 * bytes.Length && offset + len <= 8 * |byteArray|
    requires offset % 8 != 0 || len % 8 != 0
    requires forall k :: 0 <= k < bytes.Length ==> bytes[k] == 0
    modifies bytes
    ensures Holds(bytes[..], byteArray, offset, len, false)
  {
    var size := bytes.Length;
    var lo := offset % 8;
    var stop := (offset + len + 8 - 1) / 8;
    var i, j := offset / 8, 0;
    BitOfZeroForAll();
    while i < stop
      invariant i == offset / 8 + j <= stop
      invariant forall k :: j <= k < size ==> bytes[k] == 0
      invariant ReadSoFar(bytes[..], byteArray, offset, len, j)
      decreases stop - i
    {
      ghost var was := bytes[..];
      var byte := SourceByte(byteArray, i, offset + len);
      ShiftIn(bytes, j, byte, lo);
      StepBits(was, bytes[..], byteArray, byte, offset, len, j);
      i, j := i + 1, j + 1;
    }
  }

  /** Byte `i` of the source without the bits from `end` on. */
  method SourceByte(byteArray: seq<Byte>, i: nat, end: nat) returns (byte: Byte)
    requires i < |byteArray| && 8 * i < end
    ensures forall k :: 0 <= k < 8 ==> Bit(byte, k) == (8 * i + k < end && Bit(byteArray[i], k))
  {
    byte := byteArray[i];
    if i + 1 == (end + 8 - 1) / 8 {
      var top := end % 8;
      if top == 0 {
        top := 8;
      }
      byte := MaskByte(byte, top);
    }
  }

  /** The low bits of the byte complete byte `j - 1` of the buffer, the others start byte `j`. */
  method ShiftIn(bytes: array<Byte>, j: nat, byte: Byte, lo: nat)
    requires j <= bytes.Length && lo < 8
    modifies bytes
    ensures forall b :: 0 <= b < bytes.Length && b != j - 1 && b != j ==> bytes[b] == old(bytes[b])
    ensures j > 0 ==> Merged(bytes[j - 1], old(bytes[j - 1]), byte, lo)
    ensures j < bytes.Length ==> forall k :: 0 <= k < 8 ==> Bit(bytes[j], k) == Bit(byte, lo + k)
  {
    var low := MaskByte(byte, lo);
    var high := ShiftRight(byte, lo);
    HighIsByte(byte, lo);
    if j > 0 {
      bytes[j - 1] := MergeByte(bytes[j - 1], low, lo);
    }
    if j < bytes.Length {
      bytes[j] := high;
    }
  }

  /** byte & ((1 << n) - 1) */
  method MaskByte(byte: Byte, n: nat) returns (r: Byte)
    requires n <= 8
    ensures forall k: nat :: Bit(r, k) == (k < n && Bit(byte, k))
  {
    BitOfMaskLift(n);
    Pow2Of8();
    Pow2Grows(n, 8);
    OpsStayBelow(byte, ShiftLeft(1, n) - 1, 8);
    r := And(byte, ShiftLeft(1, n) - 1);
    forall k: nat ensures Bit(r, k) == (k < n && Bit(byte, k)) {
      BitOfAnd(byte, ShiftLeft(1, n) - 1, k);
      BitOfMask(n, k);
    }
  }

  /** prev | (low << (8 - lo)) */
  method MergeByte(prev: Byte, low: Byte, lo: nat) returns (r: Byte)
    requires lo <= 8
    requires forall k: nat :: lo <= k ==> !Bit(low, k)
    ensures forall k: nat :: Bit(r, k) == (Bit(prev, k) || (8 - lo <= k && Bit(low, k - (8 - lo))))
  {
    Pow2Of8();
    BoundedByBits(low, lo, 8);
    ShiftStaysBelow(low, 8 - lo, lo);
    OpsStayBelow(prev, ShiftLeft(low, 8 - lo), 8);
    r := Or(prev, ShiftLeft(low, 8 - lo));
    forall k: nat ensures Bit(r, k) == (Bit(prev, k) || (8 - lo <= k && Bit(low, k - (8 - lo)))) {
      BitOfOr(prev, ShiftLeft(low, 8 - lo), k);
      BitOfShiftLeft(low, 8 - lo, k);
    }
  }

  lemma HighIsByte(byte: Byte, lo: nat)
    ensures ShiftRight(byte, lo) <= byte
    ensures forall k: nat :: Bit(ShiftRight(byte, lo), k) == Bit(byte, lo + k)
  {
    forall k: nat ensures Bit(ShiftRight(byte, lo), k) == Bit(byte, lo + k) {
      BitOfDrop(byte, lo, k);
    }
  }
}

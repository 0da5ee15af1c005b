/** Bytes, their little-endian value, and the bits of a number. */
module Bytes {

  type Byte = x: int | 0 <= x < 256

  function Pow2(n: nat): (r: nat)
    ensures r > 0
  {
    if n == 0 then 1 else 2 * Pow2(n - 1)
  }

  /** The unsigned little-endian value of a byte string. */
  function Value(bytes: seq<Byte>): nat
  {
    if |bytes| == 0 then 0 else bytes[0] + 256 * Value(bytes[1..])
  }

  /** The `n` low-order bytes of `v`, least significant first. */
  function ToBytes(v: nat, n: nat): (r: seq<Byte>)
    ensures |r| == n
  {
    if n == 0 then [] else [v % 256] + ToBytes(v / 256, n - 1)
  }

  function Zeros(n: nat): (r: seq<Byte>)
    ensures |r| == n && forall k :: 0 <= k < n ==> r[k] == 0
  {
    seq(n, _ => 0)
  }

  /** Bit `k` of `x`, counting from the least significant. */
  predicate Bit(x: nat, k: nat)
  {
    if k == 0 then x % 2 == 1 else Bit(x / 2, k - 1)
  }

  /** Bit `k` of a byte string read as one little-endian number. */
  predicate BitAt(bytes: seq<Byte>, k: nat)
    requires k < 8 * |bytes|
  {
    Bit(bytes[k / 8], k % 8)
  }

  /** x * 2^n, x / 2^n and x modulo 2^n, one bit at a time. */
  function Lift(x: nat, n: nat): nat
  {
    if n == 0 then x else 2 * Lift(x, n - 1)
  }

  function Drop(x: nat, n: nat): (r: nat)
    ensures r <= x
  {
    if n == 0 then x else Drop(x / 2, n - 1)
  }

  function Keep(x: nat, n: nat): nat
  {
    if n == 0 then 0 else x % 2 + 2 * Keep(x / 2, n - 1)
  }

  /** Writing a value back gives the bytes it was read from. */
  lemma {:induction false} ToBytesOfValue(bytes: seq<Byte>)
    ensures ToBytes(Value(bytes), |bytes|) == bytes
  {
    if bytes == [] {
    } else {
      ToBytesOfValue(bytes[1..]);
      var low, rest := bytes[0], Value(bytes[1..]);
      assert (low + 256 * rest) % 256 == low && (low + 256 * rest) / 256 == rest;
    }
  }

  lemma Pow2Of8()
    ensures Pow2(8) == 256
  {
    assert Pow2(4) == 16;
    assert Pow2(7) == 8 * Pow2(4);
  }

  lemma {:induction false} Pow2Grows(a: nat, b: nat)
    requires a <= b
    ensures Pow2(a) <= Pow2(b)
  {
    if a < b { Pow2Grows(a, b - 1); }
  }

  lemma {:induction false} BitOfZero(k: nat)
    ensures !Bit(0, k)
  {
    if k != 0 { BitOfZero(k - 1); }
  }

  lemma {:induction false} HighBitsZero(x: nat, n: nat, k: nat)
    requires x < Pow2(n) && n <= k
    ensures !Bit(x, k)
  {
    if n == 0 {
      BitOfZero(k);
    } else {
      HighBitsZero(x / 2, n - 1, k - 1);
    }
  }

  /** A number without bits from n on is below 2^n. */
  lemma {:induction false} BoundedByBits(x: nat, n: nat, w: nat)
    requires x < Pow2(w)
    requires forall k :: n <= k < w ==> !Bit(x, k)
    ensures x < Pow2(n)
    decreases w
  {
    if w <= n {
      Pow2Grows(w, n);
    } else if n == 0 {
      assert !Bit(x, 0);
      forall k | 0 <= k < w - 1 ensures !Bit(x / 2, k) { assert !Bit(x, k + 1); }
      BoundedByBits(x / 2, 0, w - 1);
    } else {
      forall k | n - 1 <= k < w - 1 ensures !Bit(x / 2, k) { assert !Bit(x, k + 1); }
      BoundedByBits(x / 2, n - 1, w - 1);
    }
  }

  /** Numbers below 2^n with the same n low bits are equal. */
  lemma {:induction false} EqualByBits(x: nat, y: nat, n: nat)
    requires x < Pow2(n) && y < Pow2(n)
    requires forall k :: 0 <= k < n ==> Bit(x, k) == Bit(y, k)
    ensures x == y
  {
    if n != 0 {
      assert Bit(x, 0) == Bit(y, 0);
      forall k | 0 <= k < n - 1 ensures Bit(x / 2, k) == Bit(y / 2, k) {
        assert Bit(x, k + 1) == Bit(y, k + 1);
      }
      EqualByBits(x / 2, y / 2, n - 1);
    }
  }

  /** Bits of a number put together from a low part below 2^n and a high part. */
  lemma {:induction false} BitOfSum(low: nat, high: nat, n: nat, k: nat)
    requires low < Pow2(n)
    ensures Bit(low + Lift(high, n), k) == if k < n then Bit(low, k) else Bit(high, k - n)
  {
    if n != 0 {
      var h := Lift(high, n - 1);
      assert (low + 2 * h) / 2 == low / 2 + h && (low + 2 * h) % 2 == low % 2;
      if k != 0 { BitOfSum(low / 2, high, n - 1, k - 1); }
    }
  }

  lemma LiftOf8(x: nat)
    ensures Lift(x, 8) == 256 * x
  {
    assert Lift(x, 1) == 2 * x && Lift(x, 3) == 8 * x;
    assert Lift(x, 5) == 32 * x && Lift(x, 7) == 128 * x;
  }

  /** The bits of the value of a byte string are the bits of its bytes. */
  lemma {:induction false} BitOfValue(bytes: seq<Byte>, k: nat)
    requires k < 8 * |bytes|
    ensures Bit(Value(bytes), k) == BitAt(bytes, k)
  {
    Pow2Of8();
    LiftOf8(Value(bytes[1..]));
    BitOfSum(bytes[0], Value(bytes[1..]), 8, k);
    if k >= 8 { BitOfValue(bytes[1..], k - 8); }
  }

  /** A value fits in its bytes. */
  lemma {:induction false} ValueBound(bytes: seq<Byte>)
    ensures Value(bytes) < Pow2(8 * |bytes|)
  {
    if bytes == [] {
    } else {
      ValueBound(bytes[1..]);
      Pow2Step8(8 * |bytes[1..]|);
    }
  }

  lemma Pow2Step8(n: nat)
    ensures Pow2(n + 8) == 256 * Pow2(n)
  {
    assert Pow2(n + 2) == 4 * Pow2(n);
    assert Pow2(n + 4) == 4 * Pow2(n + 2);
    assert Pow2(n + 6) == 4 * Pow2(n + 4);
  }

  lemma {:induction false} BitOfDrop(x: nat, n: nat, k: nat)
    ensures Bit(Drop(x, n), k) == Bit(x, n + k)
  {
    if n != 0 { BitOfDrop(x / 2, n - 1, k); }
  }

  lemma {:induction false} BitOfKeep(x: nat, n: nat, k: nat)
    ensures Bit(Keep(x, n), k) == (k < n && Bit(x, k))
  {
    if n == 0 {
      BitOfZero(k);
    } else if k != 0 {
      BitOfKeep(x / 2, n - 1, k - 1);
    }
  }

  lemma {:induction false} KeepBound(x: nat, n: nat)
    ensures Keep(x, n) < Pow2(n)
  {
    if n != 0 { KeepBound(x / 2, n - 1); }
  }

  /** `Drop` and `Keep` are quotient and remainder by 2^n. */
  lemma {:induction false} DropKeepAreDivMod(x: nat, n: nat)
    ensures Drop(x, n) == x / Pow2(n)
    ensures Keep(x, n) == x % Pow2(n)
  {
    if n == 0 {
    } else {
      DropKeepAreDivMod(x / 2, n - 1);
      HalveFirst(x, Pow2(n - 1), Drop(x / 2, n - 1), Keep(x / 2, n - 1));
    }
  }

  /** Dividing by 2 * d goes through halving. */
  lemma HalveFirst(x: nat, d: nat, q: nat, r: nat)
    requires d > 0 && q == x / 2 / d && r == x / 2 % d
    ensures x / (2 * d) == q && x % (2 * d) == x % 2 + 2 * r
  {
    assert x / 2 == q * d + r;
    assert x == q * (2 * d) + (2 * r + x % 2);
    DivModUnique(x, 2 * d, q, 2 * r + x % 2);
  }

  lemma DivModUnique(x: nat, d: nat, q: nat, r: nat)
    requires d > 0 && r < d && x == q * d + r
    ensures x / d == q && x % d == r
  {
    var q', r' := x / d, x % d;
    assert (q - q') * d == r' - r;
    if q > q' {
      Scaled(q - q', d);
      assert false;
    } else if q < q' {
      Scaled(q' - q, d);
      assert false;
    }
  }

  lemma Scaled(x: int, d: nat)
    ensures x >= 1 ==> x * d >= d
    ensures (-x) * d == -(x * d)
  {
  }
}

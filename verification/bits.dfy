/** Bit strings, least significant bit first, and JavaScript's bitwise operators on the
    non-negative integers the encoder feeds them. `x & 0xff` is `x % 256` on that domain. */
module Bits {
  type Byte = b: int | 0 <= b < 256
  type Bit = b: int | 0 <= b < 2

  function Pow2(n: nat): (p: nat)
    ensures p > 0
  {
    if n == 0 then 1 else 2 * Pow2(n - 1)
  }

  /** `a | b` */
  function Or(a: nat, b: nat): nat {
    if a == 0 && b == 0 then 0
    else (if a % 2 == 1 || b % 2 == 1 then 1 else 0) + 2 * Or(a / 2, b / 2)
  }

  /** `a << n` */
  function Shl(a: nat, n: nat): nat { a * Pow2(n) }

  /** The low `n` bits of `v`. */
  function BitsOf(v: nat, n: nat): (bits: seq<Bit>)
    ensures |bits| == n
    decreases n, v
  {
    if n == 0 then [] else [v % 2] + BitsOf(v / 2, n - 1)
  }

  function Val(bits: seq<Bit>): nat {
    if bits == [] then 0 else bits[0] + 2 * Val(bits[1..])
  }

  function Zeros(n: nat): seq<Bit> { seq(n, _ => 0) }

  /** The bit string a byte string carries. */
  function Unpack(bytes: seq<Byte>): (bits: seq<Bit>)
    ensures |bits| == 8 * |bytes|
  {
    if bytes == [] then [] else BitsOf(bytes[0], 8) + Unpack(bytes[1..])
  }

  /** Bit n of a byte string, least significant bits first. */
  function BitAt(bytes: seq<Byte>, n: nat): nat
    requires n < 8 * |bytes|
  {
    bytes[n / 8] / Pow2(n % 8) % 2
  }

  lemma HalfOfQuotient(v: nat, p: nat)
    requires p > 0
    ensures v / 2 / p == v / (2 * p)
  {
    var q, r := v / (2 * p), v % (2 * p);
    assert v == 2 * (p * q) + r;
    assert v / 2 == p * q + r / 2 && r / 2 < p;
    QuotientOf(p, q, r / 2);
  }

  lemma QuotientOf(p: nat, q: nat, r: nat)
    requires r < p
    ensures (p * q + r) / p == q
  {
    var d := (p * q + r) / p;
    assert p * q + r == p * d + (p * q + r) % p;
    Multiples(p, d - q);
    assert p * (d - q) == p * d - p * q;
  }

  lemma Multiples(p: nat, k: int)
    ensures k >= 1 ==> p * k >= p
    ensures k <= -1 ==> p * k <= 0 - p
  {
    if k >= 1 { assert p * (k - 1) >= 0; }
    if k <= -1 { assert p * (-1 - k) >= 0; }
  }

  lemma {:induction false} BitsOfAt(v: nat, n: nat, k: nat)
    requires k < n
    ensures BitsOf(v, n)[k] == v / Pow2(k) % 2
  {
    if k > 0 {
      BitsOfAt(v / 2, n - 1, k - 1);
      HalfOfQuotient(v, Pow2(k - 1));
    }
  }

  lemma {:induction false} UnpackAt(bytes: seq<Byte>, n: nat)
    requires n < 8 * |bytes|
    ensures Unpack(bytes)[n] == BitAt(bytes, n)
  {
    if n < 8 {
      BitsOfAt(bytes[0], 8, n);
    } else {
      UnpackAt(bytes[1..], n - 8);
      assert (n - 8) / 8 == n / 8 - 1 && (n - 8) % 8 == n % 8;
    }
  }

  lemma Associate(a: seq<Bit>, b: seq<Bit>, c: seq<Bit>)
    ensures a + (b + c) == a + b + c
  {
  }

  lemma {:induction false} UnpackAppend(xs: seq<Byte>, y: Byte)
    ensures Unpack(xs + [y]) == Unpack(xs) + BitsOf(y, 8)
  {
    if xs == [] {
      assert [] + [y] == [y];
      assert Unpack([y]) == BitsOf(y, 8) + Unpack([]);
    } else {
      UnpackAppend(xs[1..], y);
      var ys := xs + [y];
      assert ys[0] == xs[0] && ys[1..] == xs[1..] + [y];
      Associate(BitsOf(xs[0], 8), Unpack(xs[1..]), BitsOf(y, 8));
    }
  }

  lemma {:induction false} ValOfBits(v: nat, n: nat)
    requires v < Pow2(n)
    ensures Val(BitsOf(v, n)) == v
  {
    if n > 0 {
      ValOfBits(v / 2, n - 1);
      assert BitsOf(v, n)[1..] == BitsOf(v / 2, n - 1);
    }
  }

  lemma {:induction false} OrBound(a: nat, b: nat, n: nat)
    requires a < Pow2(n) && b < Pow2(n)
    ensures Or(a, b) < Pow2(n)
  {
    if n > 0 { OrBound(a / 2, b / 2, n - 1); }
  }

  lemma {:induction false} OrZero(a: nat)
    ensures Or(a, 0) == a && Or(0, a) == a
  {
    if a > 0 { OrZero(a / 2); }
  }

  lemma Doubling(b: nat, k: nat)
    requires k > 0
    ensures b * Pow2(k) == 2 * (b * Pow2(k - 1))
  {
    var p := Pow2(k - 1);
    assert Pow2(k) == 2 * p;
    assert b * (2 * p) == 2 * (b * p);
  }

  lemma Halving(a: nat, m: nat)
    ensures (a + 2 * m) % 2 == a % 2 && (a + 2 * m) / 2 == a / 2 + m
  {
  }

  /** Or-ing a value above the bits in use adds it: nothing already packed is lost. */
  lemma {:induction false} OrIsAppend(a: nat, b: nat, k: nat)
    requires a < Pow2(k)
    ensures Or(a, Shl(b, k)) == a + b * Pow2(k)
  {
    if k == 0 {
      OrZero(b);
    } else {
      var m := b * Pow2(k - 1);
      Doubling(b, k);
      Halving(0, m);
      OrIsAppend(a / 2, b, k - 1);
      OrStep(a, m);
    }
  }

  lemma OrStep(a: nat, m: nat)
    requires Or(a / 2, m) == a / 2 + m
    ensures Or(a, 2 * m) == a + 2 * m
  {
    assert (2 * m) / 2 == m && (2 * m) % 2 == 0;
  }

  lemma {:induction false} BitsAppend(a: nat, b: nat, k: nat, n: nat)
    requires a < Pow2(k)
    ensures BitsOf(a + b * Pow2(k), k + n) == BitsOf(a, k) + BitsOf(b, n)
  {
    if k > 0 {
      var m := b * Pow2(k - 1);
      Doubling(b, k);
      Halving(a, m);
      BitsAppend(a / 2, b, k - 1, n);
      BitsStep(a + 2 * m, a, k, n, b);
    }
  }

  lemma BitsStep(v: nat, a: nat, k: nat, n: nat, b: nat)
    requires k > 0 && v % 2 == a % 2
    requires BitsOf(v / 2, k - 1 + n) == BitsOf(a / 2, k - 1) + BitsOf(b, n)
    ensures BitsOf(v, k + n) == BitsOf(a, k) + BitsOf(b, n)
  {
    assert BitsOf(v, k + n) == [v % 2] + BitsOf(v / 2, k - 1 + n);
    assert BitsOf(a, k) == [a % 2] + BitsOf(a / 2, k - 1);
  }

  lemma {:induction false} BitsOfZero(n: nat)
    ensures BitsOf(0, n) == Zeros(n)
  {
    if n > 0 {
      BitsOfZero(n - 1);
      assert Zeros(n) == [0] + Zeros(n - 1);
    }
  }

  lemma BytesJoin(low: Byte, high: nat, n: nat)
    ensures BitsOf(low + high * 256, 8 + n) == BitsOf(low, 8) + BitsOf(high, n)
  {
    assert Pow2(8) == 256;
    BitsAppend(low, high, 8, n);
  }

  /** Shifting a full byte out keeps the remaining bits in place. */
  lemma LowByte(v: nat, n: nat)
    ensures BitsOf(v, 8 + n) == BitsOf(v % 256, 8) + BitsOf(v / 256, n)
  {
    var low, high := v % 256, v / 256;
    assert v == low + high * 256;
    BytesJoin(low, high, n);
  }

  lemma PowerTable()
    ensures Pow2(0) == 1 && Pow2(1) == 2 && Pow2(2) == 4 && Pow2(3) == 8 && Pow2(4) == 16
    ensures Pow2(5) == 32 && Pow2(6) == 64 && Pow2(7) == 128 && Pow2(8) == 256 && Pow2(15) == 0x8000
  {
    assert Pow2(11) == 8 * Pow2(8);
    assert Pow2(15) == 16 * Pow2(11);
  }

  lemma {:induction false} PowerMonotone(m: nat, n: nat)
    requires m <= n
    ensures Pow2(m) <= Pow2(n)
  {
    if m < n { PowerMonotone(m, n - 1); }
  }
}

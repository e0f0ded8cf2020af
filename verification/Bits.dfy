/**
  Bit-level arithmetic on naturals: shifts, bitwise or/xor and the
  most-significant-bit-first expansion of a word. Shifts are defined one
  position at a time, so every proof stays in linear arithmetic.
 */
module Bits {

  function Pow2(n: nat): (p: nat)
    ensures p > 0
  {
    if n == 0 then 1 else 2 * Pow2(n - 1)
  }

  /** `v >> k` */
  function Shr(v: nat, k: nat): nat
  {
    if k == 0 then v else Shr(v / 2, k - 1)
  }

  /** `v << k`, before truncation to a word */
  function Shl(v: nat, k: nat): nat
  {
    if k == 0 then v else 2 * Shl(v, k - 1)
  }

  /** `v & (1 << k) != 0` */
  predicate BitAt(v: nat, k: nat)
  {
    Shr(v, k) % 2 == 1
  }

  function Or(a: nat, b: nat): nat
    decreases a + b
  {
    if a == 0 && b == 0 then 0
    else 2 * Or(a / 2, b / 2) + (if a % 2 == 1 || b % 2 == 1 then 1 else 0)
  }

  function Xor(a: nat, b: nat): nat
    decreases a + b
  {
    if a == 0 && b == 0 then 0
    else 2 * Xor(a / 2, b / 2) + (if a % 2 != b % 2 then 1 else 0)
  }

  /** Number of bits up to and including the highest set bit. */
  function BitLength(v: nat): nat
  {
    if v == 0 then 0 else 1 + BitLength(v / 2)
  }

  function TrailingZeros(v: nat): nat
    requires v > 0
  {
    if v % 2 == 1 then 0 else 1 + TrailingZeros(v / 2)
  }

  /** The low `n` bits of `v`, most significant first. */
  function BitsOf(v: nat, n: nat): (s: seq<bool>)
    ensures |s| == n
  {
    if n == 0 then [] else BitsOf(v / 2, n - 1) + [v % 2 == 1]
  }

  /** The word spelled by a bit sequence, most significant bit first. */
  function ValueOf(s: seq<bool>): nat
  {
    if s == [] then 0
    else 2 * ValueOf(s[..|s| - 1]) + (if s[|s| - 1] then 1 else 0)
  }

  function Zeros(n: nat): (s: seq<bool>)
    ensures |s| == n
  {
    seq(n, _ => false)
  }

  lemma {:induction false} DivideByDouble(v: nat, p: nat)
    requires p > 0
    ensures v % (2 * p) == 2 * ((v / 2) % p) + v % 2
  {
    var q, m := (v / 2) / p, (v / 2) % p;
    assert v == 2 * (v / 2) + v % 2;
    assert v / 2 == p * q + m;
    assert v == (2 * p) * q + (2 * m + v % 2);
    RemainderIsUnique(v, 2 * p, q, 2 * m + v % 2);
  }

  lemma {:induction false} RemainderIsUnique(v: nat, d: nat, q: nat, r: nat)
    requires r < d
    requires v == d * q + r
    ensures v % d == r
  {
    var q', r' := v / d, v % d;
    assert v == d * q' + r';
    if q' < q {
      MultipleAtLeast(d, q - q');
    } else if q < q' {
      MultipleAtLeast(d, q' - q);
    }
  }

  lemma {:induction false} MultipleAtLeast(d: nat, k: nat)
    requires k > 0
    ensures d * k >= d
  {
    assert d * k == d * (k - 1) + d;
  }

  /** Reading back the low `n` bits of a word gives the word modulo 2^n. */
  lemma {:induction false} ValueOfBits(v: nat, n: nat)
    ensures ValueOf(BitsOf(v, n)) == v % Pow2(n)
  {
    if n > 0 {
      ValueOfBits(v / 2, n - 1);
      var s := BitsOf(v, n);
      assert s[..n - 1] == BitsOf(v / 2, n - 1);
      DivideByDouble(v, Pow2(n - 1));
    }
  }

  lemma {:induction false} ValueOfBitsExact(v: nat, n: nat)
    requires v < Pow2(n)
    ensures ValueOf(BitsOf(v, n)) == v
  {
    if n > 0 {
      ValueOfBitsExact(v / 2, n - 1);
      assert BitsOf(v, n)[..n - 1] == BitsOf(v / 2, n - 1);
    }
  }

  lemma {:induction false} ValueOfBound(s: seq<bool>)
    ensures ValueOf(s) < Pow2(|s|)
  {
    if s != [] { ValueOfBound(s[..|s| - 1]); }
  }

  /** A bit sequence is determined by its value: expanding it gives it back. */
  lemma {:induction false} BitsOfValue(s: seq<bool>)
    ensures BitsOf(ValueOf(s), |s|) == s
  {
    if s != [] {
      BitsOfValue(s[..|s| - 1]);
      assert s == s[..|s| - 1] + [s[|s| - 1]];
    }
  }

  lemma {:induction false} BitsOfIndex(v: nat, n: nat, i: nat)
    requires i < n
    ensures BitsOf(v, n)[i] == BitAt(v, n - 1 - i)
  {
    if i < n - 1 { BitsOfIndex(v / 2, n - 1, i); }
  }

  lemma {:induction false} OrHalves(a: nat, b: nat)
    ensures Or(a, b) / 2 == Or(a / 2, b / 2)
    ensures Or(a, b) % 2 == 1 <==> a % 2 == 1 || b % 2 == 1
  {
  }

  lemma {:induction false} BitsOfOr(a: nat, b: nat, n: nat, i: nat)
    requires i < n
    ensures BitsOf(Or(a, b), n)[i] == (BitsOf(a, n)[i] || BitsOf(b, n)[i])
  {
    OrHalves(a, b);
    hide Or;
    if i < n - 1 { BitsOfOr(a / 2, b / 2, n - 1, i); }
  }

  /** The low `n` bits split into the bits above and below position `k`. */
  lemma {:induction false} BitsOfSplit(v: nat, n: nat, k: nat)
    requires k <= n
    ensures BitsOf(v, n) == BitsOf(Shr(v, k), n - k) + BitsOf(v, k)
  {
    if k > 0 {
      BitsOfSplit(v / 2, n - 1, k - 1);
    }
  }

  lemma {:induction false} BitsOfZero(n: nat)
    ensures BitsOf(0, n) == Zeros(n)
  {
    if n > 0 { BitsOfZero(n - 1); }
  }

  lemma {:induction false} BitsOfSmall(v: nat, n: nat, k: nat)
    requires k <= n && v < Pow2(k)
    ensures BitsOf(v, n) == Zeros(n - k) + BitsOf(v, k)
  {
    if k == 0 {
      BitsOfZero(n);
    } else {
      BitsOfSmall(v / 2, n - 1, k - 1);
    }
  }

  /** Shifting left by `k` moves the low bits up and fills with zeros. */
  lemma {:induction false} BitsOfShl(v: nat, n: nat, k: nat)
    requires k <= n
    ensures BitsOf(Shl(v, k), n) == BitsOf(v, n - k) + Zeros(k)
  {
    if k > 0 {
      BitsOfShl(v, n - 1, k - 1);
      assert Zeros(k) == Zeros(k - 1) + [false];
    }
  }

  lemma {:induction false} ShrBound(v: nat, n: nat, k: nat)
    requires k <= n && v < Pow2(n)
    ensures Shr(v, k) < Pow2(n - k)
  {
    if k > 0 { ShrBound(v / 2, n - 1, k - 1); }
  }

  lemma {:induction false} BitLengthBound(v: nat, n: nat)
    ensures BitLength(v) <= n <==> v < Pow2(n)
  {
    if v > 0 && n > 0 { BitLengthBound(v / 2, n - 1); }
  }

  lemma {:induction false} TrailingZerosBound(v: nat)
    requires v > 0
    ensures TrailingZeros(v) < BitLength(v)
  {
    if v % 2 == 0 { TrailingZerosBound(v / 2); }
  }

  /** Dropping at most the trailing zeros loses nothing. */
  lemma {:induction false} ShlShr(v: nat, k: nat)
    requires v > 0 && k <= TrailingZeros(v)
    ensures Shl(Shr(v, k), k) == v
  {
    if k > 0 { ShlShr(v / 2, k - 1); }
  }

  lemma {:induction false} XorInverse(a: nat, b: nat)
    ensures Xor(a, Xor(b, a)) == b
    decreases a + b
  {
    if a + b > 0 { XorInverse(a / 2, b / 2); }
  }

  lemma {:induction false} XorZero(a: nat, b: nat)
    ensures Xor(a, b) == 0 <==> a == b
    decreases a + b
  {
    if a + b > 0 { XorZero(a / 2, b / 2); }
  }

  lemma {:induction false} XorBound(a: nat, b: nat, n: nat)
    requires a < Pow2(n) && b < Pow2(n)
    ensures Xor(a, b) < Pow2(n)
  {
    if n > 0 { XorBound(a / 2, b / 2, n - 1); }
  }

  /** Setting a word's top bit. */
  lemma {:induction false} OrTop(x: nat, n: nat)
    requires x < 2 * Pow2(n)
    ensures Or(x, Pow2(n)) == x % Pow2(n) + Pow2(n)
  {
    if n == 0 {
      assert Or(0, 0) == 0;
      assert x / 2 == 0;
    } else {
      OrTop(x / 2, n - 1);
      DivideByDouble(x, Pow2(n - 1));
    }
  }

  lemma {:induction false} OrBound(a: nat, b: nat, n: nat)
    requires a < Pow2(n) && b < Pow2(n)
    ensures Or(a, b) < Pow2(n)
  {
    if n > 0 { OrBound(a / 2, b / 2, n - 1); }
  }

  lemma {:induction false} OrZero(a: nat)
    ensures Or(0, a) == a
  {
    if a > 0 { OrZero(a / 2); }
  }

  /** Words with no bit in common are or-ed by adding them. */
  lemma {:induction false} OrDisjoint(a: nat, x: nat, k: nat)
    requires a < Pow2(k)
    ensures Or(a, Shl(x, k)) == a + Shl(x, k)
  {
    if k == 0 {
      OrZero(x);
    } else {
      OrDisjoint(a / 2, x, k - 1);
    }
  }

  lemma {:induction false} ShlAdd(a: nat, b: nat, k: nat)
    ensures Shl(a + b, k) == Shl(a, k) + Shl(b, k)
  {
    if k > 0 { ShlAdd(a, b, k - 1); }
  }

  lemma {:induction false} ShlTwice(a: nat, j: nat, k: nat)
    ensures Shl(Shl(a, j), k) == Shl(a, j + k)
  {
    if k > 0 { ShlTwice(a, j, k - 1); }
  }

  lemma {:induction false} ShlBound(a: nat, n: nat, k: nat)
    ensures a < Pow2(n) <==> Shl(a, k) < Pow2(n + k)
  {
    if k > 0 { ShlBound(a, n, k - 1); }
  }

  /** Only the low `n` bits of a word reach its `n`-bit expansion. */
  lemma {:induction false} BitsOfTruncated(v: nat, n: nat)
    ensures BitsOf(v % Pow2(n), n) == BitsOf(v, n)
  {
    ValueOfBits(v, n);
    BitsOfValue(BitsOf(v, n));
  }
}

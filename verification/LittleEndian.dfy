/** Fixed-width little-endian integers and the cursor reads over them. */
module LittleEndian {
  import opened Base

  function Pow256(n: nat): (p: nat)
    ensures p > 0
  {
    if n == 0 then 1 else 256 * Pow256(n - 1)
  }

  function LE(v: nat, n: nat): (s: Bytes)
    ensures |s| == n
  {
    if n == 0 then [] else [v % 256] + LE(v / 256, n - 1)
  }

  function FromLE(s: Bytes): nat
  {
    if s == [] then 0 else s[0] as nat + 256 * FromLE(s[1..])
  }

  lemma {:induction false} FromLEBound(s: Bytes)
    ensures FromLE(s) < Pow256(|s|)
  {
    if s != [] { FromLEBound(s[1..]); }
  }

  lemma {:induction false} LERoundTrip(v: nat, n: nat)
    requires v < Pow256(n)
    ensures FromLE(LE(v, n)) == v
  {
    if n > 0 {
      LERoundTrip(v / 256, n - 1);
      assert LE(v, n)[1..] == LE(v / 256, n - 1);
    }
  }

  /** Every byte string is the encoding of its own value. */
  lemma {:induction false} LEOfValue(s: Bytes)
    ensures LE(FromLE(s), |s|) == s
  {
    if s != [] {
      LEOfValue(s[1..]);
      assert s == [s[0]] + s[1..];
    }
  }

  lemma Widths()
    ensures Pow256(2) == 0x1_0000
    ensures Pow256(4) == 0x1_0000_0000
    ensures Pow256(8) == 0x1_0000_0000_0000_0000
    ensures Pow256(16) == 0x1_0000_0000_0000_0000_0000_0000_0000_0000
  {
    assert Pow256(1) == 256;
    FourMore(0); FourMore(4); FourMore(8); FourMore(12);
  }

  lemma FourMore(n: nat)
    ensures Pow256(n + 4) == 0x1_0000_0000 * Pow256(n)
  {
    assert Pow256(n + 2) == 256 * Pow256(n + 1) == 0x1_0000 * Pow256(n);
    assert Pow256(n + 4) == 256 * Pow256(n + 3) == 0x1_0000 * Pow256(n + 2);
  }

  /** Either the bytes run out, or a value and the bytes after it. */
  datatype Parsed<+T> = Truncated | Got(value: T, rest: Bytes)

  function ReadLE(s: Bytes, n: nat): (r: Parsed<nat>)
    ensures r.Got? ==> r.value < Pow256(n) && s == LE(r.value, n) + r.rest
  {
    if |s| < n then Truncated
    else
      FromLEBound(s[..n]); LEOfValue(s[..n]);
      Got(FromLE(s[..n]), s[n..])
  }

  lemma ReadBackLE(v: nat, n: nat, rest: Bytes)
    requires v < Pow256(n)
    ensures ReadLE(LE(v, n) + rest, n) == Got(v, rest)
  {
    LERoundTrip(v, n);
    assert (LE(v, n) + rest)[..n] == LE(v, n);
  }
}

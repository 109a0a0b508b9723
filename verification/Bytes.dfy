/** Bytes and fixed-width numbers as byte strings. */
module Bytes {
  import opened Basics

  type Byte = b: int | 0 <= b < 256

  function Pow256(k: nat): (r: nat)
    ensures r > 0
  {
    if k == 0 then 1 else 256 * Pow256(k - 1)
  }

  lemma Widths()
    ensures Pow256(2) == 0x1_0000 && Pow256(4) == 0x1_0000_0000 && Pow256(8) == 0x1_0000_0000_0000_0000
  {
    assert Pow256(3) == 256 * Pow256(2);
    assert Pow256(5) == 256 * Pow256(4) && Pow256(6) == 256 * Pow256(5) && Pow256(7) == 256 * Pow256(6);
  }

  // ---- big-endian ----

  /** `to_be_bytes` for a number of `k` bytes. */
  function ToBe(v: nat, k: nat): (b: seq<Byte>)
    ensures |b| == k
  {
    if k == 0 then [] else ToBe(v / 256, k - 1) + [v % 256]
  }

  /** `from_be_bytes`. */
  function FromBe(b: seq<Byte>): nat {
    if b == [] then 0 else 256 * FromBe(b[..|b| - 1]) + b[|b| - 1]
  }

  lemma {:induction false} FromBeBounded(b: seq<Byte>)
    ensures FromBe(b) < Pow256(|b|)
  {
    if b != [] { FromBeBounded(b[..|b| - 1]); }
  }

  lemma {:induction false} BeRoundTrip(v: nat, k: nat)
    requires v < Pow256(k)
    ensures FromBe(ToBe(v, k)) == v
  {
    if k > 0 {
      BeRoundTrip(v / 256, k - 1);
      assert ToBe(v, k)[..k - 1] == ToBe(v / 256, k - 1);
    }
  }

  /** Byte `i` of `k` big-endian bytes is the one worth `256^(k - 1 - i)`: the first byte weighs most. */
  lemma {:induction false} BeByte(b: seq<Byte>, i: nat)
    requires i < |b|
    ensures b[i] == (FromBe(b) / Pow256(|b| - 1 - i)) % 256
  {
    var m := |b| - 1;
    assert FromBe(b) == 256 * FromBe(b[..m]) + b[m];
    if i < m {
      assert Pow256(m - i) == 256 * Pow256(m - 1 - i);
      hide FromBe, Pow256;
      BeByte(b[..m], i);
      DivideOnce(FromBe(b[..m]), b[m], Pow256(m - 1 - i), FromBe(b), Pow256(m - i));
    }
  }

  lemma DivideOnce(v: nat, low: Byte, p: nat, more: nat, pp: nat)
    requires p > 0 && more == 256 * v + low && pp == 256 * p
    ensures more / pp == v / p
  {
    var q, r := v / p, v % p;
    assert v == p * q + r;
    assert more == pp * q + (256 * r + low);
    assert 0 <= 256 * r + low < pp;
    QuotientIs(more, pp, q, 256 * r + low);
  }

  lemma {:induction false} BeInverse(b: seq<Byte>)
    ensures ToBe(FromBe(b), |b|) == b
  {
    if b != [] {
      BeInverse(b[..|b| - 1]);
      assert FromBe(b) / 256 == FromBe(b[..|b| - 1]) && FromBe(b) % 256 == b[|b| - 1];
      assert b == b[..|b| - 1] + [b[|b| - 1]];
    }
  }

  // ---- little-endian ----

  /** `to_le_bytes` for a number of `k` bytes. */
  function ToLe(v: nat, k: nat): (b: seq<Byte>)
    ensures |b| == k
  {
    if k == 0 then [] else [v % 256] + ToLe(v / 256, k - 1)
  }

  /** `from_le_bytes`. */
  function FromLe(b: seq<Byte>): nat {
    if b == [] then 0 else b[0] + 256 * FromLe(b[1..])
  }

  lemma {:induction false} FromLeBounded(b: seq<Byte>)
    ensures FromLe(b) < Pow256(|b|)
  {
    if b != [] { FromLeBounded(b[1..]); }
  }

  lemma {:induction false} LeRoundTrip(v: nat, k: nat)
    requires v < Pow256(k)
    ensures FromLe(ToLe(v, k)) == v
  {
    if k > 0 {
      LeRoundTrip(v / 256, k - 1);
      assert ToLe(v, k)[1..] == ToLe(v / 256, k - 1);
    }
  }

  /** Byte `i` of little-endian bytes is the one worth `256^i`: the first byte weighs least. */
  lemma {:induction false} LeByte(b: seq<Byte>, i: nat)
    requires i < |b|
    ensures b[i] == (FromLe(b) / Pow256(i)) % 256
  {
    assert FromLe(b) == b[0] + 256 * FromLe(b[1..]);
    if i > 0 {
      assert Pow256(i) == 256 * Pow256(i - 1);
      hide FromLe, Pow256;
      LeByte(b[1..], i - 1);
      DivideOnce(FromLe(b[1..]), b[0], Pow256(i - 1), FromLe(b), Pow256(i));
    }
  }

  lemma {:induction false} LeInverse(b: seq<Byte>)
    ensures ToLe(FromLe(b), |b|) == b
  {
    if b != [] {
      LeInverse(b[1..]);
      assert FromLe(b) / 256 == FromLe(b[1..]) && FromLe(b) % 256 == b[0];
      assert b == [b[0]] + b[1..];
    }
  }

  // ---- cutting byte strings ----

  lemma SamePrefix<T>(a: seq<T>, x: seq<T>, b: seq<T>, y: seq<T>)
    requires |a| == |b| && a + x == b + y
    ensures a == b && x == y
  {
    assert a == (a + x)[..|a|] && b == (b + y)[..|b|];
    assert x == (a + x)[|a|..] && y == (b + y)[|b|..];
  }

  lemma Cut<T>(s: seq<T>, i: nat, j: nat, k: nat)
    requires i <= j <= k <= |s|
    ensures s[i..k] == s[i..j] + s[j..k]
  {
  }
}

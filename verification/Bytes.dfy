// Bytes, options and the few sequence facts that every codec below relies on.
module Bytes {
  type byte = b: int | 0 <= b < 256

  // A 64-bit float is its eight stored bytes; nothing looks inside it.
  type F64Bits = s: seq<byte> | |s| == 8 witness [0, 0, 0, 0, 0, 0, 0, 0]

  datatype Option<+T> = None | Some(value: T)

  function Pow2(n: nat): (p: nat)
    ensures p >= 1
  {
    if n == 0 then 1 else 2 * Pow2(n - 1)
  }

  lemma {:induction false} Pow2Add(a: nat, b: nat)
    ensures Pow2(a + b) == Pow2(a) * Pow2(b)
    decreases b
  {
    if b != 0 {
      Pow2Add(a, b - 1);
      assert Pow2(a + b) == 2 * Pow2(a + (b - 1));
    }
  }

  // Peeling one seven-bit group off a width of n bits.
  lemma Pow2Seven(n: nat)
    requires n >= 7
    ensures Pow2(n) == 128 * Pow2(n - 7)
  {
    Pow2Add(n - 7, 7);
    assert Pow2(7) == 128;
  }

  lemma {:induction false} Pow2Mono(a: nat, b: nat)
    requires a <= b
    ensures Pow2(a) <= Pow2(b)
    decreases b - a
  {
    if a < b {
      Pow2Mono(a + 1, b);
    }
  }

  lemma Pow2Small(n: nat)
    ensures n <= 7 ==> Pow2(n) <= 128
    ensures n <= 6 ==> Pow2(n) <= 64
  {
    if n <= 7 {
      Pow2Mono(n, 7);
      assert Pow2(7) == 128;
    }
    if n <= 6 {
      Pow2Mono(n, 6);
      assert Pow2(6) == 64;
    }
  }

  const I32_LIMIT: int := 0x8000_0000
  const U32_LIMIT: int := 0x1_0000_0000

  lemma Pow2Widths()
    ensures Pow2(31) == I32_LIMIT
    ensures Pow2(32) == U32_LIMIT
  {
    Pow2Add(15, 16);
    Pow2Add(16, 16);
    assert Pow2(8) == 256;
    Pow2Add(8, 8);
    assert Pow2(16) == 65536;
    assert Pow2(15) == 32768;
  }

  // Little-endian storage of the low n bytes of v (two's complement for negative v).
  function LeBytes(v: int, n: nat): (s: seq<byte>)
    ensures |s| == n
    decreases n
  {
    if n == 0 then [] else [v % 256] + LeBytes(v / 256, n - 1)
  }

  function LeValue(s: seq<byte>): (v: nat)
    decreases s
  {
    if s == [] then 0 else s[0] + 256 * LeValue(s[1..])
  }

  function Pow256(n: nat): (p: nat)
    ensures p >= 1
  {
    if n == 0 then 1 else 256 * Pow256(n - 1)
  }

  lemma {:induction false} LeValueBound(s: seq<byte>)
    ensures LeValue(s) < Pow256(|s|)
    decreases s
  {
    if s != [] {
      LeValueBound(s[1..]);
    }
  }

  // Reading back what was stored yields the value modulo 256^n.
  lemma {:induction false} LeRoundTrip(v: int, n: nat)
    ensures LeValue(LeBytes(v, n)) == v % Pow256(n)
    decreases n
  {
    if n != 0 {
      LeRoundTrip(v / 256, n - 1);
      assert LeBytes(v, n)[1..] == LeBytes(v / 256, n - 1);
      ModSplit(v, Pow256(n - 1));
    }
  }

  lemma ModSplit(v: int, p: nat)
    requires p >= 1
    ensures v % (256 * p) == v % 256 + 256 * ((v / 256) % p)
  {
    var q, r := (v / 256) / p, (v / 256) % p;
    assert v == 256 * (p * q + r) + v % 256;
    var m := v % 256 + 256 * r;
    assert 256 * (p * q + r) == (256 * p) * q + 256 * r by {
      assert 256 * (p * q) == (256 * p) * q;
    }
    assert v == (256 * p) * q + m;
    assert 0 <= m < 256 * p;
    ModUnique(v, 256 * p, q, m);
  }

  lemma MulApart(d: nat, k: int)
    ensures k >= 1 ==> d * k >= d
    ensures k <= -1 ==> d * k <= -(d as int)
  {
  }

  lemma ModUnique(v: int, d: nat, q: int, m: int)
    requires d >= 1 && 0 <= m < d && v == d * q + m
    ensures v % d == m && v / d == q
  {
    var q', m' := v / d, v % d;
    assert d * (q' - q) == m - m';
    MulApart(d, q' - q);
  }

  // Storing what was read gives the same bytes back.
  lemma {:induction false} LeBytesOfValue(s: seq<byte>)
    ensures LeBytes(LeValue(s), |s|) == s
    decreases s
  {
    if s != [] {
      LeBytesOfValue(s[1..]);
      assert LeValue(s) / 256 == LeValue(s[1..]);
      assert s == [s[0]] + s[1..];
    }
  }
}

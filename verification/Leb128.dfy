// LEB128 variable-length integers as the encoder writes them, and the decoders that section 5.2.2 of the
// WebAssembly Core Specification 1.0 gives for the uN and sN grammars.
module Leb128 {
  import opened Bytes

  // The bytes wb_u appends: seven bits per byte, least significant group first, high bit set on all but the last.
  function EncU(v: nat): (s: seq<byte>)
    ensures |s| >= 1
  {
    if v < 128 then [v] else [v % 128 + 128] + EncU(v / 128)
  }

  // The bytes wb_i appends; the division is the arithmetic right shift by seven.
  function EncS(v: int): (s: seq<byte>)
    ensures |s| >= 1
    decreases if v < 0 then -v else v
  {
    var b := v % 128;
    var r := v / 128;
    if (r == 0 && b < 64) || (r == -1 && b >= 64) then [b] else [b + 128] + EncS(r)
  }

  // uN: one byte below 128 that fits N bits, or a continued byte in front of a u(N-7).
  function DecU(s: seq<byte>, n: nat): (r: Option<(nat, seq<byte>)>)
    decreases n
  {
    if s == [] then None
    else if s[0] < 128 then (if s[0] < Pow2(n) then Some((s[0], s[1..])) else None)
    else if n <= 7 then None
    else match DecU(s[1..], n - 7)
      case None => None
      case Some(p) => Some((128 * p.0 + (s[0] - 128), p.1))
  }

  // sN: as uN, with the last byte's bit 6 as the sign.
  function DecS(s: seq<byte>, n: nat): (r: Option<(int, seq<byte>)>)
    decreases n
  {
    if s == [] || n == 0 then None
    else if s[0] < 64 then (if s[0] < Pow2(n - 1) then Some((s[0], s[1..])) else None)
    else if s[0] < 128 then (if s[0] >= 128 - Pow2(n - 1) then Some((s[0] as int - 128, s[1..])) else None)
    else if n <= 7 then None
    else match DecS(s[1..], n - 7)
      case None => None
      case Some(p) => Some((128 * p.0 + (s[0] - 128), p.1))
  }

  // Any value of at most n bits decodes back, and the decoder stops exactly at the end of the encoding.
  lemma {:induction false} UnsignedRoundTrip(v: nat, n: nat, rest: seq<byte>)
    requires v < Pow2(n)
    ensures DecU(EncU(v) + rest, n) == Some((v, rest))
    decreases v
  {
    if v < 128 {
      assert ([v] + rest)[1..] == rest;
    } else {
      Pow2Small(n);
      Pow2Seven(n);
      UnsignedRoundTrip(v / 128, n - 7, rest);
      assert (EncU(v) + rest)[1..] == EncU(v / 128) + rest;
    }
  }

  lemma {:induction false} SignedRoundTrip(v: int, n: nat, rest: seq<byte>)
    requires n >= 1 && -(Pow2(n - 1) as int) <= v < Pow2(n - 1)
    ensures DecS(EncS(v) + rest, n) == Some((v, rest))
    decreases if v < 0 then -v else v
  {
    var b, r := v % 128, v / 128;
    if (r == 0 && b < 64) || (r == -1 && b >= 64) {
      assert ([b] + rest)[1..] == rest;
    } else {
      Pow2Small(n - 1);
      Pow2Seven(n - 1);
      SignedRoundTrip(r, n - 7, rest);
      SignedStep(v);
      var s := EncS(v) + rest;
      assert s[0] == b + 128 && s[1..] == EncS(r) + rest;
      assert DecS(s, n) == Some((128 * r + b, rest));
    }
  }

  // The last group, or one group and the rest.
  lemma SignedStep(v: int)
    ensures var b, r := v % 128, v / 128;
            EncS(v) == if (r == 0 && b < 64) || (r == -1 && b >= 64) then [b] else [b + 128] + EncS(r)
  {
  }

  lemma UnsignedStep(v: nat)
    ensures EncU(v) == if v / 128 == 0 then [v % 128] else [v % 128 + 128] + EncU(v / 128)
  {
  }

  // No byte string that decodes to v is shorter than the one wb_u writes.
  lemma {:induction false} UnsignedShortest(v: nat, n: nat, s: seq<byte>, rest: seq<byte>)
    requires DecU(s, n) == Some((v, rest))
    ensures |EncU(v)| + |rest| <= |s|
    decreases n
  {
    if s[0] >= 128 {
      var m := DecU(s[1..], n - 7).value.0;
      UnsignedShortest(m, n - 7, s[1..], rest);
      assert v == 128 * m + (s[0] - 128);
      assert v / 128 == m;
    }
  }

  lemma {:induction false} SignedShortest(v: int, n: nat, s: seq<byte>, rest: seq<byte>)
    requires DecS(s, n) == Some((v, rest))
    ensures |EncS(v)| + |rest| <= |s|
    decreases n
  {
    if s[0] >= 128 {
      var m := DecS(s[1..], n - 7).value.0;
      SignedShortest(m, n - 7, s[1..], rest);
      assert v / 128 == m;
    }
  }

  // ceil(n / 7) bytes suffice: ten for 64 bits, five for 32.
  lemma {:induction false} UnsignedLength(v: nat, n: nat)
    requires n >= 1 && v < Pow2(n)
    ensures |EncU(v)| <= (n + 6) / 7
    decreases v
  {
    if v >= 128 {
      Pow2Small(n);
      Pow2Seven(n);
      UnsignedLength(v / 128, n - 7);
    }
  }

  lemma {:induction false} SignedLength(v: int, n: nat)
    requires n >= 1 && -(Pow2(n - 1) as int) <= v < Pow2(n - 1)
    ensures |EncS(v)| <= (n + 6) / 7
    decreases if v < 0 then -v else v
  {
    var b, r := v % 128, v / 128;
    if !((r == 0 && b < 64) || (r == -1 && b >= 64)) {
      Pow2Small(n - 1);
      Pow2Seven(n - 1);
      SignedLength(r, n - 7);
    }
  }
}

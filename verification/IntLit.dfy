// Integer literals: the language's decoder, the wasm backend's decoder, and why they agree on every lexeme the
// lexer can produce within 79 significant characters.
module IntLiterals {
  import opened Bytes
  import opened Values

  const U64: int := 0x1_0000_0000_0000_0000
  const I64_MAX: int := 0x7fff_ffff_ffff_ffff

  function DigitVal(c: char): (r: Option<nat>)
    ensures r.Some? ==> r.value < 16
  {
    if '0' <= c <= '9' then Some(c as int - '0' as int)
    else if 'a' <= c <= 'f' then Some(c as int - 'a' as int + 10)
    else if 'A' <= c <= 'F' then Some(c as int - 'A' as int + 10)
    else None
  }

  predicate IsDigit(c: char, base: nat) { DigitVal(c).Some? && DigitVal(c).value < base }

  predicate AllDigits(s: string, base: nat) { forall i :: 0 <= i < |s| ==> IsDigit(s[i], base) }

  predicate NoSeparator(s: string) { forall i :: 0 <= i < |s| ==> s[i] != '_' }

  // The text without its digit separators.
  function Strip(s: string): (r: string)
    ensures forall i :: 0 <= i < |r| ==> r[i] != '_' && r[i] in s
    ensures |r| <= |s|
  {
    if s == [] then [] else if s[0] == '_' then Strip(s[1..]) else [s[0]] + Strip(s[1..])
  }

  function Power(base: nat, n: nat): nat { if n == 0 then 1 else base * Power(base, n - 1) }

  // Positional value: each digit times the power of the base its place stands for.
  function Positional(s: string, base: nat): nat
    requires AllDigits(s, base)
  {
    if s == [] then 0 else DigitVal(s[0]).value * Power(base, |s| - 1) + Positional(s[1..], base)
  }

  // ---- the language's decoder ----

  // Base and digits of an unsigned literal.
  function SplitBase(s: string): (nat, string) {
    if |s| >= 2 && s[0] == '0' && (s[1] == 'x' || s[1] == 'X') then (16, s[2..])
    else if |s| >= 2 && s[0] == '0' && (s[1] == 'b' || s[1] == 'B') then (2, s[2..])
    else if |s| >= 2 && s[0] == '0' && (s[1] == 'o' || s[1] == 'O') then (8, s[2..])
    else (10, s)
  }

  // The accumulator is an unsigned 64-bit integer, and at least one digit must have been seen.
  function Accumulate(s: string, base: nat, v: nat, any: bool): Option<nat>
    decreases |s|
  {
    if s == [] then (if any then Some(v) else None)
    else if s[0] == '_' then Accumulate(s[1..], base, v, any)
    else if IsDigit(s[0], base) then Accumulate(s[1..], base, (v * base + DigitVal(s[0]).value) % U64, true)
    else None
  }

  function IntLit(lex: string): Option<int> {
    if lex == [] then None
    else
      var neg := lex[0] == '-';
      var rest := if lex[0] == '+' || lex[0] == '-' then lex[1..] else lex;
      var p := SplitBase(rest);
      match Accumulate(p.1, p.0, 0, false)
      case None => None
      case Some(v) => var w := ToSigned(v % U64, U64); Some(if neg then -w else w)
  }

  method ArcheIntLit(lex: string) returns (r: Option<int>)
    ensures r == IntLit(lex)
  {
    if |lex| == 0 {
      return None;
    }
    var rest := lex;
    var neg := false;
    if lex[0] == '+' || lex[0] == '-' {
      neg := lex[0] == '-';
      rest := lex[1..];
    }
    var split := SplitBase(rest);
    var v := ReadDigits(split.1, split.0);
    if v == None {
      return None;
    }
    var w := ToSigned(v.value % U64, U64);
    return Some(if neg then -w else w);
  }

  method ReadDigits(s: string, base: nat) returns (r: Option<nat>)
    ensures r == Accumulate(s, base, 0, false)
  {
    var v: nat := 0;
    var any := false;
    var i := 0;
    assert s[0..] == s;
    while i < |s|
      invariant i <= |s|
      invariant Accumulate(s, base, 0, false) == Accumulate(s[i..], base, v, any)
    {
      assert s[i..][0] == s[i] && s[i..][1..] == s[i + 1..];
      if s[i] != '_' {
        var d := DigitVal(s[i]);
        if d == None || d.value >= base {
          return None;
        }
        v := (v * base + d.value) % U64;
        any := true;
      }
      i := i + 1;
    }
    return if any then Some(v) else None;
  }

  // ---- the backend's decoder ----

  predicate IsSpace(c: char) { c == ' ' || '\t' <= c <= '\r' }

  function SkipSpaces(s: string): string {
    if s != [] && IsSpace(s[0]) then SkipSpaces(s[1..]) else s
  }

  // The longest run of digits, read from the left.
  function Horner(s: string, base: nat, acc: nat): nat
    decreases |s|
  {
    if s != [] && IsDigit(s[0], base) then Horner(s[1..], base, acc * base + DigitVal(s[0]).value) else acc
  }

  // C's strtol on a 64-bit long: spaces, a sign, an optional 0x in base 16, digits, saturation.
  function Strtol(s: string, base: nat): int {
    var t := SkipSpaces(s);
    var neg := t != [] && t[0] == '-';
    var u := if t != [] && (t[0] == '-' || t[0] == '+') then t[1..] else t;
    var d := if base == 16 && |u| >= 3 && u[0] == '0' && (u[1] == 'x' || u[1] == 'X') && IsDigit(u[2], 16)
             then u[2..] else u;
    var v := Horner(d, base, 0);
    if neg then (if v > I64_MAX + 1 then -I64_MAX - 1 else -(v as int)) else (if v > I64_MAX then I64_MAX else v)
  }

  function Truncate79(s: string): string { if |s| <= 79 then s else s[..79] }

  // The first 79 characters other than separators, a sign, a base prefix, strtol, and a cast to 32 bits.
  function WgParseInt(s: string): int {
    var buf := Truncate79(Strip(s));
    var neg := buf != [] && buf[0] == '-';
    var p := if buf != [] && (buf[0] == '-' || buf[0] == '+') then buf[1..] else buf;
    var split := SplitBase(p);
    var v := Strtol(split.1, split.0);
    Wrap32(if neg then -v else v)
  }

  method ParseInt(s: string) returns (r: int)
    ensures r == WgParseInt(s)
  {
    var buf := KeepDigits(s);
    var p := buf;
    var neg := false;
    if |p| > 0 && p[0] == '-' {
      neg := true;
      p := p[1..];
    } else if |p| > 0 && p[0] == '+' {
      p := p[1..];
    }
    var split := SplitBase(p);
    var v := Strtol(split.1, split.0);
    r := Wrap32(if neg then -v else v);
  }

  lemma StripStep(s: string, i: nat)
    requires i < |s|
    ensures Strip(s[i..]) == (if s[i] == '_' then [] else [s[i]]) + Strip(s[i + 1..])
  {
    assert s[i..][0] == s[i] && s[i..][1..] == s[i + 1..];
  }

  lemma StripEmpty()
    ensures Strip([]) == []
  {
  }

  method KeepDigits(s: string) returns (buf: string)
    ensures buf == Truncate79(Strip(s))
  {
    hide Strip;
    StripEmpty();
    buf := [];
    var i := 0;
    ghost var all := Strip(s);
    ghost var rest := all;
    assert s[0..] == s;
    while i < |s| && |buf| < 79
      invariant 0 <= i <= |s| && |buf| <= 79
      invariant rest == Strip(s[i..]) && buf + rest == all
    {
      StripStep(s, i);
      if s[i] != '_' {
        buf := buf + [s[i]];
      }
      i := i + 1;
      rest := Strip(s[i..]);
    }
    assert i == |s| ==> s[i..] == [];
    assert all[..|buf|] == buf;
  }

  // ---- what the lexer can hand over ----

  predicate DigitsOrSep(s: string, base: nat) { forall i :: 0 <= i < |s| ==> s[i] == '_' || IsDigit(s[i], base) }

  // An integer token: a prefixed literal, or a decimal run starting with a digit; with at least one digit.
  predicate IsIntLexeme(lex: string) {
    var p := SplitBase(lex);
    && lex != []
    && (p.0 == 10 ==> IsDigit(lex[0], 10))
    && DigitsOrSep(p.1, p.0)
    && Strip(p.1) != []
  }

  function LexemeValue(lex: string): nat
    requires IsIntLexeme(lex)
  {
    var p := SplitBase(lex);
    assert AllDigits(Strip(p.1), p.0);
    Positional(Strip(p.1), p.0)
  }

  lemma {:induction false} PowerPositive(base: nat, n: nat)
    requires base > 0
    ensures Power(base, n) > 0
  {
    if n != 0 {
      PowerPositive(base, n - 1);
    }
  }

  // Reading from the left equals the positional value.
  lemma {:induction false} HornerIsPositional(s: string, base: nat, acc: nat)
    requires AllDigits(s, base)
    ensures Horner(s, base, acc) == acc * Power(base, |s|) + Positional(s, base)
    decreases |s|
  {
    if s != [] {
      var d := DigitVal(s[0]).value;
      HornerIsPositional(s[1..], base, acc * base + d);
      var p := Power(base, |s| - 1);
      assert Power(base, |s|) == base * p;
      Distribute(acc, base, d, p);
    }
  }

  lemma Distribute(acc: nat, base: nat, d: nat, p: nat)
    ensures (acc * base + d) * p == acc * (base * p) + d * p
  {
    assert acc * (base * p) == (acc * base) * p;
  }

  lemma {:induction false} HornerGrows(s: string, base: nat, acc: nat)
    requires base > 0
    ensures Horner(s, base, acc) >= acc
    decreases |s|
  {
    if s != [] && IsDigit(s[0], base) {
      HornerGrows(s[1..], base, acc * base + DigitVal(s[0]).value);
      assert acc * base >= acc;
    }
  }

  // A digit's value is its place among the digits of the base sixteen, and no other character has one.
  lemma DigitIs(d: nat)
    requires d < 16
    ensures DigitVal("0123456789abcdef"[d]) == Some(d) && DigitVal("0123456789ABCDEF"[d]) == Some(d)
  {
  }

  lemma DigitsAre(c: char)
    ensures DigitVal(c).Some? <==> '0' <= c <= '9' || 'a' <= c <= 'f' || 'A' <= c <= 'F'
  {
  }

  // As long as the final value fits, no intermediate accumulator wraps around.
  lemma {:induction false} AccumulateIsHorner(s: string, base: nat, v: nat, any: bool)
    requires base > 0 && DigitsOrSep(s, base) && Horner(Strip(s), base, v) < U64
    requires any || Strip(s) != []
    ensures Accumulate(s, base, v, any) == Some(Horner(Strip(s), base, v))
    decreases |s|
  {
    if s != [] {
      if s[0] == '_' {
        AccumulateIsHorner(s[1..], base, v, any);
      } else {
        var next := v * base + DigitVal(s[0]).value;
        assert Strip(s) == [s[0]] + Strip(s[1..]);
        assert Strip(s)[1..] == Strip(s[1..]);
        HornerGrows(Strip(s[1..]), base, next);
        AccumulateIsHorner(s[1..], base, next, true);
      }
    }
  }

  lemma NoSeparators(s: string, base: nat)
    requires AllDigits(s, base)
    ensures NoSeparator(s)
  {
    forall i | 0 <= i < |s|
      ensures s[i] != '_'
    {
      assert IsDigit(s[i], base);
    }
  }

  // For every literal that fits 63 bits: 0x and 0X make its digits hexadecimal, 0b and 0B binary, 0o and 0O octal, and
  // without one of these they are decimal, with leading zeros or without.
  lemma PrefixExact(p: string, s: string)
    requires p == "" || (|p| == 2 && p[0] == '0' && p[1] in "xXbBoO")
    requires var base := BaseOf(p); s != [] && AllDigits(s, base) && Positional(s, base) <= I64_MAX
    ensures IntLit(p + s) == Some(Positional(s, BaseOf(p)))
  {
    var base, lex := BaseOf(p), p + s;
    hide Positional, Horner, Accumulate, Strip, DigitVal;
    NoSeparators(s, base);
    StripNothing(s);
    HornerIsPositional(s, base, 0);
    AccumulateIsHorner(s, base, 0, false);
    assert IsDigit(s[0], base);
    FirstIsDigit(s[0], base);
    if p == "" {
      assert lex == s;
      if |s| >= 2 {
        assert IsDigit(s[1], base);
        FirstIsDigit(s[1], base);
      }
      assert SplitBase(lex) == (10, s);
    } else {
      assert lex[2..] == s;
      assert SplitBase(lex) == (base, s);
    }
  }

  function BaseOf(p: string): nat {
    if p == "" then 10
    else if 'x' in p || 'X' in p then 16 else if 'b' in p || 'B' in p then 2 else 8
  }

  lemma FirstIsDigit(c: char, base: nat)
    requires IsDigit(c, base)
    ensures c != '-' && c != '+' && c != 'x' && c != 'X' && c != 'o' && c != 'O' && (base <= 10 ==> c != 'b' && c != 'B')
  {
  }

  lemma StripCons(a: string)
    requires a != []
    ensures Strip(a) == (if a[0] == '_' then "" else [a[0]]) + Strip(a[1..])
  {
    assert "" + Strip(a[1..]) == Strip(a[1..]);
  }

  lemma {:induction false} StripConcat(a: string, b: string)
    ensures Strip(a + b) == Strip(a) + Strip(b)
    decreases |a|
  {
    if a == [] {
      assert a + b == b;
    } else {
      hide Strip;
      StripConcat(a[1..], b);
      StripCons(a);
      StripCons(a + b);
      assert (a + b)[1..] == a[1..] + b && (a + b)[0] == a[0];
      var first, x, y := if a[0] == '_' then "" else [a[0]], Strip(a[1..]), Strip(b);
      assert first + (x + y) == (first + x) + y;
    }
  }

  lemma NoSpaceNoSign(s: string, base: nat)
    requires s != [] && AllDigits(s, base)
    ensures SkipSpaces(s) == s && s[0] != '-' && s[0] != '+'
    ensures base == 16 && |s| >= 3 ==> s[1] != 'x' && s[1] != 'X'
  {
    assert IsDigit(s[0], base);
    if |s| >= 2 {
      assert IsDigit(s[1], base);
    }
  }

  lemma StrtolOnDigits(s: string, base: nat)
    requires s != [] && AllDigits(s, base) && Positional(s, base) <= I64_MAX
    ensures Strtol(s, base) == Positional(s, base)
  {
    NoSpaceNoSign(s, base);
    HornerIsPositional(s, base, 0);
  }

  // Stripping separators commutes with splitting off the base prefix on lexer output.
  lemma StripSplit(lex: string)
    requires IsIntLexeme(lex)
    ensures SplitBase(Strip(lex)) == (SplitBase(lex).0, Strip(SplitBase(lex).1))
    ensures Strip(lex) != [] && Strip(lex)[0] != '-' && Strip(lex)[0] != '+'
    ensures |Strip(lex)| == |Strip(SplitBase(lex).1)| + if SplitBase(lex).0 == 10 then 0 else 2
  {
    if SplitBase(lex).0 != 10 {
      StripPrefixed(lex);
    } else {
      StripDecimal(lex);
    }
  }

  lemma StripPrefixed(lex: string)
    requires SplitBase(lex).0 != 10
    ensures Strip(lex) == [lex[0], lex[1]] + Strip(SplitBase(lex).1)
    ensures SplitBase(Strip(lex)) == (SplitBase(lex).0, Strip(SplitBase(lex).1))
  {
    var a, b, d := lex[0], lex[1], lex[2..];
    assert lex == [a, b] + d && a == '0' && b != '_';
    SamePrefix(a, b, d, Strip(d));
    hide SplitBase;
    assert lex == [a] + ([b] + d);
    StripOne(a, [b] + d);
    StripOne(b, d);
    hide Strip;
    assert [a] + ([b] + Strip(d)) == [a, b] + Strip(d);
  }

  // Base and prefix do not depend on what follows.
  lemma SamePrefix(a: char, b: char, d: string, t: string)
    requires SplitBase([a, b] + d).0 != 10
    ensures SplitBase([a, b] + d).1 == d && SplitBase([a, b] + t) == (SplitBase([a, b] + d).0, t)
  {
    assert ([a, b] + d)[2..] == d && ([a, b] + t)[2..] == t;
  }

  lemma StripOne(c: char, s: string)
    requires c != '_'
    ensures Strip([c] + s) == [c] + Strip(s)
  {
    assert ([c] + s)[1..] == s;
  }

  lemma StripDecimal(lex: string)
    requires SplitBase(lex).0 == 10 && lex != [] && IsDigit(lex[0], 10) && DigitsOrSep(lex, 10)
    ensures SplitBase(Strip(lex)) == (10, Strip(lex)) && Strip(lex) != [] && Strip(lex)[0] == lex[0]
  {
    var t := Strip(lex);
    assert t[0] == lex[0];
    if |t| >= 2 {
      assert t[1] in lex && t[1] != '_';
      assert IsDigit(t[1], 10);
    }
  }

  lemma NoSign(lex: string)
    requires IsIntLexeme(lex)
    ensures lex != [] && lex[0] != '-' && lex[0] != '+'
  {
    hide Strip;
  }

  lemma ReadsDigits(s: string, base: nat)
    requires base > 0 && DigitsOrSep(s, base) && Strip(s) != [] && AllDigits(Strip(s), base) && Positional(Strip(s), base) < I32_LIMIT
    ensures Accumulate(s, base, 0, false) == Some(Positional(Strip(s), base))
  {
    HornerIsPositional(Strip(s), base, 0);
    hide Strip, Positional, Horner, AllDigits, IsDigit, Accumulate, Power, DigitsOrSep;
    AccumulateIsHorner(s, base, 0, false);
  }

  lemma SmallWord(v: nat)
    requires v < I32_LIMIT
    ensures ToSigned(v % U64, U64) == v
  {
  }

  // Without a sign the accumulated value is the literal's.
  lemma UnsignedReads(lex: string, v: nat)
    requires lex != [] && lex[0] != '-' && lex[0] != '+' && v < I32_LIMIT
    requires Accumulate(SplitBase(lex).1, SplitBase(lex).0, 0, false) == Some(v)
    ensures IntLit(lex) == Some(v)
  {
    SmallWord(v);
    hide Accumulate, SplitBase, ToSigned;
  }

  lemma LanguageDecodesLexemes(lex: string)
    requires IsIntLexeme(lex) && LexemeValue(lex) < I32_LIMIT
    ensures IntLit(lex) == Some(LexemeValue(lex))
  {
    NoSign(lex);
    var p := SplitBase(lex);
    assert p.0 > 0;
    hide Strip, Positional, Horner, IsDigit, Accumulate, Power, DigitsOrSep, SplitBase, IntLit, ToSigned;
    ReadsDigits(p.1, p.0);
    hide AllDigits;
    UnsignedReads(lex, LexemeValue(lex));
  }

  lemma BackendDecodesLexemes(lex: string)
    requires IsIntLexeme(lex) && LexemeValue(lex) < I32_LIMIT
    requires |Strip(lex)| <= 79
    ensures WgParseInt(lex) == LexemeValue(lex)
  {
    var p := SplitBase(lex);
    StripSplit(lex);
    StrtolOnDigits(Strip(p.1), p.0);
    WrapIdentity(LexemeValue(lex));
  }

  // Both decoders return the positional value of every integer token below 2^31.
  lemma DecodersAgree(lex: string)
    requires IsIntLexeme(lex) && LexemeValue(lex) < I32_LIMIT && |Strip(lex)| <= 79
    ensures IntLit(lex) == Some(WgParseInt(lex)) && WgParseInt(lex) == LexemeValue(lex)
  {
    LanguageDecodesLexemes(lex);
    BackendDecodesLexemes(lex);
  }

  // Beyond 79 significant characters the backend drops digits: seventy-nine zeros and a one.
  lemma {:induction false} ZerosValue(n: nat, base: nat, acc: nat)
    ensures AllDigits(seq(n, i => '0'), 10)
    ensures Strip(seq(n, i => '0')) == seq(n, i => '0')
    decreases n
  {
    if n != 0 {
      var z := seq(n, i => '0');
      assert z[1..] == seq(n - 1, i => '0');
      ZerosValue(n - 1, base, acc);
      assert z == ['0'] + z[1..];
    }
  }

  lemma {:induction false} ZerosAreZero(n: nat, tail: string)
    ensures AllDigits(seq(n, i => '0'), 10)
    ensures Horner(seq(n, i => '0') + tail, 10, 0) == Horner(tail, 10, 0)
    decreases n
  {
    var z := seq(n, i => '0');
    if n == 0 {
      assert z + tail == tail;
    } else {
      assert (z + tail)[1..] == seq(n - 1, i => '0') + tail;
      ZerosAreZero(n - 1, tail);
    }
  }

  // Zeros and a one.
  lemma ZerosAndOne(n: nat)
    requires n >= 2
    ensures var lex := seq(n, i => '0') + "1";
            Strip(lex) == lex && SplitBase(lex) == (10, lex) && IsIntLexeme(lex) && LexemeValue(lex) == 1
  {
    var z := seq(n, i => '0');
    var lex := z + "1";
    ZerosValue(n, 10, 0);
    StripConcat(z, "1");
    assert Strip("1") == ['1'] + Strip("1"[1..]);
    assert Strip(lex) == lex;
    hide Strip;
    assert lex[1] == '0';
    assert SplitBase(lex) == (10, lex);
    assert AllDigits(lex, 10);
    HornerIsPositional(lex, 10, 0);
    ZerosAreZero(n, "1");
    assert Horner("1", 10, 0) == Horner("1"[1..], 10, 1);
  }

  // Zeros alone.
  lemma ZerosParse(n: nat)
    requires n >= 2
    ensures var z := seq(n, i => '0'); Strtol(z, 10) == 0 && SplitBase(z) == (10, z)
  {
    var z := seq(n, i => '0');
    ZerosValue(n, 10, 0);
    assert z[1] == '0';
    ZerosAreZero(n, "");
    assert z + "" == z;
    NoSpaceNoSign(z, 10);
  }

  lemma LongLexemesDiffer()
    ensures var lex := seq(79, i => '0') + "1";
            IsIntLexeme(lex) && LexemeValue(lex) == 1 && WgParseInt(lex) == 0
  {
    var z := seq(79, i => '0');
    ZerosAndOne(79);
    ZerosParse(79);
    hide Strip, Strtol, SplitBase, IsIntLexeme, LexemeValue;
    assert Truncate79(z + "1") == z;
  }

  lemma {:induction false} HornerConcat(a: string, b: string, base: nat, acc: nat)
    requires AllDigits(a, base)
    ensures Horner(a + b, base, acc) == Horner(b, base, Horner(a, base, acc))
    decreases |a|
  {
    if a == [] {
      assert a + b == b;
    } else {
      assert (a + b)[1..] == a[1..] + b;
      HornerConcat(a[1..], b, base, acc * base + DigitVal(a[0]).value);
    }
  }

  // Dropping k digits of a number leaves it the same only if it is zero.
  lemma DroppedDigits(p: nat, base: nat, k: nat, t: nat)
    requires base >= 2 && k >= 1
    ensures p * Power(base, k) + t == p <==> p * Power(base, k) + t == 0
    ensures p <= p * Power(base, k) + t
  {
    PowerPositive(base, k - 1);
    AtLeastDouble(base, Power(base, k - 1));
    assert Power(base, k) == base * Power(base, k - 1);
    hide Power;
    AtLeastDouble(Power(base, k), p);
  }

  lemma AtLeastDouble(a: nat, b: nat)
    requires a >= 2
    ensures b * a >= 2 * b && a * b >= 2 * b
  {
    assert b * a - 2 * b == b * (a - 2);
  }

  // Cutting the text behind a base prefix cuts the digits.
  lemma SplitCut(t: string, base: nat, digits: string)
    requires SplitBase(t) == (base, digits) && |t| > 79
    ensures var cut := if base == 10 then 79 else 77; cut < |digits| && SplitBase(t[..79]) == (base, digits[..cut])
  {
    var u := t[..79];
    assert u[0] == t[0] && u[1] == t[1];
    if base != 10 {
      assert u[2..] == digits[..77];
    }
  }

  // The leading digits of a number are worth the number only if it is zero.
  lemma CutValue(digits: string, base: nat, cut: nat)
    requires AllDigits(digits, base) && cut < |digits| && base >= 2
    ensures AllDigits(digits[..cut], base)
    ensures Positional(digits[..cut], base) <= Positional(digits, base)
    ensures Positional(digits[..cut], base) == Positional(digits, base) <==> Positional(digits, base) == 0
  {
    var head, tail := digits[..cut], digits[cut..];
    assert AllDigits(head, base) && AllDigits(tail, base) && head + tail == digits;
    HornerConcat(head, tail, base, 0);
    HornerIsPositional(digits, base, 0);
    HornerIsPositional(head, base, 0);
    HornerIsPositional(tail, base, Positional(head, base));
    DroppedDigits(Positional(head, base), base, |tail|, Positional(tail, base));
  }

  // What the backend reads of a token with more than 79 significant characters.
  lemma TruncatedReads(lex: string)
    requires IsIntLexeme(lex) && LexemeValue(lex) < I32_LIMIT && |Strip(lex)| > 79
    ensures WgParseInt(lex) == LexemeValue(lex) <==> LexemeValue(lex) == 0
  {
    var p := SplitBase(lex);
    var base, t, digits := p.0, Strip(lex), Strip(p.1);
    assert AllDigits(digits, base);
    assert LexemeValue(lex) == Positional(digits, base);
    StripSplit(lex);
    hide IsIntLexeme, LexemeValue, Strip;
    SplitCut(t, base, digits);
    var cut := if base == 10 then 79 else 77;
    CutValue(digits, base, cut);
    hide AllDigits, Positional, Strtol;
    StrtolOnDigits(digits[..cut], base);
    WrapIdentity(Positional(digits[..cut], base));
  }

  // The two decoders agree on an integer token below 2^31 if and only if it has at most 79 significant characters or
  // is zero; the language's decoder is always right.
  lemma DecodersAgreeExactly(lex: string)
    requires IsIntLexeme(lex) && LexemeValue(lex) < I32_LIMIT
    ensures IntLit(lex) == Some(LexemeValue(lex))
    ensures WgParseInt(lex) == LexemeValue(lex) <==> |Strip(lex)| <= 79 || LexemeValue(lex) == 0
  {
    LanguageDecodesLexemes(lex);
    if |Strip(lex)| <= 79 {
      BackendDecodesLexemes(lex);
    } else {
      TruncatedReads(lex);
    }
  }

  // ---- folded constants ----

  function DigitChar(d: nat): char
    requires d < 10
  {
    '0' + d as char
  }

  function Decimal(n: nat): (s: string)
    ensures s != [] && AllDigits(s, 10)
    ensures NoSeparator(s)
  {
    if n < 10 then [DigitChar(n)] else Decimal(n / 10) + [DigitChar(n % 10)]
  }

  // printf("%d")
  function PrintD(v: int): string { if v < 0 then "-" + Decimal(-v) else Decimal(v) }

  lemma {:induction false} HornerSnoc(s: string, c: char, base: nat, acc: nat)
    requires AllDigits(s, base) && IsDigit(c, base)
    ensures Horner(s + [c], base, acc) == Horner(s, base, acc) * base + DigitVal(c).value
    decreases |s|
  {
    if s == [] {
      assert s + [c] == [c] && [c][1..] == [];
    } else {
      assert (s + [c])[1..] == s[1..] + [c];
      HornerSnoc(s[1..], c, base, acc * base + DigitVal(s[0]).value);
    }
  }

  lemma {:induction false} DecimalHorner(n: nat)
    ensures Horner(Decimal(n), 10, 0) == n
  {
    if n < 10 {
      assert Decimal(n)[1..] == [];
    } else {
      DecimalHorner(n / 10);
      HornerSnoc(Decimal(n / 10), DigitChar(n % 10), 10, 0);
    }
  }

  lemma {:induction false} StripNothing(s: string)
    requires NoSeparator(s)
    ensures Strip(s) == s
  {
    if s != [] {
      StripNothing(s[1..]);
    }
  }

  lemma {:induction false} DecimalShort(n: nat, k: nat)
    requires k >= 1 && n < Power(10, k)
    ensures |Decimal(n)| <= k
    decreases k
  {
    if n >= 10 {
      assert k >= 2;
      DecimalShort(n / 10, k - 1);
    }
  }

  lemma DecimalIsBaseTen(n: nat)
    ensures SplitBase(Decimal(n)) == (10, Decimal(n))
  {
    var s := Decimal(n);
    if |s| >= 2 {
      assert s[1] in s;
      assert IsDigit(s[1], 10);
    }
  }

  lemma TenBillion()
    ensures Power(10, 10) == 10000000000
  {
    assert Power(10, 5) == 100000;
    assert Power(10, 10) == 10 * (10 * (10 * (10 * (10 * Power(10, 5)))));
  }

  lemma DecimalReads(n: nat)
    requires n <= I32_LIMIT
    ensures Accumulate(Decimal(n), 10, 0, false) == Some(n)
    ensures Strtol(Decimal(n), 10) == n
    ensures SplitBase(Decimal(n)) == (10, Decimal(n))
    ensures |Decimal(n)| <= 10 && Strip(Decimal(n)) == Decimal(n)
    ensures Decimal(n)[0] != '-' && Decimal(n)[0] != '+'
  {
    var s := Decimal(n);
    DecimalHorner(n);
    StripNothing(s);
    DecimalIsBaseTen(n);
    AccumulateIsHorner(s, 10, 0, false);
    HornerIsPositional(s, 10, 0);
    StrtolOnDigits(s, 10);
    TenBillion();
    DecimalShort(n, 10);
    NoSpaceNoSign(s, 10);
  }

  lemma SignedLiteral(n: nat, s: string)
    requires n <= I32_LIMIT && SplitBase(s) == (10, s) && Accumulate(s, 10, 0, false) == Some(n)
    requires s != [] && s[0] != '-' && s[0] != '+'
    ensures IntLit(s) == Some(n) && IntLit("-" + s) == Some(-(n as int))
  {
    assert ("-" + s)[1..] == s;
  }

  lemma MinusStrips(s: string)
    requires Strip(s) == s
    ensures Strip("-" + s) == "-" + s
  {
    assert ("-" + s)[1..] == s;
  }

  lemma PositiveBackend(n: nat, s: string)
    requires SplitBase(s) == (10, s) && Strtol(s, 10) == n
    requires s != [] && s[0] != '-' && s[0] != '+' && |s| <= 10 && Strip(s) == s
    ensures WgParseInt(s) == Wrap32(n)
  {
    hide Strtol, SplitBase, Strip, Wrap32;
    assert Truncate79(Strip(s)) == s;
  }

  lemma NegativeBackend(n: nat, s: string)
    requires SplitBase(s) == (10, s) && Strtol(s, 10) == n
    requires s != [] && |s| <= 10 && Strip(s) == s
    ensures WgParseInt("-" + s) == Wrap32(-(n as int))
  {
    hide Strtol, SplitBase, Strip, Wrap32;
    MinusStrips(s);
    assert Truncate79(Strip("-" + s)) == "-" + s;
    assert ("-" + s)[1..] == s;
  }

  // Every folded 32-bit constant, negative ones and the minimum included, survives printing and re-reading.
  lemma FoldedConstantsRoundTrip(v: int)
    requires InI32(v)
    ensures IntLit(PrintD(v)) == Some(v)
    ensures WgParseInt(PrintD(v)) == v
  {
    var n: nat := if v < 0 then -v else v;
    DecimalReads(n);
    WrapIdentity(v);
    SignedLiteral(n, Decimal(n));
    if v < 0 {
      NegativeBackend(n, Decimal(n));
    } else {
      PositiveBackend(n, Decimal(n));
    }
  }
}

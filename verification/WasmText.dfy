// Text literals: the lowerer resolves a token's escapes, and the wasm backend resolves escapes again when it interns the
// result.
module WasmText {
  import opened Bytes
  import opened Values
  import opened HirSem

  // ---- the lowerer ----

  // n, t and r after a backslash; any other byte stands for itself.
  function DecodeByte(e: byte): byte { if e == 0x6e then 10 else if e == 0x74 then 9 else if e == 0x72 then 13 else e }

  // The text of a token, given what stands between its quotes.
  function Decoded(raw: seq<byte>): seq<byte> {
    if raw == [] then []
    else if raw[0] == 0x5c && |raw| > 1 then [DecodeByte(raw[1])] + Decoded(raw[2..])
    else [raw[0]] + Decoded(raw[1..])
  }

  method DecodeText(raw: seq<byte>) returns (value: seq<byte>)
    ensures value == Decoded(raw) && Spells(raw, value, false)
  {
    hide DecodeByte, Spells;
    value := [];
    var i := 0;
    assert raw[0..] == raw && [] + Decoded(raw) == Decoded(raw);
    while i < |raw|
      invariant i <= |raw| && Decoded(raw) == value + Decoded(raw[i..])
    {
      ghost var was, rest := value, raw[i..];
      var c := raw[i];
      assert rest[0] == c && rest[1..] == raw[i + 1..];
      assert |rest| == |raw| - i;
      i := i + 1;
      if c == 0x5c && i < |raw| {
        assert rest[2..] == raw[i + 1..];
        c := DecodeByte(raw[i]);
        i := i + 1;
      }
      value := value + [c];
      assert Decoded(rest) == [c] + Decoded(raw[i..]);
      assert was + ([c] + Decoded(raw[i..])) == (was + [c]) + Decoded(raw[i..]);
    }
    assert raw[i..] == [] && value + [] == value;
    DecodedExact(raw, value);
  }

  // ---- the backend ----

  // n, t, r and 0 after a backslash; any other byte stands for itself.
  function EscapeByte(e: byte): byte {
    if e == 0x6e then 10 else if e == 0x74 then 9 else if e == 0x72 then 13 else if e == 0x30 then 0 else e
  }

  // Escapes are resolved as the text enters the pool.
  function Unescape(raw: seq<byte>): seq<byte> {
    if raw == [] then []
    else if raw[0] == 0x5c && |raw| > 1 then [EscapeByte(raw[1])] + Unescape(raw[2..])
    else [raw[0]] + Unescape(raw[1..])
  }

  // ---- what the two compute, byte by byte ----

  // t is raw with each backslash and the byte behind it replaced: n, t and r by newline, tab and carriage return, 0 by a
  // zero byte if `zero`, any other byte by itself. A last backslash stays.
  predicate Spells(raw: seq<byte>, t: seq<byte>, zero: bool)
    decreases |raw|
  {
    if raw == [] then t == []
    else if raw == [0x5c] then t == [0x5c]
    else if raw[0] == 0x5c then
      && t != []
      && (raw[1] == 'n' as int ==> t[0] == '\n' as int)
      && (raw[1] == 't' as int ==> t[0] == '\t' as int)
      && (raw[1] == 'r' as int ==> t[0] == '\r' as int)
      && (raw[1] == '0' as int && zero ==> t[0] == '\0' as int)
      && (raw[1] != 'n' as int && raw[1] != 't' as int && raw[1] != 'r' as int && !(raw[1] == '0' as int && zero) ==> t[0] == raw[1])
      && Spells(raw[2..], t[1..], zero)
    else t != [] && t[0] == raw[0] && Spells(raw[1..], t[1..], zero)
  }

  // For every text: the backend's bytes are the spelled ones, with \0 for a zero byte.
  lemma {:induction false} UnescapeExact(raw: seq<byte>, t: seq<byte>)
    ensures Spells(raw, t, true) <==> t == Unescape(raw)
    decreases |raw|
  {
    if raw != [] && t != [] {
      var n := if raw[0] == 0x5c && |raw| > 1 then 2 else 1;
      UnescapeExact(raw[n..], t[1..]);
      assert t == [t[0]] + t[1..];
      assert raw == [0x5c] ==> raw[1..] == [];
    }
  }

  // And the lowerer's, where \0 is the digit.
  lemma {:induction false} DecodedExact(raw: seq<byte>, t: seq<byte>)
    ensures Spells(raw, t, false) <==> t == Decoded(raw)
    decreases |raw|
  {
    if raw != [] && t != [] {
      var n := if raw[0] == 0x5c && |raw| > 1 then 2 else 1;
      DecodedExact(raw[n..], t[1..]);
      assert t == [t[0]] + t[1..];
      assert raw == [0x5c] ==> raw[1..] == [];
    }
  }

  // The lowerer resolves an escape to what the same escape means in a char token; the backend does if and only if it is
  // not \0.
  lemma EscapesLikeChars(e: byte, c: char)
    requires e == c as int && e < 128
    ensures CharLit(['\'', '\\', c, '\'']) == Some(Decoded([0x5c, e])[0])
    ensures CharLit(['\'', '\\', c, '\'']) == Some(Unescape([0x5c, e])[0]) <==> c != '0'
  {
    var raw := [0x5c, e];
    assert raw[2..] == [];
  }

  // ---- resolving twice ----

  // No backslash has a byte behind it.
  predicate NoEscape(t: seq<byte>) { forall i :: 0 <= i && i + 1 < |t| ==> t[i] != 0x5c }

  lemma {:induction false} NoLonger(t: seq<byte>)
    ensures |Unescape(t)| <= |t|
    decreases |t|
  {
    if t != [] {
      var n := if t[0] == 0x5c && |t| > 1 then 2 else 1;
      NoLonger(t[n..]);
    }
  }

  // For every text: the pool holds it if and only if there is nothing left in it to be resolved.
  lemma {:induction false} TextKept(t: seq<byte>)
    ensures Unescape(t) == t <==> NoEscape(t)
    decreases |t|
  {
    if t != [] {
      if t[0] == 0x5c && |t| > 1 {
        NoLonger(t[2..]);
        assert |Unescape(t)| < |t|;
        assert !NoEscape(t);
      } else {
        TextKept(t[1..]);
        assert t == [t[0]] + t[1..];
        assert NoEscape(t) <==> NoEscape(t[1..]) by {
          assert forall i :: 0 <= i < |t[1..]| ==> t[1..][i] == t[i + 1];
          assert forall i :: 1 <= i < |t| ==> t[i] == t[1..][i - 1];
        }
      }
    }
  }

  // A backslash written \\ before an n is a backslash and an n in the language, and a newline in the pool.
  lemma TwiceDiffers()
    ensures Decoded([0x5c, 0x5c, 0x6e]) == [0x5c, 0x6e] && Unescape(Decoded([0x5c, 0x5c, 0x6e])) == [10]
  {
    var a, b := [0x5c, 0x5c, 0x6e], [0x5c, 0x6e];
    assert a[2..] == [0x6e] && [0x6e][1..] == [] && b[2..] == [];
    assert Decoded([0x6e]) == [0x6e] + Decoded([]);
    assert Decoded(a) == [0x5c] + Decoded([0x6e]);
  }
}

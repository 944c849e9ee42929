// Run-time values, 32-bit integer arithmetic and host events, shared by the source language and the machine.
module Values {
  import opened Bytes

  datatype Val = VI(i: int) | VF(f: F64Bits)

  const ZERO_BITS: F64Bits := [0, 0, 0, 0, 0, 0, 0, 0]

  // What the host sees of one call to print or printf.
  datatype Arg = AInt(n: int) | AFloat(bits: F64Bits) | AStr(bytes: seq<byte>)
  datatype ArgKind = KInt | KFloat | KStr
  datatype Event = PrintEv(text: seq<byte>) | PrintfEv(fmt: seq<byte>, args: seq<Arg>)

  // Floating-point arithmetic stays uninterpreted: every result below holds for all choices of these functions.
  // `kinds` is how the host reads a format string: the kind of each argument it takes, in order.
  datatype Host = Host(
    parse: string -> F64Bits,
    add: (F64Bits, F64Bits) -> F64Bits,
    sub: (F64Bits, F64Bits) -> F64Bits,
    mul: (F64Bits, F64Bits) -> F64Bits,
    div: (F64Bits, F64Bits) -> F64Bits,
    eq: (F64Bits, F64Bits) -> bool,
    lt: (F64Bits, F64Bits) -> bool,
    le: (F64Bits, F64Bits) -> bool,
    ofInt: int -> F64Bits,
    kinds: seq<byte> -> seq<ArgKind>)

  // ---- 32-bit integers, kept in their signed range ----

  predicate InI32(v: int) { -I32_LIMIT <= v < I32_LIMIT }

  // Two's complement reading of the residue u modulo p.
  function ToSigned(u: int, p: int): int { if 2 * u >= p then u - p else u }

  function Wrap32(v: int): (r: int)
    ensures InI32(r)
  {
    ToSigned(v % U32_LIMIT, U32_LIMIT)
  }

  function Unsigned32(v: int): (r: nat)
    ensures r < U32_LIMIT
  {
    v % U32_LIMIT
  }

  lemma WrapIdentity(v: int)
    requires InI32(v)
    ensures Wrap32(v) == v
    ensures v >= 0 ==> Unsigned32(v) == v
  {
  }

  function Abs(x: int): nat { if x < 0 then -x else x }

  // Division truncates toward zero, the remainder takes the dividend's sign.
  function TruncDiv(a: int, b: int): int
    requires b != 0
  {
    if (a < 0) == (b < 0) then Abs(a) / Abs(b) else -(Abs(a) / Abs(b))
  }

  function TruncRem(a: int, b: int): int
    requires b != 0
  {
    if a < 0 then -(Abs(a) % Abs(b)) else Abs(a) % Abs(b)
  }

  // A quotient by two or more is at most half.
  lemma Halves(a: nat, b: nat)
    requires b >= 2
    ensures 2 * (a / b) <= a
  {
    assert a == (a / b) * b + a % b;
    assert (a / b) * (b - 2) >= 0;
  }

  // Of two 32-bit integers.
  lemma QuotientInRange(a: int, b: int)
    requires InI32(a) && b != 0
    ensures InI32(TruncDiv(a, b)) <==> !(a == -I32_LIMIT && b == -1)
  {
    if Abs(b) >= 2 {
      Halves(Abs(a), Abs(b));
    } else {
      assert Abs(b) == 1;
    }
  }

  lemma RemInRange(a: int, b: int)
    requires b != 0 && InI32(a)
    ensures InI32(TruncRem(a, b))
  {
    RemainderSmall(Abs(a), Abs(b));
  }

  lemma RemainderSmall(x: nat, y: nat)
    requires y != 0
    ensures 0 <= x % y <= x
  {
    if x < y {
      assert x % y == x;
    }
  }

  function Bit(b: bool): int { if b then 1 else 0 }

  // Bitwise operations on the low n bits.
  function BitAnd(a: nat, b: nat, n: nat): (r: nat)
    ensures r <= a && r <= b
  {
    if n == 0 then 0 else (if a % 2 == 1 && b % 2 == 1 then 1 else 0) + 2 * BitAnd(a / 2, b / 2, n - 1)
  }

  function BitOr(a: nat, b: nat, n: nat): nat {
    if n == 0 then 0 else (if a % 2 == 1 || b % 2 == 1 then 1 else 0) + 2 * BitOr(a / 2, b / 2, n - 1)
  }

  lemma {:induction false} BitOrZero(n: nat)
    ensures BitOr(0, 0, n) == 0
  {
    if n != 0 {
      BitOrZero(n - 1);
    }
  }

  // On 0/1 operands the bitwise operations are the logical ones.
  lemma BitsAreLogical(a: int, b: int)
    requires (a == 0 || a == 1) && (b == 0 || b == 1)
    ensures Wrap32(BitAnd(Unsigned32(a), Unsigned32(b), 32)) == Bit(a != 0 && b != 0)
    ensures Wrap32(BitOr(Unsigned32(a), Unsigned32(b), 32)) == Bit(a != 0 || b != 0)
  {
    BitOrZero(31);
    assert BitAnd(a / 2, b / 2, 31) == 0;
  }
}

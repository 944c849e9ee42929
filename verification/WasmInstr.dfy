// The part of the WebAssembly instruction set the backend emits: its abstract syntax, its binary form
// (section 5.4 of the WebAssembly Core Specification 1.0) and a parser for that form.
module WasmInstr {
  import opened Bytes
  import opened Leb128

  datatype ValType = I32 | F64

  datatype Instr =
    | Const(v: int)
    | FConst(bits: F64Bits)
    | LocalGet(i: nat)
    | LocalSet(i: nat)
    | Num(op: byte)
    | Load(lop: byte, lalign: nat, loffset: nat)
    | Store(sop: byte, salign: nat, soffset: nat)
    | Block(body: seq<Instr>)
    | Loop(body: seq<Instr>)
    | If(thn: seq<Instr>, hasElse: bool, els: seq<Instr>)
    | Br(depth: nat)
    | BrIf(depth: nat)
    | Call(f: nat)

  // i32 test and comparisons, f64 comparisons, i32 and f64 arithmetic, f64.convert_i32_s.
  predicate IsNum(b: byte) {
    || 0x45 <= b <= 0x48 || b == 0x4a || b == 0x4c || b == 0x4e
    || 0x61 <= b <= 0x66
    || 0x6a <= b <= 0x6d || b == 0x6f || b == 0x71 || b == 0x72
    || 0xa0 <= b <= 0xa3 || b == 0xb7
  }

  predicate IsLoad(b: byte) { b == 0x28 || 0x2b <= b <= 0x2f }

  predicate IsStore(b: byte) { b == 0x36 || 0x39 <= b <= 0x3b }

  // ---- encoding ----

  function EncInstr(i: Instr): (s: seq<byte>)
    decreases i
  {
    match i
    case Const(v) => [0x41] + EncS(v)
    case FConst(b) => [0x44] + b
    case LocalGet(k) => [0x20] + EncU(k)
    case LocalSet(k) => [0x21] + EncU(k)
    case Num(op) => [op]
    case Load(op, a, o) => [op] + EncU(a) + EncU(o)
    case Store(op, a, o) => [op] + EncU(a) + EncU(o)
    case Block(b) => [0x02, 0x40] + EncSeq(b) + [0x0b]
    case Loop(b) => [0x03, 0x40] + EncSeq(b) + [0x0b]
    case If(t, hasElse, e) => [0x04, 0x40] + EncSeq(t) + (if hasElse then [0x05] + EncSeq(e) else []) + [0x0b]
    case Br(l) => [0x0c] + EncU(l)
    case BrIf(l) => [0x0d] + EncU(l)
    case Call(f) => [0x10] + EncU(f)
  }

  function EncSeq(code: seq<Instr>): (s: seq<byte>)
    decreases code
  {
    if code == [] then [] else EncInstr(code[0]) + EncSeq(code[1..])
  }

  lemma {:induction false} EncSeqAppend(a: seq<Instr>, b: seq<Instr>)
    ensures EncSeq(a + b) == EncSeq(a) + EncSeq(b)
    decreases |a|
  {
    if a == [] {
      assert a + b == b;
    } else {
      EncSeqAppend(a[1..], b);
      assert (a + b)[1..] == a[1..] + b;
    }
  }

  lemma EncSeqOne(i: Instr)
    ensures EncSeq([i]) == EncInstr(i)
  {
    assert [i][1..] == [];
    assert EncSeq([i]) == EncInstr(i) + EncSeq([]);
  }

  // ---- parsing ----

  // An opcode with one u32 immediate.
  function DecIndexed(s: seq<byte>): (r: Option<(nat, seq<byte>)>)
    ensures r.Some? ==> |r.value.1| < |s|
  {
    DecUShrinks(s, 32);
    DecU(s, 32)
  }

  lemma {:induction false} DecUShrinks(s: seq<byte>, n: nat)
    ensures DecU(s, n).Some? ==> |DecU(s, n).value.1| < |s|
    decreases n
  {
    if s != [] && s[0] >= 128 && n > 7 {
      DecUShrinks(s[1..], n - 7);
    }
  }

  lemma {:induction false} DecSShrinks(s: seq<byte>, n: nat)
    ensures DecS(s, n).Some? ==> |DecS(s, n).value.1| < |s|
    decreases n
  {
    if s != [] && s[0] >= 128 && n > 7 {
      DecSShrinks(s[1..], n - 7);
    }
  }

  function DecInstr(s: seq<byte>): (r: Option<(Instr, seq<byte>)>)
    ensures r.Some? ==> |r.value.1| < |s|
    decreases |s|, 1
  {
    if s == [] then None
    else if IsNum(s[0]) then Some((Num(s[0]), s[1..]))
    else if IsLoad(s[0]) || IsStore(s[0]) then DecMem(s[0], s[1..])
    else if 0x02 <= s[0] <= 0x04 then DecBlock(s[0], s[1..])
    else DecImm(s[0], s[1..])
  }

  // Opcodes with one immediate.
  function DecImm(op: byte, t: seq<byte>): (r: Option<(Instr, seq<byte>)>)
    ensures r.Some? ==> |r.value.1| < |t|
  {
    if op == 0x41 then
      DecSShrinks(t, 32);
      (match DecS(t, 32) case None => None case Some(p) => Some((Const(p.0), p.1)))
    else if op == 0x44 then
      (if |t| >= 8 then Some((FConst(t[..8]), t[8..])) else None)
    else match DecIndexed(t)
      case None => None
      case Some(p) =>
        if op == 0x20 then Some((LocalGet(p.0), p.1))
        else if op == 0x21 then Some((LocalSet(p.0), p.1))
        else if op == 0x0c then Some((Br(p.0), p.1))
        else if op == 0x0d then Some((BrIf(p.0), p.1))
        else if op == 0x10 then Some((Call(p.0), p.1))
        else None
  }

  function DecMem(op: byte, t: seq<byte>): (r: Option<(Instr, seq<byte>)>)
    ensures r.Some? ==> |r.value.1| < |t|
  {
    match DecIndexed(t)
    case None => None
    case Some(a) =>
      match DecIndexed(a.1)
      case None => None
      case Some(o) => Some((if IsLoad(op) then Load(op, a.0, o.0) else Store(op, a.0, o.0), o.1))
  }

  // Structured instructions of the empty block type (0x40).
  function DecBlock(op: byte, t: seq<byte>): (r: Option<(Instr, seq<byte>)>)
    ensures r.Some? ==> |r.value.1| < |t|
    decreases |t|, 1
  {
    if t == [] || t[0] != 0x40 then None
    else match DecSeq(t[1..])
      case None => None
      case Some(p) =>
        if p.1 == 0x0b then
          Some((if op == 0x02 then Block(p.0) else if op == 0x03 then Loop(p.0) else If(p.0, false, []), p.2))
        else if op != 0x04 then None
        else match DecSeq(p.2)
          case None => None
          case Some(e) => if e.1 == 0x0b then Some((If(p.0, true, e.0), e.2)) else None
  }

  // Instructions up to a terminator, `end` (0x0b) or `else` (0x05): the instructions, the terminator, the rest.
  function DecSeq(s: seq<byte>): (r: Option<(seq<Instr>, byte, seq<byte>)>)
    ensures r.Some? ==> |r.value.2| < |s|
    decreases |s|, 2
  {
    if s == [] then None
    else if s[0] == 0x0b || s[0] == 0x05 then Some(([], s[0], s[1..]))
    else match DecInstr(s)
      case None => None
      case Some(p) =>
        match DecSeq(p.1)
        case None => None
        case Some(q) => Some(([p.0] + q.0, q.1, q.2))
  }

  // Immediates fit their binary field.
  predicate WF(i: Instr)
    decreases i
  {
    match i
    case Const(v) => -I32_LIMIT <= v < I32_LIMIT
    case FConst(_) => true
    case LocalGet(k) => k < U32_LIMIT
    case LocalSet(k) => k < U32_LIMIT
    case Num(op) => IsNum(op)
    case Load(op, a, o) => IsLoad(op) && a < U32_LIMIT && o < U32_LIMIT
    case Store(op, a, o) => IsStore(op) && a < U32_LIMIT && o < U32_LIMIT
    case Block(b) => WFSeq(b)
    case Loop(b) => WFSeq(b)
    case If(t, hasElse, e) => WFSeq(t) && WFSeq(e) && (!hasElse ==> e == [])
    case Br(l) => l < U32_LIMIT
    case BrIf(l) => l < U32_LIMIT
    case Call(f) => f < U32_LIMIT
  }

  predicate WFSeq(code: seq<Instr>)
    decreases code
  {
    code == [] || (WF(code[0]) && WFSeq(code[1..]))
  }

  lemma {:induction false} WFSeqAppend(a: seq<Instr>, b: seq<Instr>)
    ensures WFSeq(a + b) <==> WFSeq(a) && WFSeq(b)
    decreases |a|
  {
    if a == [] {
      assert a + b == b;
    } else {
      WFSeqAppend(a[1..], b);
      assert (a + b)[1..] == a[1..] + b;
    }
  }

  lemma IndexedRoundTrip(v: nat, rest: seq<byte>)
    requires v < U32_LIMIT
    ensures DecIndexed(EncU(v) + rest) == Some((v, rest))
  {
    Pow2Widths();
    UnsignedRoundTrip(v, 32, rest);
  }

  // The opcode of a block's first instruction is never a block delimiter.
  lemma InstrHead(i: Instr)
    requires WF(i)
    ensures EncInstr(i) != [] && EncInstr(i)[0] != 0x0b && EncInstr(i)[0] != 0x05
  {
  }

  lemma {:induction false} InstrRoundTrip(i: Instr, rest: seq<byte>)
    requires WF(i)
    ensures DecInstr(EncInstr(i) + rest) == Some((i, rest))
    decreases i, 2
  {
    hide WFSeq, EncSeq, DecSeq;
    var s := EncInstr(i) + rest;
    match i
    case Num(op) => assert s[1..] == rest;
    case Load(op, a, o) =>
      assert s[1..] == EncU(a) + (EncU(o) + rest);
      IndexedRoundTrip(a, EncU(o) + rest);
      IndexedRoundTrip(o, rest);
    case Store(op, a, o) =>
      assert s[1..] == EncU(a) + (EncU(o) + rest);
      IndexedRoundTrip(a, EncU(o) + rest);
      IndexedRoundTrip(o, rest);
    case Block(b) => BlockRoundTrip(i, rest);
    case Loop(b) => BlockRoundTrip(i, rest);
    case If(t, h, e) => BlockRoundTrip(i, rest);
    case _ => ImmRoundTrip(i, rest);
  }

  lemma ImmRoundTrip(i: Instr, rest: seq<byte>)
    requires WF(i)
    requires i.Const? || i.FConst? || i.LocalGet? || i.LocalSet? || i.Br? || i.BrIf? || i.Call?
    ensures DecInstr(EncInstr(i) + rest) == Some((i, rest))
  {
    match i
    case Const(v) =>
      Pow2Widths();
      SignedRoundTrip(v, 32, rest);
      HeadSplit(0x41, EncS(v), rest);
    case FConst(b) =>
      HeadSplit(0x44, b, rest);
      assert (b + rest)[..8] == b && (b + rest)[8..] == rest;
    case LocalGet(k) => IndexedRoundTrip(k, rest); HeadSplit(0x20, EncU(k), rest);
    case LocalSet(k) => IndexedRoundTrip(k, rest); HeadSplit(0x21, EncU(k), rest);
    case Br(k) => IndexedRoundTrip(k, rest); HeadSplit(0x0c, EncU(k), rest);
    case BrIf(k) => IndexedRoundTrip(k, rest); HeadSplit(0x0d, EncU(k), rest);
    case Call(k) => IndexedRoundTrip(k, rest); HeadSplit(0x10, EncU(k), rest);
  }

  lemma HeadSplit(op: byte, imm: seq<byte>, rest: seq<byte>)
    requires op == 0x41 || op == 0x44 || op == 0x20 || op == 0x21 || op == 0x0c || op == 0x0d || op == 0x10
    ensures DecInstr([op] + imm + rest) == DecImm(op, imm + rest)
  {
    var s := [op] + imm + rest;
    assert s[1..] == imm + rest;
    assert s[0] == op;
  }

  lemma BlockSplit(op: byte, t: seq<byte>)
    requires 0x02 <= op <= 0x04
    ensures DecInstr([op, 0x40] + t) == DecBlock(op, [0x40] + t)
  {
    var s := [op, 0x40] + t;
    assert s[1..] == [0x40] + t;
    assert s[0] == op;
  }

  lemma {:induction false} BlockRoundTrip(i: Instr, rest: seq<byte>)
    requires WF(i) && (i.Block? || i.Loop? || i.If?)
    ensures DecInstr(EncInstr(i) + rest) == Some((i, rest))
    decreases i, 1
  {
    hide DecInstr, EncSeq;
    match i
    case Block(b) => PlainBlock(0x02, b, rest);
    case Loop(b) => PlainBlock(0x03, b, rest);
    case If(t, hasElse, e) =>
      if hasElse {
        ElseBlock(t, e, rest);
        assert EncInstr(i) + rest == [0x04, 0x40] + (EncSeq(t) + [0x05] + (EncSeq(e) + [0x0b] + rest));
      } else {
        PlainBlock(0x04, t, rest);
        assert EncInstr(i) == [0x04, 0x40] + EncSeq(t) + [0x0b];
      }
  }

  lemma {:induction false} PlainBlock(op: byte, b: seq<Instr>, rest: seq<byte>)
    requires WFSeq(b) && 0x02 <= op <= 0x04
    ensures DecInstr([op, 0x40] + EncSeq(b) + [0x0b] + rest) ==
            Some((if op == 0x02 then Block(b) else if op == 0x03 then Loop(b) else If(b, false, []), rest))
    decreases b, 1
  {
    var t := EncSeq(b) + [0x0b] + rest;
    SeqRoundTrip(b, 0x0b, rest);
    BlockSplit(op, t);
    assert ([0x40] + t)[1..] == t;
    assert [op, 0x40] + EncSeq(b) + [0x0b] + rest == [op, 0x40] + t;
  }

  lemma {:induction false} ElseBlock(t: seq<Instr>, e: seq<Instr>, rest: seq<byte>)
    requires WFSeq(t) && WFSeq(e)
    ensures DecInstr([0x04, 0x40] + (EncSeq(t) + [0x05] + (EncSeq(e) + [0x0b] + rest))) == Some((If(t, true, e), rest))
    decreases If(t, true, e), 0
  {
    var tail := EncSeq(e) + [0x0b] + rest;
    var all := EncSeq(t) + [0x05] + tail;
    SeqRoundTrip(t, 0x05, tail);
    SeqRoundTrip(e, 0x0b, rest);
    BlockSplit(0x04, all);
    assert ([0x40] + all)[1..] == all;
  }

  // What is written between the delimiters of a body is exactly what a reader gets back, nested blocks included.
  lemma {:induction false} SeqRoundTrip(code: seq<Instr>, terminator: byte, rest: seq<byte>)
    requires WFSeq(code) && (terminator == 0x0b || terminator == 0x05)
    ensures DecSeq(EncSeq(code) + [terminator] + rest) == Some((code, terminator, rest))
    decreases code, 0
  {
    var s := EncSeq(code) + [terminator] + rest;
    if code == [] {
      assert s[1..] == rest;
    } else {
      var tail := EncSeq(code[1..]) + [terminator] + rest;
      assert s == EncInstr(code[0]) + tail;
      InstrHead(code[0]);
      InstrRoundTrip(code[0], tail);
      SeqRoundTrip(code[1..], terminator, rest);
      assert code == [code[0]] + code[1..];
    }
  }
}

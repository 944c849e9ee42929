// Execution of structured WebAssembly code (section 4.4 of the WebAssembly Core Specification 1.0) over one
// linear memory and two host functions. The fuel bounds how often a loop is re-entered.
module WasmExec {
  import opened Bytes
  import opened WasmInstr
  import opened Values

  type Mem = seq<byte>

  datatype Cfg = Cfg(locals: seq<Val>, mem: Mem, trace: seq<Event>)

  // Host functions and their import indices.
  datatype Machine = Machine(host: Host, fPrint: nat, fPrintf: nat)

  datatype Res =
    | Next(stack: seq<Val>, c: Cfg)
    | Branch(depth: nat, c: Cfg)
    | Trapped(trace: seq<Event>)
    | OutOfFuel
    | Stuck

  // ---- memory ----

  predicate InMem(mem: Mem, a: int, n: nat) { 0 <= a && a + n <= |mem| }

  function Read(mem: Mem, a: int, n: nat): (r: seq<byte>)
    requires InMem(mem, a, n)
    ensures |r| == n
  {
    mem[a..a + n]
  }

  function Write(mem: Mem, a: int, b: seq<byte>): (r: Mem)
    requires InMem(mem, a, |b|)
    ensures |r| == |mem|
  {
    mem[..a] + b + mem[a + |b|..]
  }

  function LoadSize(op: byte): nat
    requires IsLoad(op)
  {
    if op == 0x2b then 8 else if op == 0x2c || op == 0x2d then 1 else if op == 0x2e || op == 0x2f then 2 else 4
  }

  function LoadValue(op: byte, b: seq<byte>): Val
    requires IsLoad(op) && |b| == LoadSize(op)
  {
    if op == 0x2b then VF(b)
    else if op == 0x2d || op == 0x2f then VI(LeValue(b))
    else VI(ToSigned(LeValue(b), Pow256(|b|)))
  }

  function StoreBytes(op: byte, v: Val): Option<seq<byte>>
    requires IsStore(op)
  {
    match v
    case VF(f) => if op == 0x39 then Some(f) else None
    case VI(i) =>
      if op == 0x39 then None
      else Some(LeBytes(i, if op == 0x3a then 1 else if op == 0x3b then 2 else 4))
  }

  // ---- numeric instructions: pop operands, push one result, or trap ----

  datatype NumRes = NVal(v: Val) | NTrap | NStuck

  function NumI(op: byte, a: int, b: int): NumRes {
    if op == 0x6a then NVal(VI(Wrap32(a + b)))
    else if op == 0x6b then NVal(VI(Wrap32(a - b)))
    else if op == 0x6c then NVal(VI(Wrap32(a * b)))
    else if op == 0x6d then
      (if b == 0 then NTrap
       else if !InI32(TruncDiv(a, b)) then NTrap
       else NVal(VI(TruncDiv(a, b))))
    else if op == 0x6f then (if b == 0 then NTrap else NVal(VI(TruncRem(a, b))))
    else if op == 0x71 then NVal(VI(Wrap32(BitAnd(Unsigned32(a), Unsigned32(b), 32))))
    else if op == 0x72 then NVal(VI(Wrap32(BitOr(Unsigned32(a), Unsigned32(b), 32))))
    else if op == 0x46 then NVal(VI(Bit(a == b)))
    else if op == 0x47 then NVal(VI(Bit(a != b)))
    else if op == 0x48 then NVal(VI(Bit(a < b)))
    else if op == 0x4a then NVal(VI(Bit(a > b)))
    else if op == 0x4c then NVal(VI(Bit(a <= b)))
    else if op == 0x4e then NVal(VI(Bit(a >= b)))
    else NStuck
  }

  function NumF(h: Host, op: byte, a: F64Bits, b: F64Bits): NumRes {
    if op == 0xa0 then NVal(VF(h.add(a, b)))
    else if op == 0xa1 then NVal(VF(h.sub(a, b)))
    else if op == 0xa2 then NVal(VF(h.mul(a, b)))
    else if op == 0xa3 then NVal(VF(h.div(a, b)))
    else if op == 0x61 then NVal(VI(Bit(h.eq(a, b))))
    else if op == 0x62 then NVal(VI(Bit(!h.eq(a, b))))
    else if op == 0x63 then NVal(VI(Bit(h.lt(a, b))))
    else if op == 0x64 then NVal(VI(Bit(h.lt(b, a))))
    else if op == 0x65 then NVal(VI(Bit(h.le(a, b))))
    else if op == 0x66 then NVal(VI(Bit(h.le(b, a))))
    else NStuck
  }

  // The stack's head is its top: for a binary operation the right operand comes first.
  function ExecNum(m: Machine, op: byte, stack: seq<Val>, c: Cfg): Res {
    if op == 0x45 then
      (if |stack| >= 1 && stack[0].VI? then Next([VI(Bit(stack[0].i == 0))] + stack[1..], c) else Stuck)
    else if op == 0xb7 then
      (if |stack| >= 1 && stack[0].VI? then Next([VF(m.host.ofInt(stack[0].i))] + stack[1..], c) else Stuck)
    else if |stack| < 2 then Stuck
    else
      var r := if stack[1].VI? && stack[0].VI? then NumI(op, stack[1].i, stack[0].i)
               else if stack[1].VF? && stack[0].VF? then NumF(m.host, op, stack[1].f, stack[0].f)
               else NStuck;
      match r
      case NVal(v) => Next([v] + stack[2..], c)
      case NTrap => Trapped(c.trace)
      case NStuck => Stuck
  }

  // ---- host calls ----

  // What the host reads for one argument from its eight-byte slot.
  function SlotArg(mem: Mem, slot: int, kind: ArgKind): Option<Arg> {
    if !InMem(mem, slot, 8) then None
    else match kind
      case KInt => Some(AInt(ToSigned(LeValue(Read(mem, slot, 4)), Pow256(4))))
      case KFloat => Some(AFloat(Read(mem, slot, 8)))
      case KStr =>
        var p, n := LeValue(Read(mem, slot, 4)), LeValue(Read(mem, slot + 4, 4));
        if InMem(mem, p, n) then Some(AStr(Read(mem, p, n))) else None
  }

  function SlotArgs(mem: Mem, slot: int, kinds: seq<ArgKind>): Option<seq<Arg>>
    decreases kinds
  {
    if kinds == [] then Some([])
    else match SlotArg(mem, slot, kinds[0])
      case None => None
      case Some(a) =>
        match SlotArgs(mem, slot + 8, kinds[1..]) case None => None case Some(r) => Some([a] + r)
  }

  function HostPrint(ptr: int, len: int, c: Cfg): Res {
    var p, n := Unsigned32(ptr), Unsigned32(len);
    if InMem(c.mem, p, n) then Next([], c.(trace := c.trace + [PrintEv(Read(c.mem, p, n))])) else Trapped(c.trace)
  }

  function HostPrintf(h: Host, ptr: int, len: int, args: int, c: Cfg): Res {
    var p, n := Unsigned32(ptr), Unsigned32(len);
    if !InMem(c.mem, p, n) then Trapped(c.trace)
    else
      var fmt := Read(c.mem, p, n);
      match SlotArgs(c.mem, Unsigned32(args), h.kinds(fmt))
      case None => Trapped(c.trace)
      case Some(vs) => Next([], c.(trace := c.trace + [PrintfEv(fmt, vs)]))
  }

  function ExecCall(m: Machine, f: nat, stack: seq<Val>, c: Cfg): Res {
    if f == m.fPrint then
      if |stack| >= 2 && stack[0].VI? && stack[1].VI? then
        (match HostPrint(stack[1].i, stack[0].i, c)
         case Next(_, c') => Next(stack[2..], c')
         case r => r)
      else Stuck
    else if f == m.fPrintf then
      if |stack| >= 4 && stack[0].VI? && stack[1].VI? && stack[2].VI? && stack[3].VI? then
        (match HostPrintf(m.host, stack[3].i, stack[2].i, stack[1].i, c)
         case Next(_, c') => Next(stack[4..], c')
         case r => r)
      else Stuck
    else Stuck
  }

  // ---- the machine ----

  function ExecSeq(m: Machine, code: seq<Instr>, stack: seq<Val>, c: Cfg, fuel: nat): (r: Res)
    decreases fuel, code
  {
    if code == [] then Next(stack, c)
    else match ExecInstr(m, code[0], stack, c, fuel)
      case Next(stack', c') => ExecSeq(m, code[1..], stack', c', fuel)
      case r => r
  }

  // Leaving a block: its own stack must be used up; a branch to it resumes behind it.
  function LeaveBlock(r: Res, stack: seq<Val>): Res {
    match r
    case Next(inner, c) => if inner == [] then Next(stack, c) else Stuck
    case Branch(d, c) => if d == 0 then Next(stack, c) else Branch(d - 1, c)
    case _ => r
  }

  function ExecInstr(m: Machine, i: Instr, stack: seq<Val>, c: Cfg, fuel: nat): (r: Res)
    decreases fuel, i
  {
    match i
    case Const(v) => Next([VI(v)] + stack, c)
    case FConst(b) => Next([VF(b)] + stack, c)
    case LocalGet(k) => if k < |c.locals| then Next([c.locals[k]] + stack, c) else Stuck
    case LocalSet(k) =>
      if k < |c.locals| && |stack| >= 1 then Next(stack[1..], c.(locals := c.locals[k := stack[0]])) else Stuck
    case Num(op) => ExecNum(m, op, stack, c)
    case Load(op, _, o) =>
      if IsLoad(op) && |stack| >= 1 && stack[0].VI? then
        var a := Unsigned32(stack[0].i) + o;
        if InMem(c.mem, a, LoadSize(op)) then Next([LoadValue(op, Read(c.mem, a, LoadSize(op)))] + stack[1..], c)
        else Trapped(c.trace)
      else Stuck
    case Store(op, _, o) =>
      if IsStore(op) && |stack| >= 2 && stack[1].VI? then
        var a := Unsigned32(stack[1].i) + o;
        match StoreBytes(op, stack[0])
        case None => Stuck
        case Some(b) =>
          if InMem(c.mem, a, |b|) then Next(stack[2..], c.(mem := Write(c.mem, a, b))) else Trapped(c.trace)
      else Stuck
    case Block(b) => LeaveBlock(ExecSeq(m, b, [], c, fuel), stack)
    case Loop(b) =>
      if fuel == 0 then OutOfFuel
      else
        (match ExecSeq(m, b, [], c, fuel - 1)
         case Branch(d, c') => if d == 0 then ExecInstr(m, i, stack, c', fuel - 1) else Branch(d - 1, c')
         case r => LeaveBlock(r, stack))
    case If(t, _, e) =>
      if |stack| >= 1 && stack[0].VI? then
        LeaveBlock(if stack[0].i != 0 then ExecSeq(m, t, [], c, fuel) else ExecSeq(m, e, [], c, fuel), stack[1..])
      else Stuck
    case Br(d) => Branch(d, c)
    case BrIf(d) =>
      if |stack| >= 1 && stack[0].VI? then (if stack[0].i != 0 then Branch(d, c) else Next(stack[1..], c)) else Stuck
    case Call(f) => ExecCall(m, f, stack, c)
  }

  // Going on with more code after a result.
  function Continue(m: Machine, r: Res, rest: seq<Instr>, fuel: nat): Res {
    match r case Next(stack, c) => ExecSeq(m, rest, stack, c, fuel) case _ => r
  }

  // Code in sequence: the second part starts where the first one stopped, unless that left the sequence.
  lemma {:induction false} ExecAppend(m: Machine, a: seq<Instr>, b: seq<Instr>, stack: seq<Val>, c: Cfg, fuel: nat)
    ensures ExecSeq(m, a + b, stack, c, fuel) == Continue(m, ExecSeq(m, a, stack, c, fuel), b, fuel)
    decreases |a|
  {
    if a == [] {
      assert a + b == b;
    } else {
      assert (a + b)[0] == a[0] && (a + b)[1..] == a[1..] + b;
      match ExecInstr(m, a[0], stack, c, fuel)
      case Next(stack', c') => ExecAppend(m, a[1..], b, stack', c', fuel);
      case _ =>
    }
  }

  lemma ExecOne(m: Machine, i: Instr, stack: seq<Val>, c: Cfg, fuel: nat)
    ensures ExecSeq(m, [i], stack, c, fuel) == ExecInstr(m, i, stack, c, fuel)
  {
    assert [i][1..] == [];
    match ExecInstr(m, i, stack, c, fuel)
    case Next(s, c') => assert ExecSeq(m, [], s, c', fuel) == Next(s, c');
    case _ =>
  }

  // ---- reading back what was written ----

  lemma ReadWritten(mem: Mem, a: int, b: seq<byte>)
    requires InMem(mem, a, |b|)
    ensures Read(Write(mem, a, b), a, |b|) == b
  {
  }

  lemma ReadElsewhere(mem: Mem, a: int, b: seq<byte>, p: int, n: nat)
    requires InMem(mem, a, |b|) && InMem(mem, p, n)
    requires p + n <= a || a + |b| <= p
    ensures Read(Write(mem, a, b), p, n) == Read(mem, p, n)
  {
  }
}

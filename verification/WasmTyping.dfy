// Validation of structured code (section 3.3 of the WebAssembly Core Specification 1.0, by the algorithm of its
// appendix): an operand stack of types and a flag for unreachable code. Code that passes never gets stuck.
module WasmTyping {
  import opened Bytes
  import opened WasmInstr
  import opened Values
  import opened WasmExec

  // Types of the function's locals and of every callable function's parameters (none of them has results).
  datatype Sig = Sig(locals: seq<ValType>, funcs: seq<seq<ValType>>)

  // Once dead, the stack yields operands of any type.
  datatype VStack = VStack(opds: seq<ValType>, dead: bool)

  function Push(v: VStack, t: ValType): VStack { VStack([t] + v.opds, v.dead) }

  function Pop(v: VStack, t: ValType): Option<VStack> {
    if v.opds == [] then (if v.dead then Some(v) else None)
    else if v.opds[0] == t then Some(VStack(v.opds[1..], v.dead)) else None
  }

  // Operands of the given types, the last one on top.
  function Pops(v: VStack, ts: seq<ValType>): Option<VStack>
    decreases |ts|
  {
    if ts == [] then Some(v)
    else match Pop(v, ts[|ts| - 1]) case None => None case Some(w) => Pops(w, ts[..|ts| - 1])
  }

  function Step(v: VStack, ins: seq<ValType>, out: ValType): Option<VStack> {
    match Pops(v, ins) case None => None case Some(w) => Some(Push(w, out))
  }

  // Operand and result type of a numeric instruction.
  function NumIn(op: byte): ValType { if 0x61 <= op <= 0x66 || 0xa0 <= op <= 0xa3 then F64 else I32 }
  function NumOut(op: byte): ValType { if 0xa0 <= op then F64 else I32 }
  function NumArgs(op: byte): seq<ValType> {
    if op == 0x45 || op == 0xb7 then [I32] else [NumIn(op), NumIn(op)]
  }

  function MemType(op: byte): ValType { if op == 0x2b || op == 0x39 then F64 else I32 }

  function StoreSize(op: byte): nat { if op == 0x39 then 8 else if op == 0x3a then 1 else if op == 0x3b then 2 else 4 }

  function CheckInstr(sig: Sig, labels: nat, v: VStack, i: Instr): Option<VStack>
    decreases i, 1
  {
    match i
    case Const(_) => Some(Push(v, I32))
    case FConst(_) => Some(Push(v, F64))
    case LocalGet(k) => if k < |sig.locals| then Some(Push(v, sig.locals[k])) else None
    case LocalSet(k) => if k < |sig.locals| then Pop(v, sig.locals[k]) else None
    case Num(op) => if IsNum(op) then Step(v, NumArgs(op), NumOut(op)) else None
    case Load(op, align, _) => if IsLoad(op) && Pow2(align) <= LoadSize(op) then Step(v, [I32], MemType(op)) else None
    case Store(op, align, _) =>
      if IsStore(op) && Pow2(align) <= StoreSize(op) then Pops(v, [I32, MemType(op)]) else None
    case Block(b) => if CheckBody(sig, labels + 1, b) then Some(v) else None
    case Loop(b) => if CheckBody(sig, labels + 1, b) then Some(v) else None
    case If(t, hasElse, e) =>
      if CheckBody(sig, labels + 1, t) && CheckBody(sig, labels + 1, e) then Pop(v, I32) else None
    case Br(l) => if l < labels then Some(VStack([], true)) else None
    case BrIf(l) => if l < labels then Pop(v, I32) else None
    case Call(f) => if f < |sig.funcs| then Pops(v, sig.funcs[f]) else None
  }

  // A block body starts on an empty stack and leaves it empty.
  predicate CheckBody(sig: Sig, labels: nat, b: seq<Instr>)
    decreases b, 1
  {
    match CheckSeq(sig, labels, VStack([], false), b) case None => false case Some(w) => w.opds == []
  }

  function CheckSeq(sig: Sig, labels: nat, v: VStack, code: seq<Instr>): Option<VStack>
    decreases code, 0
  {
    if code == [] then Some(v)
    else match CheckInstr(sig, labels, v, code[0])
      case None => None
      case Some(w) => CheckSeq(sig, labels, w, code[1..])
  }

  lemma {:induction false} CheckAppend(sig: Sig, labels: nat, v: VStack, w: VStack, a: seq<Instr>, b: seq<Instr>)
    requires CheckSeq(sig, labels, v, a) == Some(w)
    ensures CheckSeq(sig, labels, v, a + b) == CheckSeq(sig, labels, w, b)
    decreases |a|
  {
    if a == [] {
      assert a + b == b;
    } else {
      assert (a + b)[0] == a[0] && (a + b)[1..] == a[1..] + b;
      CheckAppend(sig, labels, CheckInstr(sig, labels, v, a[0]).value, w, a[1..], b);
    }
  }

  lemma CheckOne(sig: Sig, labels: nat, v: VStack, i: Instr)
    ensures CheckSeq(sig, labels, v, [i]) == CheckInstr(sig, labels, v, i)
  {
    assert [i][1..] == [];
  }

  // ---- soundness ----

  predicate IsOf(v: Val, t: ValType) { if t == F64 then v.VF? else v.VI? }

  predicate AllOf(vs: seq<Val>, ts: seq<ValType>) {
    |vs| == |ts| && forall k :: 0 <= k < |vs| ==> IsOf(vs[k], ts[k])
  }

  // The two host functions are the only ones, with two and four integer parameters.
  predicate HostSig(m: Machine, sig: Sig) {
    && |sig.funcs| == 2 && m.fPrint != m.fPrintf && m.fPrint < 2 && m.fPrintf < 2
    && sig.funcs[m.fPrint] == [I32, I32] && sig.funcs[m.fPrintf] == [I32, I32, I32, I32]
  }

  // A result that fits what the validator predicted: never stuck, typed stack and locals, branches to known labels.
  predicate Fine(sig: Sig, labels: nat, w: VStack, r: Res) {
    match r
    case Next(stack, c) => !w.dead && AllOf(stack, w.opds) && AllOf(c.locals, sig.locals)
    case Branch(d, c) => d < labels && AllOf(c.locals, sig.locals)
    case Stuck => false
    case _ => true
  }

  lemma PopsTop(v: VStack, a: ValType)
    ensures Pops(v, [a]) == Pop(v, a)
  {
    assert [a][..0] == [];
    if Pop(v, a).Some? {
      assert Pops(Pop(v, a).value, []) == Pop(v, a);
    }
  }

  lemma PopsTwo(v: VStack, a: ValType, b: ValType)
    ensures Pops(v, [a, b]) == match Pop(v, b) case None => None case Some(w) => Pop(w, a)
  {
    assert [a, b][..1] == [a];
    if Pop(v, b).Some? {
      PopsTop(Pop(v, b).value, a);
    }
  }

  lemma PopsFour(v: VStack)
    ensures !v.dead && Pops(v, [I32, I32, I32, I32]).Some? ==>
              && |v.opds| >= 4 && v.opds[0] == v.opds[1] == v.opds[2] == v.opds[3] == I32
              && Pops(v, [I32, I32, I32, I32]) == Some(VStack(v.opds[4..], false))
  {
    var three := [I32, I32, I32];
    assert [I32, I32, I32, I32][..3] == three && three[..2] == [I32, I32];
    if Pop(v, I32).Some? {
      var w := Pop(v, I32).value;
      assert Pops(v, [I32, I32, I32, I32]) == Pops(w, three);
      if Pop(w, I32).Some? {
        var x := Pop(w, I32).value;
        assert Pops(w, three) == Pops(x, [I32, I32]);
        PopsTwo(x, I32, I32);
      }
    }
  }

  lemma NumSound(m: Machine, sig: Sig, labels: nat, v: VStack, op: byte, stack: seq<Val>, c: Cfg)
    requires !v.dead && AllOf(stack, v.opds) && AllOf(c.locals, sig.locals)
    requires CheckInstr(sig, labels, v, Num(op)).Some?
    ensures Fine(sig, labels, CheckInstr(sig, labels, v, Num(op)).value, ExecNum(m, op, stack, c))
  {
    if op == 0x45 || op == 0xb7 {
      PopsTop(v, I32);
    } else {
      PopsTwo(v, NumIn(op), NumIn(op));
    }
  }

  lemma LoadSound(m: Machine, sig: Sig, labels: nat, v: VStack, i: Instr, stack: seq<Val>, c: Cfg, fuel: nat)
    requires !v.dead && AllOf(stack, v.opds) && AllOf(c.locals, sig.locals)
    requires i.Load? && CheckInstr(sig, labels, v, i).Some?
    ensures Fine(sig, labels, CheckInstr(sig, labels, v, i).value, ExecInstr(m, i, stack, c, fuel))
  {
    PopsTop(v, I32);
    assert IsOf(stack[0], v.opds[0]);
  }

  lemma StoreSound(m: Machine, sig: Sig, labels: nat, v: VStack, i: Instr, stack: seq<Val>, c: Cfg, fuel: nat)
    requires !v.dead && AllOf(stack, v.opds) && AllOf(c.locals, sig.locals)
    requires i.Store? && CheckInstr(sig, labels, v, i).Some?
    ensures Fine(sig, labels, CheckInstr(sig, labels, v, i).value, ExecInstr(m, i, stack, c, fuel))
  {
    PopsTwo(v, I32, MemType(i.sop));
    assert IsOf(stack[0], v.opds[0]) && IsOf(stack[1], v.opds[1]);
    assert v.opds[1..][0] == v.opds[1];
  }

  lemma CallSound(m: Machine, sig: Sig, labels: nat, v: VStack, f: nat, stack: seq<Val>, c: Cfg)
    requires !v.dead && AllOf(stack, v.opds) && AllOf(c.locals, sig.locals) && HostSig(m, sig)
    requires CheckInstr(sig, labels, v, Instr.Call(f)).Some?
    ensures Fine(sig, labels, CheckInstr(sig, labels, v, Instr.Call(f)).value, ExecCall(m, f, stack, c))
  {
    if f == m.fPrint {
      PopsTwo(v, I32, I32);
      assert v.opds[1..][0] == v.opds[1];
      assert IsOf(stack[0], v.opds[0]) && IsOf(stack[1], v.opds[1]);
    } else {
      PopsFour(v);
      assert forall k :: 0 <= k < 4 ==> IsOf(stack[k], v.opds[k]);
    }
  }

  lemma LeaveSound(sig: Sig, labels: nat, body: Option<VStack>, v: VStack, r: Res, stack: seq<Val>)
    requires body.Some? && body.value.opds == [] && Fine(sig, labels + 1, body.value, r)
    requires !v.dead && AllOf(stack, v.opds)
    ensures Fine(sig, labels, v, LeaveBlock(r, stack))
  {
  }

  // Validated code on a typed stack never gets stuck, keeps its locals typed, leaves the predicted stack and
  // branches only to labels around it.
  lemma {:induction false} SeqSound(m: Machine, sig: Sig, labels: nat, v: VStack, code: seq<Instr>, stack: seq<Val>, c: Cfg, fuel: nat)
    requires !v.dead && AllOf(stack, v.opds) && AllOf(c.locals, sig.locals) && HostSig(m, sig)
    requires CheckSeq(sig, labels, v, code).Some?
    ensures Fine(sig, labels, CheckSeq(sig, labels, v, code).value, ExecSeq(m, code, stack, c, fuel))
    decreases fuel, code, 0
  {
    hide AllOf;
    if code != [] {
      InstrSound(m, sig, labels, v, code[0], stack, c, fuel);
      match ExecInstr(m, code[0], stack, c, fuel)
      case Next(stack', c') =>
        SeqSound(m, sig, labels, CheckInstr(sig, labels, v, code[0]).value, code[1..], stack', c', fuel);
      case _ =>
    }
  }

  lemma {:induction false} InstrSound(m: Machine, sig: Sig, labels: nat, v: VStack, i: Instr, stack: seq<Val>, c: Cfg, fuel: nat)
    requires !v.dead && AllOf(stack, v.opds) && AllOf(c.locals, sig.locals) && HostSig(m, sig)
    requires CheckInstr(sig, labels, v, i).Some?
    ensures Fine(sig, labels, CheckInstr(sig, labels, v, i).value, ExecInstr(m, i, stack, c, fuel))
    decreases fuel, i, 1
  {
    var none := VStack([], false);
    match i
    case Num(op) => NumSound(m, sig, labels, v, op, stack, c);
    case Load(_, _, _) => LoadSound(m, sig, labels, v, i, stack, c, fuel);
    case Store(_, _, _) => StoreSound(m, sig, labels, v, i, stack, c, fuel);
    case Call(f) => CallSound(m, sig, labels, v, f, stack, c);
    case Block(b) =>
      SeqSound(m, sig, labels + 1, none, b, [], c, fuel);
      LeaveSound(sig, labels, CheckSeq(sig, labels + 1, none, b), v, ExecSeq(m, b, [], c, fuel), stack);
    case Loop(b) => LoopSound(m, sig, labels, v, i, stack, c, fuel);
    case If(t, _, e) =>
      var branch := if stack[0].i != 0 then t else e;
      SeqSound(m, sig, labels + 1, none, branch, [], c, fuel);
      LeaveSound(sig, labels, CheckSeq(sig, labels + 1, none, branch), Pop(v, I32).value, ExecSeq(m, branch, [], c, fuel), stack[1..]);
    case _ =>
  }

  lemma {:induction false} LoopSound(m: Machine, sig: Sig, labels: nat, v: VStack, i: Instr, stack: seq<Val>, c: Cfg, fuel: nat)
    requires !v.dead && AllOf(stack, v.opds) && AllOf(c.locals, sig.locals) && HostSig(m, sig)
    requires i.Loop? && CheckInstr(sig, labels, v, i).Some?
    ensures Fine(sig, labels, v, ExecInstr(m, i, stack, c, fuel))
    decreases fuel, i, 0
  {
    var none := VStack([], false);
    if fuel > 0 {
      SeqSound(m, sig, labels + 1, none, i.body, [], c, fuel - 1);
      var r := ExecSeq(m, i.body, [], c, fuel - 1);
      if r.Branch? && r.depth == 0 {
        LoopSound(m, sig, labels, v, i, stack, r.c, fuel - 1);
      } else {
        LeaveSound(sig, labels, CheckSeq(sig, labels + 1, none, i.body), v, r, stack);
      }
    }
  }
}

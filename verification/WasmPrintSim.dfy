// Print calls hand the host exactly what the source evaluated: every argument sits in its own slot, and strings are
// found in the pool or in their array.
module WasmPrintSim {
  import opened Bytes
  import opened WasmInstr
  import opened Values
  import opened Hir
  import opened WasmText
  import opened WasmGen
  import opened HirSem
  import opened Fragment
  import opened WasmTables
  import opened WasmExec
  import opened WasmExprSim
  import opened WasmMemSim

  // ---- the slots ----

  function Slot(j: int): int { ARGS_BASE + j * 8 }

  // Memory outside [lo, hi) is the same.
  ghost predicate Frame(before: Mem, after: Mem, lo: int, hi: int) {
    |before| == |after| && forall p :: 0 <= p < |before| && !(lo <= p < hi) ==> after[p] == before[p]
  }

  lemma FrameRead(before: Mem, after: Mem, lo: int, hi: int, p: int, n: nat)
    requires Frame(before, after, lo, hi) && InMem(before, p, n) && (p + n <= lo || hi <= p)
    ensures Read(after, p, n) == Read(before, p, n)
  {
  }

  lemma WriteFrame(mem: Mem, p: int, b: seq<byte>, lo: int, hi: int)
    requires InMem(mem, p, |b|) && lo <= p && p + |b| <= hi
    ensures Frame(mem, Write(mem, p, b), lo, hi)
  {
  }

  // The slot holds the argument; the text of a string lies outside the slots.
  predicate Holds(mem: Mem, slot: int, kind: ArgKind, a: Arg) {
    && SlotArg(mem, slot, kind) == Some(a)
    && (kind == KStr ==> LeValue(Read(mem, slot, 4)) >= STRINGS_BASE)
  }

  lemma HoldsAfter(before: Mem, after: Mem, lo: int, slot: int, kind: ArgKind, a: Arg)
    requires Holds(before, slot, kind, a) && Frame(before, after, lo, STRINGS_BASE) && slot + 8 <= lo
    ensures Holds(after, slot, kind, a)
  {
    hide Read;
    FrameRead(before, after, lo, STRINGS_BASE, slot, 4);
    FrameRead(before, after, lo, STRINGS_BASE, slot, 8);
    if kind == KStr {
      FrameRead(before, after, lo, STRINGS_BASE, slot + 4, 4);
      FrameRead(before, after, lo, STRINGS_BASE, LeValue(Read(before, slot, 4)), LeValue(Read(before, slot + 4, 4)));
    }
  }

  lemma ReadBack(mem: Mem, p: int, v: int)
    requires InMem(mem, p, 4) && InI32(v)
    ensures ToSigned(LeValue(Read(Write(mem, p, LeBytes(v, 4)), p, 4)), Pow256(4)) == v
    ensures v >= 0 ==> LeValue(Read(Write(mem, p, LeBytes(v, 4)), p, 4)) == v
  {
    hide Read, Write, LeBytes, LeValue, Pow256;
    ReadWritten(mem, p, LeBytes(v, 4));
    LeRoundTrip(v, 4);
    WidthPowers();
  }

  // ---- one store into the slots ----

  lemma StoreSlot(env: Env, m: Machine, types: Types, ctx: Ctx, g: Gen, gF: Gen, st: State, c: Cfg,
                  op: Instr, p: int, v: Val, b: seq<byte>, fuel: nat)
    requires Rel(env, m, types, ctx, g, gF, st, c) && InSlots(p, |b|)
    requires op.Store? && op.soffset == 0 && IsStore(op.sop) && StoreBytes(op.sop, v) == Some(b)
    ensures InMem(c.mem, p, |b|)
    ensures Rel(env, m, types, ctx, g, gF, st, c.(mem := Write(c.mem, p, b)))
    ensures ExecSeq(m, [op], [v, VI(p)], c, fuel) == Next([], c.(mem := Write(c.mem, p, b)))
  {
    hide Rel;
    SlotWritten(env, m, types, ctx, g, gF, st, c, p, b);
    ExecOne(m, op, [v, VI(p)], c, fuel);
    WrapIdentity(p);
  }

  // ---- one argument ----

  // The machine after one argument.
  ghost predicate ArgSim(env: Env, m: Machine, types: Types, ctx: Ctx, g: Gen, gF: Gen, st: State, c: Cfg,
                         r: Res, slot: int, kind: ArgKind, ar: ArgsRes) {
    match ar
    case Args(vs) =>
      && |vs| == 1 && r.Next? && r.stack == [] && Rel(env, m, types, ctx, g, gF, st, r.c)
      && Frame(c.mem, r.c.mem, slot, slot + 8) && Holds(r.c.mem, slot, kind, vs[0])
    case ArgsAbort => r == Trapped(st.trace)
    case ArgsWild => true
  }

  lemma RelPool(env: Env, m: Machine, types: Types, ctx: Ctx, g: Gen, g': Gen, gF: Gen, st: State, c: Cfg)
    requires Rel(env, m, types, ctx, g, gF, st, c) && PoolOnly(g, g') && Grows(g', gF)
    ensures Rel(env, m, types, ctx, g', gF, st, c)
  {
    CtxPool(env, types, ctx, g, g');
  }

  // Storing a scalar argument.
  lemma ScalarStored(env: Env, m: Machine, types: Types, ctx: Ctx, g: Gen, gF: Gen, st: State, c: Cfg,
                     j: nat, v: Val, t: STy, fuel: nat)
    requires Rel(env, m, types, ctx, g, gF, st, c) && j < 64 && HasTy(v, t)
    ensures var r := ExecSeq(m, [if t == SFloat then StoreF64 else StoreI32], [v, VI(Slot(j))], c, fuel);
            ArgSim(env, m, types, ctx, g, gF, st, c, r, Slot(j), if t == SFloat then KFloat else KInt,
                   Args([if v.VI? then AInt(v.i) else AFloat(v.f)]))
  {
    hide Rel, Read, Write;
    var b := if v.VF? then v.f else LeBytes(v.i, 4);
    StoreSlot(env, m, types, ctx, g, gF, st, c, if t == SFloat then StoreF64 else StoreI32, Slot(j), v, b, fuel);
    WriteFrame(c.mem, Slot(j), b, Slot(j), Slot(j) + 8);
    MemSize(env, m, types, ctx, g, gF, st, c);
    if v.VF? {
      ReadWritten(c.mem, Slot(j), b);
    } else {
      ReadBack(c.mem, Slot(j), v.i);
    }
  }

  lemma MemSize(env: Env, m: Machine, types: Types, ctx: Ctx, g: Gen, gF: Gen, st: State, c: Cfg)
    requires Rel(env, m, types, ctx, g, gF, st, c)
    ensures |c.mem| == MEM_BYTES
  {
  }

  lemma ScalarArgRuns(env: Env, m: Machine, depth: nat, types: Types, ctx: Ctx, g: Gen, gF: Gen, st: State, c: Cfg,
                      a: Expr, j: nat, fuel: nat)
    requires Rel(env, m, types, ctx, g, gF, st, c) && j < 64
    requires !a.Str? && !a.ty.TCharArray? && ArgKindOf(env, depth, ctx, a).Some?
    ensures ArgSim(env, m, types, ctx, g, gF, st, c, ExecSeq(m, ArgCode(env, depth, g, a, j).code, [], c, fuel),
                   Slot(j), ArgKindOf(env, depth, ctx, a).value, EvalArg(env, depth, st, a))
  {
    hide Ready, PoolOk, FreeZero, Holds, Frame, Eval, ExprCode;
    var vc := ExprCode(env, depth, g, a).code;
    var ev := Eval(env, depth, st, a);
    var t := TypeOf(env, depth, ctx, a).value;
    var op := if t == SFloat then StoreF64 else StoreI32;
    assert ArgCode(env, depth, g, a, j).code == [Const(Slot(j))] + (vc + [op]);
    ExprRuns(env, m, depth, types, ctx, g, gF, st, c, a, [VI(Slot(j))], fuel);
    StepFirst(m, Const(Slot(j)), vc + [op], [], c, fuel);
    assert [VI(Slot(j))] + [] == [VI(Slot(j))];
    Then(m, vc, [op], [VI(Slot(j))], c, fuel, ev);
    if ev.EV? {
      ScalarStored(env, m, types, ctx, g, gF, st, c, j, ev.v, t, fuel);
      assert [ev.v] + [VI(Slot(j))] == [ev.v, VI(Slot(j))];
    }
  }

  // Storing a pointer and a length.
  lemma StringStored(env: Env, m: Machine, types: Types, ctx: Ctx, g: Gen, gF: Gen, st: State, c: Cfg,
                     j: nat, p: int, n: nat, text: seq<byte>, fuel: nat)
    requires Rel(env, m, types, ctx, g, gF, st, c) && j < 64
    requires p >= STRINGS_BASE && InMem(c.mem, p, n) && Read(c.mem, p, n) == text
    ensures var code := [Const(Slot(j)), Const(p), StoreI32, Const(Slot(j) + 4), Const(n), StoreI32];
            ArgSim(env, m, types, ctx, g, gF, st, c, ExecSeq(m, code, [], c, fuel), Slot(j), KStr, Args([AStr(text)]))
  {
    hide Rel, Read, Write;
    MemSize(env, m, types, ctx, g, gF, st, c);
    var s := Slot(j);
    StoreSlot(env, m, types, ctx, g, gF, st, c, StoreI32, s, VI(p), LeBytes(p, 4), fuel);
    var c1 := c.(mem := Write(c.mem, s, LeBytes(p, 4)));
    StoreSlot(env, m, types, ctx, g, gF, st, c1, StoreI32, s + 4, VI(n), LeBytes(n, 4), fuel);
    var c2 := c1.(mem := Write(c1.mem, s + 4, LeBytes(n, 4)));
    TwoStores(m, s, p, n, c, c1, c2, fuel);
    PointerAndLength(c.mem, s, p, n, text);
  }

  lemma TwoStores(m: Machine, s: int, p: int, n: int, c: Cfg, c1: Cfg, c2: Cfg, fuel: nat)
    requires ExecSeq(m, [StoreI32], [VI(p), VI(s)], c, fuel) == Next([], c1)
    requires ExecSeq(m, [StoreI32], [VI(n), VI(s + 4)], c1, fuel) == Next([], c2)
    ensures ExecSeq(m, [Const(s), Const(p), StoreI32, Const(s + 4), Const(n), StoreI32], [], c, fuel) == Next([], c2)
  {
    hide ExecInstr;
    StoreAt(m, s, p, [Const(s + 4), Const(n)] + [StoreI32], c, c1, fuel);
    StoreAt(m, s + 4, n, [], c1, c2, fuel);
    assert [Const(s), Const(p), StoreI32] + ([Const(s + 4), Const(n)] + [StoreI32]) ==
           [Const(s), Const(p), StoreI32, Const(s + 4), Const(n), StoreI32];
    assert [Const(s + 4), Const(n), StoreI32] + [] == [Const(s + 4), Const(n)] + [StoreI32];
  }

  lemma StoreAt(m: Machine, s: int, v: int, rest: seq<Instr>, c: Cfg, c': Cfg, fuel: nat)
    requires ExecSeq(m, [StoreI32], [VI(v), VI(s)], c, fuel) == Next([], c')
    ensures ExecSeq(m, [Const(s), Const(v), StoreI32] + rest, [], c, fuel) == ExecSeq(m, rest, [], c', fuel)
  {
    var tail := [Const(v)] + ([StoreI32] + rest);
    assert [Const(s), Const(v), StoreI32] + rest == [Const(s)] + tail;
    StepFirst(m, Const(s), tail, [], c, fuel);
    assert [VI(s)] + [] == [VI(s)];
    StepFirst(m, Const(v), [StoreI32] + rest, [VI(s)], c, fuel);
    assert [VI(v)] + [VI(s)] == [VI(v), VI(s)];
    ExecAppend(m, [StoreI32], rest, [VI(v), VI(s)], c, fuel);
  }

  lemma PointerAndLength(mem: Mem, s: int, p: int, n: nat, text: seq<byte>)
    requires InSlots(s, 8) && |mem| == MEM_BYTES && p >= STRINGS_BASE
    requires InMem(mem, p, n) && Read(mem, p, n) == text
    ensures var mem1 := Write(mem, s, LeBytes(p, 4));
            var mem2 := Write(mem1, s + 4, LeBytes(n, 4));
            Frame(mem, mem2, s, s + 8) && Holds(mem2, s, KStr, AStr(text))
  {
    hide Read, Write;
    var mem1 := Write(mem, s, LeBytes(p, 4));
    var mem2 := Write(mem1, s + 4, LeBytes(n, 4));
    WriteFrame(mem, s, LeBytes(p, 4), s, s + 8);
    WriteFrame(mem1, s + 4, LeBytes(n, 4), s, s + 8);
    ReadBack(mem, s, p);
    ReadBack(mem1, s + 4, n);
    ReadElsewhere(mem1, s + 4, LeBytes(n, 4), s, 4);
    FrameRead(mem, mem2, s, s + 8, p, n);
  }

  // Text interned on the way to the finished pool is in memory where the code says.
  lemma Interned(g: Gen, gF: Gen, mem: Mem, raw: seq<byte>)
    requires PoolOk(gF.strings, mem) && Grows(Intern(g, raw).2, gF)
    ensures var t := Intern(g, raw);
            && PoolOnly(g, t.2) && t.0 >= STRINGS_BASE && t.1 >= 0 && InMem(mem, t.0, t.1)
            && Read(mem, t.0, t.1) == Unescape(raw)
  {
    PoolSlice(g, Intern(g, raw).2, gF, mem, Unescape(raw));
  }

  lemma RelPoolOk(env: Env, m: Machine, types: Types, ctx: Ctx, g: Gen, gF: Gen, st: State, c: Cfg)
    requires Rel(env, m, types, ctx, g, gF, st, c)
    ensures PoolOk(gF.strings, c.mem)
  {
  }

  lemma PoolSlice(g: Gen, g': Gen, gF: Gen, mem: Mem, t: seq<byte>)
    requires PoolOk(gF.strings, mem) && g'.strings == g.strings + t && g'.strings <= gF.strings
    ensures InMem(mem, STRINGS_BASE + |g.strings|, |t|)
    ensures Read(mem, STRINGS_BASE + |g.strings|, |t|) == t
  {
    var o := STRINGS_BASE + |g.strings|;
    forall k | 0 <= k < |t|
      ensures mem[o + k] == t[k]
    {
      assert mem[STRINGS_BASE..STRINGS_BASE + |gF.strings|][|g.strings| + k] == gF.strings[|g.strings| + k];
    }
  }

  // A char array's bytes.
  lemma CharArrayBytes(a: Arr, t: ATy, vals: seq<Val>, mem: Mem)
    requires Matches(a, t) && t.elem == EChar && ArrHolds(a, vals, mem)
    requires InMem(mem, a.base, a.total)
    ensures Read(mem, a.base, a.total) == CharBytes(vals)
  {
    forall k | 0 <= k < |vals|
      ensures mem[a.base + k] == CharBytes(vals)[k]
    {
      assert ElemIs(a, mem, k, vals[k]);
      var b := Read(mem, At(a, k), 1);
      assert b == [mem[a.base + k]];
      assert LeValue(b) == b[0] + 256 * LeValue(b[1..]);
    }
  }

  lemma CharArrayInMemory(env: Env, m: Machine, types: Types, ctx: Ctx, g: Gen, gF: Gen, st: State, c: Cfg, name: string)
    requires Rel(env, m, types, ctx, g, gF, st, c) && name in ctx.arrs && ctx.arrs[name].elem == EChar
    ensures name in st.arrs && FindArr(g.arrays, name).Some?
    ensures var a := FindArr(g.arrays, name).value;
            && a.base >= STRINGS_BASE && a.total >= 0 && InMem(c.mem, a.base, a.total)
            && Read(c.mem, a.base, a.total) == CharBytes(st.arrs[name].vals)
  {
    hide VarsRel, StOk, CtxOk;
    ArrayReady(env, m, types, ctx, g, gF, st, c, name);
    var a := FindArr(g.arrays, name).value;
    ElementAddress(gF, a, a.total - 1);
    CharArrayBytes(a, ctx.arrs[name], st.arrs[name].vals, c.mem);
  }

  lemma StringArgRuns(env: Env, m: Machine, depth: nat, types: Types, ctx: Ctx, g: Gen, gF: Gen, st: State, c: Cfg,
                      a: Expr, j: nat, fuel: nat)
    requires Rel(env, m, types, ctx, g, gF, st, c) && j < 64
    requires (a.Str? || a.ty.TCharArray?) && ArgKindOf(env, depth, ctx, a).Some?
    requires Grows(ArgCode(env, depth, g, a, j).g, gF)
    ensures ArgSim(env, m, types, ctx, g, gF, st, c, ExecSeq(m, ArgCode(env, depth, g, a, j).code, [], c, fuel),
                   Slot(j), ArgKindOf(env, depth, ctx, a).value, EvalArg(env, depth, st, a))
  {
    hide Rel, ArgSim, ExecSeq;
    var t := StringArg(g, a);
    if a.Str? {
      RelPoolOk(env, m, types, ctx, g, gF, st, c);
      Interned(g, gF, c.mem, a.text);
      TextKept(a.text);
      StringStored(env, m, types, ctx, g, gF, st, c, j, t.0, t.1, a.text, fuel);
    } else {
      CharArrayInMemory(env, m, types, ctx, g, gF, st, c, a.name);
      StringStored(env, m, types, ctx, g, gF, st, c, j, t.0, t.1, CharBytes(st.arrs[a.name].vals), fuel);
    }
  }

  lemma ArgRuns(env: Env, m: Machine, depth: nat, types: Types, ctx: Ctx, g: Gen, gF: Gen, st: State, c: Cfg,
                a: Expr, j: nat, fuel: nat)
    requires Rel(env, m, types, ctx, g, gF, st, c) && j < 64 && ArgKindOf(env, depth, ctx, a).Some?
    requires Grows(ArgCode(env, depth, g, a, j).g, gF)
    ensures var o := ArgCode(env, depth, g, a, j);
            ArgSim(env, m, types, ctx, o.g, gF, st, c, ExecSeq(m, o.code, [], c, fuel),
                   Slot(j), ArgKindOf(env, depth, ctx, a).value, EvalArg(env, depth, st, a))
  {
    hide Rel, ExecSeq, ArgCode, EvalArg, Holds, Frame;
    if a.Str? || a.ty.TCharArray? {
      StringArgRuns(env, m, depth, types, ctx, g, gF, st, c, a, j, fuel);
    } else {
      ScalarArgRuns(env, m, depth, types, ctx, g, gF, st, c, a, j, fuel);
    }
    var o := ArgCode(env, depth, g, a, j);
    var r := ExecSeq(m, o.code, [], c, fuel);
    RelTables(env, m, types, ctx, g, gF, st, c);
    ArgKeepsTables(env, depth, types, ctx, g, a, j);
    if EvalArg(env, depth, st, a).Args? {
      RelPool(env, m, types, ctx, g, o.g, gF, st, r.c);
    }
  }

  lemma RelTables(env: Env, m: Machine, types: Types, ctx: Ctx, g: Gen, gF: Gen, st: State, c: Cfg)
    requires Rel(env, m, types, ctx, g, gF, st, c)
    ensures CtxOk(env, types, ctx, g) && Grows(g, gF) && c.trace == st.trace
  {
  }

  // ---- all arguments ----

  function KindsOf(env: Env, depth: nat, ctx: Ctx, args: seq<Expr>): (r: seq<ArgKind>)
    requires forall k :: 0 <= k < |args| ==> ArgKindOf(env, depth, ctx, args[k]).Some?
    ensures |r| == |args|
  {
    seq(|args|, k requires 0 <= k < |args| => ArgKindOf(env, depth, ctx, args[k]).value)
  }

  ghost predicate ArgsSim(env: Env, m: Machine, types: Types, ctx: Ctx, g: Gen, gF: Gen, st: State, c: Cfg,
                          r: Res, slot: int, kinds: seq<ArgKind>, ar: ArgsRes) {
    match ar
    case Args(vs) =>
      && r.Next? && r.stack == [] && Rel(env, m, types, ctx, g, gF, st, r.c)
      && Frame(c.mem, r.c.mem, slot, STRINGS_BASE) && SlotArgs(r.c.mem, slot, kinds) == Some(vs)
    case ArgsAbort => r == Trapped(st.trace)
    case ArgsWild => true
  }

  lemma {:induction false} ArgsRun(env: Env, m: Machine, depth: nat, types: Types, ctx: Ctx, g: Gen, gF: Gen, st: State,
                                   c: Cfg, args: seq<Expr>, j: nat, fuel: nat)
    requires Rel(env, m, types, ctx, g, gF, st, c) && j + |args| <= 64
    requires forall k :: 0 <= k < |args| ==> ArgKindOf(env, depth, ctx, args[k]).Some?
    requires Grows(ArgsCode(env, depth, g, args, j).g, gF)
    ensures var o := ArgsCode(env, depth, g, args, j);
            ArgsSim(env, m, types, ctx, o.g, gF, st, c, ExecSeq(m, o.code, [], c, fuel),
                    Slot(j), KindsOf(env, depth, ctx, args), EvalArgs(env, depth, st, args))
    decreases |args|
  {
    hide Rel, ArgCode, EvalArg, ArgKindOf, ExecInstr;
    if args == [] {
      assert ArgsCode(env, depth, g, args, j).code == [];
      assert KindsOf(env, depth, ctx, args) == [];
    } else {
      var a := ArgCode(env, depth, g, args[0], j);
      var o := ArgsCode(env, depth, a.g, args[1..], j + 1);
      ArgsGrow(env, depth, a.g, args[1..], j + 1);
      ArgRuns(env, m, depth, types, ctx, g, gF, st, c, args[0], j, fuel);
      ExecAppend(m, a.code, o.code, [], c, fuel);
      if EvalArg(env, depth, st, args[0]).Args? {
        var c1 := ExecSeq(m, a.code, [], c, fuel).c;
        ArgsRun(env, m, depth, types, ctx, a.g, gF, st, c1, args[1..], j + 1, fuel);
        SlotsChain(env, m, depth, types, ctx, o.g, gF, st, c, c1, args, j, ExecSeq(m, o.code, [], c1, fuel));
      }
    }
  }

  // The first slot stays what it was while the others are filled.
  lemma SlotsChain(env: Env, m: Machine, depth: nat, types: Types, ctx: Ctx, g: Gen, gF: Gen, st: State, c: Cfg, c1: Cfg,
                   args: seq<Expr>, j: nat, r: Res)
    requires args != [] && forall k :: 0 <= k < |args| ==> ArgKindOf(env, depth, ctx, args[k]).Some?
    requires j + |args| <= 64 && |c.mem| == |c1.mem|
    requires var ar := EvalArg(env, depth, st, args[0]);
             && ar.Args? && |ar.vs| == 1 && Frame(c.mem, c1.mem, Slot(j), Slot(j) + 8)
             && Holds(c1.mem, Slot(j), ArgKindOf(env, depth, ctx, args[0]).value, ar.vs[0])
    requires ArgsSim(env, m, types, ctx, g, gF, st, c1, r, Slot(j + 1), KindsOf(env, depth, ctx, args[1..]),
                     EvalArgs(env, depth, st, args[1..]))
    ensures ArgsSim(env, m, types, ctx, g, gF, st, c, r, Slot(j), KindsOf(env, depth, ctx, args), EvalArgs(env, depth, st, args))
  {
    hide Rel, ArgKindOf, SlotArg, EvalArg, Frame, SlotArgs;
    var kinds := KindsOf(env, depth, ctx, args);
    assert kinds[1..] == KindsOf(env, depth, ctx, args[1..]);
    if EvalArgs(env, depth, st, args[1..]).Args? {
      var a := EvalArg(env, depth, st, args[0]).vs[0];
      HoldsAfter(c1.mem, r.c.mem, Slot(j + 1), Slot(j), kinds[0], a);
      FrameChain(c.mem, c1.mem, r.c.mem, Slot(j));
      FirstSlot(r.c.mem, Slot(j), kinds, a, EvalArgs(env, depth, st, args[1..]).vs);
      assert EvalArg(env, depth, st, args[0]).vs == [a];
    }
  }

  lemma FrameChain(a: Mem, b: Mem, c: Mem, slot: int)
    requires Frame(a, b, slot, slot + 8) && Frame(b, c, slot + 8, STRINGS_BASE) && slot + 8 <= STRINGS_BASE
    ensures Frame(a, c, slot, STRINGS_BASE)
  {
  }

  lemma FirstSlot(mem: Mem, slot: int, kinds: seq<ArgKind>, a: Arg, rest: seq<Arg>)
    requires kinds != [] && Holds(mem, slot, kinds[0], a) && SlotArgs(mem, slot + 8, kinds[1..]) == Some(rest)
    ensures SlotArgs(mem, slot, kinds) == Some([a] + rest)
  {
  }

  // ---- the call ----

  lemma PrintCallRuns(m: Machine, p: int, n: int, c: Cfg, text: seq<byte>, fuel: nat)
    requires 0 <= p && 0 <= n && |c.mem| == MEM_BYTES && InMem(c.mem, p, n) && Read(c.mem, p, n) == text
    ensures ExecSeq(m, [Const(p), Const(n), Instr.Call(m.fPrint)], [], c, fuel) ==
            Next([], c.(trace := c.trace + [PrintEv(text)]))
  {
    WrapIdentity(p);
    WrapIdentity(n);
    var call := [Instr.Call(m.fPrint)];
    StepFirst(m, Const(p), [Const(n)] + call, [], c, fuel);
    StepFirst(m, Const(n), call, [VI(p)] + [], c, fuel);
    ExecOne(m, Instr.Call(m.fPrint), [VI(n)] + ([VI(p)] + []), c, fuel);
    assert [Const(p), Const(n), Instr.Call(m.fPrint)] == [Const(p)] + ([Const(n)] + call);
  }

  lemma PrintfCallRuns(m: Machine, p: int, n: int, k: int, c: Cfg, fmt: seq<byte>, vs: seq<Arg>, fuel: nat)
    requires 0 <= p && 0 <= n && |c.mem| == MEM_BYTES && InMem(c.mem, p, n) && Read(c.mem, p, n) == fmt
    requires m.fPrint != m.fPrintf && SlotArgs(c.mem, ARGS_BASE, m.host.kinds(fmt)) == Some(vs)
    ensures ExecSeq(m, [Const(p), Const(n), Const(ARGS_BASE), Const(k), Instr.Call(m.fPrintf)], [], c, fuel) ==
            Next([], c.(trace := c.trace + [PrintfEv(fmt, vs)]))
  {
    WrapIdentity(p);
    WrapIdentity(n);
    WrapIdentity(ARGS_BASE);
    var s1 := [VI(p)] + [];
    var s2 := [VI(n)] + s1;
    var s3 := [VI(ARGS_BASE)] + s2;
    var s4 := [VI(k)] + s3;
    var call := [Instr.Call(m.fPrintf)];
    StepFirst(m, Const(p), [Const(n)] + ([Const(ARGS_BASE)] + ([Const(k)] + call)), [], c, fuel);
    StepFirst(m, Const(n), [Const(ARGS_BASE)] + ([Const(k)] + call), s1, c, fuel);
    StepFirst(m, Const(ARGS_BASE), [Const(k)] + call, s2, c, fuel);
    StepFirst(m, Const(k), call, s3, c, fuel);
    ExecOne(m, Instr.Call(m.fPrintf), s4, c, fuel);
    assert s4 == [VI(k), VI(ARGS_BASE), VI(n), VI(p)];
    assert [Const(p), Const(n), Const(ARGS_BASE), Const(k), Instr.Call(m.fPrintf)] ==
           [Const(p)] + ([Const(n)] + ([Const(ARGS_BASE)] + ([Const(k)] + call)));
  }

  lemma Traced(env: Env, m: Machine, types: Types, ctx: Ctx, g: Gen, gF: Gen, st: State, c: Cfg, e: Event)
    requires Rel(env, m, types, ctx, g, gF, st, c)
    ensures Rel(env, m, types, ctx, g, gF, st.(trace := st.trace + [e]), c.(trace := c.trace + [e]))
  {
  }

  lemma RelMachine(env: Env, m: Machine, types: Types, ctx: Ctx, g: Gen, gF: Gen, st: State, c: Cfg)
    requires Rel(env, m, types, ctx, g, gF, st, c)
    ensures m == Machine(env.host, env.fPrint, env.fPrintf) && env.fPrint != env.fPrintf
  {
  }

  // One host call with the text, or with the format and the evaluated arguments.
  lemma PrintRuns(env: Env, m: Machine, depth: nat, types: Types, ctx: Ctx, g: Gen, gF: Gen, st: State, c: Cfg,
                  args: seq<Expr>, fuel: nat)
    requires Rel(env, m, types, ctx, g, gF, st, c) && OkPrint(env, depth, ctx, args)
    requires Grows(PrintCode(env, depth, g, args).g, gF)
    ensures var o := PrintCode(env, depth, g, args);
            Sim(env, m, types, ctx, o.g, gF, ExecSeq(m, o.code, [], c, fuel), ExecPrint(env, depth, st, args))
  {
    hide Rel, ExecInstr, ExecSeq, ArgKindOf, ArgsCode, EvalArgs, SlotArgs, Read, InMem;
    var t := Intern(g, args[0].text);
    var fmt := args[0].text;
    TextKept(fmt);
    RelMachine(env, m, types, ctx, g, gF, st, c);
    MemSize(env, m, types, ctx, g, gF, st, c);
    if |args| == 1 {
      RelPoolOk(env, m, types, ctx, g, gF, st, c);
      Interned(g, gF, c.mem, args[0].text);
      PrintCallRuns(m, t.0, t.1, c, fmt, fuel);
      RelPool(env, m, types, ctx, g, t.2, gF, st, c);
      Traced(env, m, types, ctx, t.2, gF, st, c, PrintEv(fmt));
    } else {
      FormattedRuns(env, m, depth, types, ctx, g, gF, st, c, args, fuel);
    }
  }

  // For every text and every state: the one call of a print shows the host the text with its escapes resolved again, and so
  // what the program means if and only if there are none left.
  lemma PrintTextExact(env: Env, m: Machine, depth: nat, types: Types, ctx: Ctx, g: Gen, gF: Gen, st: State, c: Cfg,
                       text: seq<byte>, ty: HType, fuel: nat)
    requires Rel(env, m, types, ctx, g, gF, st, c)
    requires Grows(PrintCode(env, depth, g, [Str(text, ty)]).g, gF)
    ensures var o := PrintCode(env, depth, g, [Str(text, ty)]);
            && ExecSeq(m, o.code, [], c, fuel) == Next([], c.(trace := c.trace + [PrintEv(Unescape(text))]))
            && (Sim(env, m, types, ctx, o.g, gF, ExecSeq(m, o.code, [], c, fuel), ExecPrint(env, depth, st, [Str(text, ty)])) <==>
                NoEscape(text))
  {
    hide Rel, ExecInstr, ExecSeq, Read, InMem, Unescape;
    var t := Intern(g, text);
    RelMachine(env, m, types, ctx, g, gF, st, c);
    MemSize(env, m, types, ctx, g, gF, st, c);
    RelPoolOk(env, m, types, ctx, g, gF, st, c);
    Interned(g, gF, c.mem, text);
    PrintCallRuns(m, t.0, t.1, c, Unescape(text), fuel);
    RelPool(env, m, types, ctx, g, t.2, gF, st, c);
    TextKept(text);
    var c' := c.(trace := c.trace + [PrintEv(Unescape(text))]);
    var st' := st.(trace := st.trace + [PrintEv(text)]);
    if NoEscape(text) {
      Traced(env, m, types, ctx, t.2, gF, st, c, PrintEv(text));
    } else {
      TraceIs(env, m, types, ctx, g, gF, st, c);
      LastApart(c.trace, text, Unescape(text));
      if Rel(env, m, types, ctx, t.2, gF, st', c') {
        TraceIs(env, m, types, ctx, t.2, gF, st', c');
      }
    }
  }

  lemma LastApart(trace: seq<Event>, a: seq<byte>, b: seq<byte>)
    requires a != b
    ensures trace + [PrintEv(a)] != trace + [PrintEv(b)]
  {
    assert (trace + [PrintEv(a)])[|trace|] == PrintEv(a) && (trace + [PrintEv(b)])[|trace|] == PrintEv(b);
  }

  lemma TraceIs(env: Env, m: Machine, types: Types, ctx: Ctx, g: Gen, gF: Gen, st: State, c: Cfg)
    requires Rel(env, m, types, ctx, g, gF, st, c)
    ensures c.trace == st.trace
  {
  }

  lemma FormatKinds(env: Env, depth: nat, ctx: Ctx, args: seq<Expr>)
    requires OkPrint(env, depth, ctx, args) && |args| > 1
    ensures forall k :: 0 <= k < |args[1..]| ==> ArgKindOf(env, depth, ctx, args[1..][k]).Some?
    ensures env.host.kinds(args[0].text) == KindsOf(env, depth, ctx, args[1..])
  {
    hide ArgKindOf;
    assert forall k :: 0 <= k < |args[1..]| ==> args[1..][k] == args[k + 1];
  }

  lemma FormattedRuns(env: Env, m: Machine, depth: nat, types: Types, ctx: Ctx, g: Gen, gF: Gen, st: State, c: Cfg,
                      args: seq<Expr>, fuel: nat)
    requires Rel(env, m, types, ctx, g, gF, st, c) && OkPrint(env, depth, ctx, args) && |args| > 1
    requires Grows(PrintCode(env, depth, g, args).g, gF)
    ensures var o := PrintCode(env, depth, g, args);
            Sim(env, m, types, ctx, o.g, gF, ExecSeq(m, o.code, [], c, fuel), ExecPrint(env, depth, st, args))
  {
    hide Rel, ExecInstr, ExecSeq, ArgKindOf, ArgsCode, EvalArgs, SlotArgs, Read, InMem, Frame, Unescape;
    var t := Intern(g, args[0].text);
    var fmt := args[0].text;
    TextKept(fmt);
    var o := ArgsCode(env, depth, t.2, args[1..], 0);
    var call := [Const(t.0), Const(t.1), Const(ARGS_BASE), Const(|args| - 1), Instr.Call(env.fPrintf)];
    ArgsGrow(env, depth, t.2, args[1..], 0);
    FormatKinds(env, depth, ctx, args);
    RelPoolOk(env, m, types, ctx, g, gF, st, c);
    Interned(g, gF, c.mem, args[0].text);
    RelPool(env, m, types, ctx, g, t.2, gF, st, c);
    ArgsRun(env, m, depth, types, ctx, t.2, gF, st, c, args[1..], 0, fuel);
    ExecAppend(m, o.code, call, [], c, fuel);
    if EvalArgs(env, depth, st, args[1..]).Args? {
      var c1 := ExecSeq(m, o.code, [], c, fuel).c;
      RelPoolOk(env, m, types, ctx, o.g, gF, st, c1);
      Interned(g, gF, c1.mem, args[0].text);
      MemSize(env, m, types, ctx, o.g, gF, st, c1);
      RelMachine(env, m, types, ctx, o.g, gF, st, c1);
      PrintfCallRuns(m, t.0, t.1, |args| - 1, c1, fmt, EvalArgs(env, depth, st, args[1..]).vs, fuel);
      Traced(env, m, types, ctx, o.g, gF, st, c1, PrintfEv(fmt, EvalArgs(env, depth, st, args[1..]).vs));
    }
  }
}

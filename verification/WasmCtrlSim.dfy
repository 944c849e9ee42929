// The theorem for statements: generated code and source agree through nested conditionals and loops. They finish in
// corresponding states with the same host calls, trap where the source aborts, and run on where it runs on.
module WasmCtrlSim {
  import opened Bytes
  import opened WasmInstr
  import opened Values
  import opened Hir
  import opened WasmGen
  import opened HirSem
  import opened Fragment
  import opened WasmTables
  import opened WasmExec
  import opened WasmExprSim
  import opened WasmMemSim
  import opened WasmPrintSim
  import opened WasmStmtSim

  // ---- scopes ----

  predicate Extends(a: Ctx, b: Ctx) {
    && (forall x :: x in a.vars ==> x in b.vars && b.vars[x] == a.vars[x])
    && (forall x :: x in a.arrs ==> x in b.arrs && b.arrs[x] == a.arrs[x])
    && a.seen <= b.seen
  }

  predicate Scoped(ctx: Ctx) { ctx.arrs.Keys <= ctx.seen }

  // A statement adds names and takes none away.
  lemma {:induction false} StmtExtends(env: Env, depth: nat, types: Types, ctx: Ctx, inLoop: bool, s: Stmt)
    requires Scoped(ctx) && OkStmt(env, depth, types, ctx, inLoop, s).Some?
    ensures Extends(ctx, OkStmt(env, depth, types, ctx, inLoop, s).value)
    ensures Scoped(OkStmt(env, depth, types, ctx, inLoop, s).value)
    decreases s, 0
  {
    hide TypeOf, ArrayTy, NoFail;
    match s
    case For(_, init, cond, incr, body) =>
      if init.Some? {
        StmtExtends(env, depth, types, ctx, inLoop, init.value);
      }
    case Cond(test, thn, els) =>
      StmtsExtend(env, depth, types, ctx, inLoop, thn);
      StmtsExtend(env, depth, types, Ctx(ctx.vars, ctx.arrs, OkStmts(env, depth, types, ctx, inLoop, thn).value.seen), inLoop, els);
    case _ =>
  }

  lemma {:induction false} StmtsExtend(env: Env, depth: nat, types: Types, ctx: Ctx, inLoop: bool, ss: seq<Stmt>)
    requires Scoped(ctx) && OkStmts(env, depth, types, ctx, inLoop, ss).Some?
    ensures Extends(ctx, OkStmts(env, depth, types, ctx, inLoop, ss).value)
    ensures Scoped(OkStmts(env, depth, types, ctx, inLoop, ss).value)
    decreases ss, 0
  {
    if ss != [] {
      StmtExtends(env, depth, types, ctx, inLoop, ss[0]);
      StmtsExtend(env, depth, types, OkStmt(env, depth, types, ctx, inLoop, ss[0]).value, inLoop, ss[1..]);
    }
  }

  lemma CtxScoped(env: Env, types: Types, ctx: Ctx, g: Gen)
    requires CtxOk(env, types, ctx, g)
    ensures Scoped(ctx)
  {
    forall a | a in ctx.arrs
      ensures a in ctx.seen
    {
      assert FindArr(g.arrays, a).value in g.arrays;
    }
  }

  // The same state seen from another point of the program with the same names in scope.
  lemma RelShift(env: Env, m: Machine, types: Types, ctx: Ctx, g: Gen, ctx': Ctx, g': Gen, gF: Gen, st: State, c: Cfg)
    requires Rel(env, m, types, ctx, g, gF, st, c)
    requires ctx'.vars == ctx.vars && ctx'.arrs == ctx.arrs
    requires CtxOk(env, types, ctx', g') && Grows(g', gF) && g'.cursor >= g.cursor
    ensures Rel(env, m, types, ctx', g', gF, st, c)
  {
    hide CtxOk, LayoutOk, VarsRel, ArrsRel, PoolOk, ArrValOk;
  }

  lemma StateLeaves(outer: Ctx, inner: Ctx, st: State, st': State)
    requires StOk(outer, st) && StOk(inner, st') && Extends(outer, inner)
    ensures StOk(outer, Leave(st, st'))
  {
    hide ArrValOk, HasTy;
    var l := Leave(st, st');
    assert l.vars.Keys == outer.vars.Keys;
    assert l.arrs.Keys == outer.arrs.Keys;
  }

  lemma RelLeaves(env: Env, m: Machine, types: Types, ctx: Ctx, g: Gen, inner: Ctx, g': Gen, gF: Gen,
                  st: State, c: Cfg, st': State, c': Cfg)
    requires Rel(env, m, types, ctx, g, gF, st, c) && Rel(env, m, types, inner, g', gF, st', c')
    requires Extends(ctx, inner) && Grows(g, g')
    ensures Rel(env, m, types, Ctx(ctx.vars, ctx.arrs, inner.seen), g', gF, Leave(st, st'), c')
  {
    hide CtxOk, LayoutOk, PoolOk, ArrHolds, Extends, StOk, FreeZero;
    CtxWiden(env, types, ctx, g, inner, g');
    StateLeaves(ctx, inner, st, st');
    assert StOk(Ctx(ctx.vars, ctx.arrs, inner.seen), Leave(st, st')) by { OkIgnoresSeen(ctx, inner.seen, Leave(st, st')); }
  }

  lemma OkIgnoresSeen(ctx: Ctx, seen: set<string>, st: State)
    ensures StOk(Ctx(ctx.vars, ctx.arrs, seen), st) == StOk(ctx, st)
  {
  }

  lemma SimLeaves(env: Env, m: Machine, types: Types, ctx: Ctx, g: Gen, inner: Ctx, g': Gen, gF: Gen,
                  st: State, c: Cfg, r: Res, er: ExecRes)
    requires Rel(env, m, types, ctx, g, gF, st, c) && Sim(env, m, types, inner, g', gF, r, er)
    requires Extends(ctx, inner) && Grows(g, g')
    ensures Sim(env, m, types, Ctx(ctx.vars, ctx.arrs, inner.seen), g', gF, r, LeaveRes(st, er))
  {
    hide Rel, Extends;
    if er.Done? {
      RelLeaves(env, m, types, ctx, g, inner, g', gF, st, c, er.st, r.c);
    }
  }

  lemma SimShift(env: Env, m: Machine, types: Types, ctx: Ctx, g: Gen, ctx': Ctx, g': Gen, gF: Gen, r: Res, er: ExecRes)
    requires Sim(env, m, types, ctx, g, gF, r, er)
    requires ctx'.vars == ctx.vars && ctx'.arrs == ctx.arrs
    requires CtxOk(env, types, ctx', g') && Grows(g', gF) && g'.cursor >= g.cursor
    ensures Sim(env, m, types, ctx', g', gF, r, er)
  {
    hide Rel, CtxOk;
    if er.Done? {
      RelShift(env, m, types, ctx, g, ctx', g', gF, er.st, r.c);
    }
  }

  // ---- sequences ----

  lemma SimThen(env: Env, m: Machine, types: Types, ctx: Ctx, g: Gen, gF: Gen, a: seq<Instr>, b: seq<Instr>,
                c: Cfg, fuel: nat, first: ExecRes, ctx2: Ctx, g2: Gen, both: ExecRes)
    requires Sim(env, m, types, ctx, g, gF, ExecSeq(m, a, [], c, fuel), first)
    requires first.Done? ==>
               Sim(env, m, types, ctx2, g2, gF, ExecSeq(m, b, [], ExecSeq(m, a, [], c, fuel).c, fuel), both)
    requires !first.Done? ==> both == first
    ensures Sim(env, m, types, ctx2, g2, gF, ExecSeq(m, a + b, [], c, fuel), both)
  {
    hide Rel;
    ExecAppend(m, a, b, [], c, fuel);
  }

  // ---- the exit test of a loop ----

  // Falls through where the loop goes on and leaves for the block around the loop where it ends.
  predicate Exits(m: Machine, code: seq<Instr>, c: Cfg, fuel: nat, tv: EvalRes) {
    var r := ExecSeq(m, code, [], c, fuel);
    match tv
    case EV(v) => v.VI? ==> r == (if v.i == 0 then Branch(1, c) else Next([], c))
    case EAbort => r == Trapped(c.trace)
    case EWild => true
  }

  lemma ExitRuns(env: Env, m: Machine, depth: nat, types: Types, ctx: Ctx, g: Gen, gF: Gen, st: State, c: Cfg,
                 cond: Option<Expr>, fuel: nat)
    requires Ready(env, m, types, ctx, g, gF, st, c) && CondOk(env, depth, ctx, cond)
    ensures Exits(m, ExitCode(env, depth, g, cond).code, c, fuel, TestVal(env, depth, st, cond))
  {
    hide Ready, ExprCode, Eval;
    if cond.Some? {
      var code := ExprCode(env, depth, g, cond.value).code;
      var ev := Eval(env, depth, st, cond.value);
      ExprRuns(env, m, depth, types, ctx, g, gF, st, c, cond.value, [], fuel);
      Then(m, code, [Num(0x45), BrIf(1)], [], c, fuel, ev);
      if ev.EV? && ev.v.VI? {
        TestAndLeave(m, ev.v.i, c, fuel);
        assert [ev.v] + [] == [ev.v];
      }
    }
  }

  lemma TestAndLeave(m: Machine, i: int, c: Cfg, fuel: nat)
    ensures ExecSeq(m, [Num(0x45), BrIf(1)], [VI(i)], c, fuel) == (if i == 0 then Branch(1, c) else Next([], c))
  {
    assert [Num(0x45)] + [BrIf(1)] == [Num(0x45), BrIf(1)];
    StepFirst(m, Num(0x45), [BrIf(1)], [VI(i)], c, fuel);
    assert [VI(i)][1..] == [] && [VI(Bit(i == 0))] + [] == [VI(Bit(i == 0))];
    ExecOne(m, BrIf(1), [VI(Bit(i == 0))], c, fuel);
  }

  // ---- loops ----

  // A finished loop has left through the block around it.
  ghost predicate LoopSim(env: Env, m: Machine, types: Types, ctx: Ctx, g: Gen, gF: Gen, r: Res, er: ExecRes) {
    match er
    case Done(st) => r.Branch? && r.depth == 0 && Rel(env, m, types, ctx, g, gF, st, r.c)
    case Abort(trace) => r == Trapped(trace)
    case Timeout => r == OutOfFuel
    case Wild => true
  }

  // What generating a loop fixes: its context and tables at the start, after the body and after the increment.
  ghost predicate LoopStatic(env: Env, depth: nat, types: Types, c1: Ctx, g1: Gen, s: Stmt, gF: Gen) {
    && s.For? && CtxOk(env, types, c1, g1) && CondOk(env, depth, c1, s.cond)
    && OkStmts(env, depth, types, c1, true, s.body).Some? && OkOpt(env, depth, types, c1, true, s.incr).Some?
    && Grows(OptStmtCode(env, depth, StmtsCode(env, depth, g1, s.body).g, s.incr).g, gF)
  }

  function LoopBody(env: Env, depth: nat, g1: Gen, s: Stmt): seq<Instr>
    requires s.For?
  {
    var b := StmtsCode(env, depth, g1, s.body);
    ExitCode(env, depth, g1, s.cond).code + (b.code + (OptStmtCode(env, depth, b.g, s.incr).code + [Br(0)]))
  }

  // The loop's tables: growing, in step with its context, no array added.
  lemma LoopFacts(env: Env, depth: nat, types: Types, c1: Ctx, g1: Gen, s: Stmt, gF: Gen)
    requires LoopStatic(env, depth, types, c1, g1, s, gF)
    ensures var g2 := StmtsCode(env, depth, g1, s.body).g;
            var g3 := OptStmtCode(env, depth, g2, s.incr).g;
            && Grows(g1, g2) && Grows(g2, g3) && Grows(g1, gF) && Grows(g2, gF)
            && CtxOk(env, types, c1, g2) && CtxOk(env, types, c1, g3)
            && g1.cursor == g2.cursor == g3.cursor
    ensures OkStmts(env, depth, types, c1, true, s.body).value.seen == c1.seen
    ensures OkOpt(env, depth, types, c1, true, s.incr).value.seen == c1.seen
    ensures Extends(c1, OkStmts(env, depth, types, c1, true, s.body).value)
    ensures Extends(c1, OkOpt(env, depth, types, c1, true, s.incr).value)
  {
    hide OkStmt, OkStmts, StmtCode, StmtsCode, TypeOf, VarsOk, LocalsOk, ArrsOk, Extends;
    LoopTables(env, depth, types, c1, g1, s);
    LoopDeclaresNothingAll(env, depth, types, c1, s.body);
    CtxScoped(env, types, c1, g1);
    StmtsExtend(env, depth, types, c1, true, s.body);
    if s.incr.Some? {
      LoopDeclaresNothing(env, depth, types, c1, s.incr.value);
      StmtExtends(env, depth, types, c1, true, s.incr.value);
    } else {
      ExtendsSelf(c1);
    }
    var g2 := StmtsCode(env, depth, g1, s.body).g;
    var g3 := OptStmtCode(env, depth, g2, s.incr).g;
    SameCursor(env, types, c1, g1, g2);
    SameCursor(env, types, c1, g2, g3);
  }

  lemma ExtendsSelf(ctx: Ctx)
    ensures Extends(ctx, ctx)
  {
  }

  lemma SameCursor(env: Env, types: Types, ctx: Ctx, g: Gen, g': Gen)
    requires CtxOk(env, types, ctx, g) && CtxOk(env, types, ctx, g') && Grows(g, g')
    ensures g.cursor == g'.cursor
  {
    assert g.arrays == g'.arrays;
  }

  // One pass through body and increment, given what each of them does.
  lemma PassRuns(env: Env, m: Machine, depth: nat, types: Types, c1: Ctx, g1: Gen, s: Stmt, gF: Gen, st: State, c: Cfg,
                 fuel: nat)
    requires LoopStatic(env, depth, types, c1, g1, s, gF) && Rel(env, m, types, c1, g1, gF, st, c)
    requires var b := StmtsCode(env, depth, g1, s.body);
             Sim(env, m, types, OkStmts(env, depth, types, c1, true, s.body).value, b.g, gF,
                 ExecSeq(m, b.code, [], c, fuel), ExecAll(env, depth, st, s.body, fuel))
    requires var g2 := StmtsCode(env, depth, g1, s.body).g;
             forall st2, c2 :: Rel(env, m, types, c1, g2, gF, st2, c2) ==>
               Sim(env, m, types, OkOpt(env, depth, types, c1, true, s.incr).value, OptStmtCode(env, depth, g2, s.incr).g, gF,
                   ExecSeq(m, OptStmtCode(env, depth, g2, s.incr).code, [], c2, fuel), ExecOpt(env, depth, st2, s.incr, fuel))
    ensures var b := StmtsCode(env, depth, g1, s.body);
            Sim(env, m, types, c1, g1, gF,
                ExecSeq(m, b.code + OptStmtCode(env, depth, b.g, s.incr).code, [], c, fuel),
                Pass(env, depth, st, s, fuel))
  {
    hide Rel, ExecSeq, ExecInstr, CtxOk, OkStmts, StmtsCode, OkOpt, ExecOpt, ExecAll, Leave, CondOk, OptStmtCode;
    var b := StmtsCode(env, depth, g1, s.body);
    var n := OptStmtCode(env, depth, b.g, s.incr);
    var cb := OkStmts(env, depth, types, c1, true, s.body).value;
    var ci := OkOpt(env, depth, types, c1, true, s.incr).value;
    var r1 := ExecAll(env, depth, st, s.body, fuel);
    var m1 := ExecSeq(m, b.code, [], c, fuel);
    LoopFacts(env, depth, types, c1, g1, s, gF);
    assert Ctx(c1.vars, c1.arrs, cb.seen) == c1 == Ctx(c1.vars, c1.arrs, ci.seen);
    SimLeaves(env, m, types, c1, g1, cb, b.g, gF, st, c, m1, r1);
    if r1.Done? {
      var st2 := LeaveRes(st, r1).st;
      var r2 := ExecOpt(env, depth, st2, s.incr, fuel);
      var m2 := ExecSeq(m, n.code, [], m1.c, fuel);
      assert Sim(env, m, types, ci, n.g, gF, m2, r2);
      // The increment's own names, if any, end with it.
      SimLeaves(env, m, types, c1, b.g, ci, n.g, gF, st2, m1.c, m2, r2);
      SimShift(env, m, types, c1, n.g, c1, g1, gF, m2, LeaveRes(st2, r2));
    }
    SimThen(env, m, types, c1, b.g, gF, b.code, n.code, c, fuel, LeaveRes(st, r1), c1, g1, Pass(env, depth, st, s, fuel));
  }

  // Body, then increment.
  function Pass(env: Env, depth: nat, st: State, s: Stmt, fuel: nat): ExecRes
    requires s.For?
  {
    match LeaveRes(st, ExecAll(env, depth, st, s.body, fuel))
    case Done(st2) => LeaveRes(st2, ExecOpt(env, depth, st2, s.incr, fuel))
    case r => r
  }

  // The loop instruction, given what a pass does when the loop is entered with less fuel.
  lemma {:induction false} LoopRuns(env: Env, m: Machine, depth: nat, types: Types, c1: Ctx, g1: Gen, s: Stmt, gF: Gen,
                                    st: State, c: Cfg, fuel: nat)
    requires s.For? && LoopStatic(env, depth, types, c1, g1, s, gF) && Rel(env, m, types, c1, g1, gF, st, c)
    ensures LoopSim(env, m, types, c1, g1, gF, ExecInstr(m, Loop(LoopBody(env, depth, g1, s)), [], c, fuel),
                    ExecLoop(env, depth, st, s.cond, s.incr, s.body, fuel))
    decreases fuel, s, 0
  {
    hide Rel, OkStmts, StmtsCode, OkOpt, ExecOpt, ExecAll, Leave, OptStmtCode, ExecSeq, ExitCode, LoopStatic, Exits, TestVal;
    LoopMeans(env, depth, st, s, fuel);
    LoopEntered(m, LoopBody(env, depth, g1, s), c, fuel);
    hide ExecLoop, ExecInstr, Pass;
    if fuel > 0 {
      var tv := TestVal(env, depth, st, s.cond);
      var exit := ExitCode(env, depth, g1, s.cond).code;
      var b := StmtsCode(env, depth, g1, s.body);
      var n := OptStmtCode(env, depth, b.g, s.incr);
      LoopCond(env, depth, types, c1, g1, s, gF);
      RelReady(env, m, types, c1, g1, gF, st, c);
      RelTrace(env, m, types, c1, g1, gF, st, c);
      ExitRuns(env, m, depth, types, c1, g1, gF, st, c, s.cond, fuel - 1);
      LoopSplits(m, exit, b.code, n.code, c, fuel - 1, tv);
      if tv.EV? && tv.v.VI? && tv.v.i != 0 {
        PassSim(env, m, depth, types, c1, g1, s, gF, st, c, fuel - 1);
        var r := Pass(env, depth, st, s, fuel - 1);
        if r.Done? {
          LoopRuns(env, m, depth, types, c1, g1, s, gF, r.st, ExecSeq(m, b.code + n.code, [], c, fuel - 1).c, fuel - 1);
        }
      }
    }
  }

  lemma LoopMeans(env: Env, depth: nat, st: State, s: Stmt, fuel: nat)
    requires s.For?
    ensures ExecLoop(env, depth, st, s.cond, s.incr, s.body, fuel) ==
            if fuel == 0 then Timeout
            else match TestVal(env, depth, st, s.cond)
              case EV(v) =>
                if !v.VI? then Wild
                else if v.i == 0 then Done(st)
                else (match Pass(env, depth, st, s, fuel - 1)
                      case Done(st3) => ExecLoop(env, depth, st3, s.cond, s.incr, s.body, fuel - 1)
                      case r => r)
              case EAbort => Abort(st.trace)
              case EWild => Wild
  {
    hide ExecAll, ExecOpt, TestVal, Leave;
  }

  lemma LoopEntered(m: Machine, body: seq<Instr>, c: Cfg, fuel: nat)
    ensures ExecInstr(m, Loop(body), [], c, fuel) ==
            if fuel == 0 then OutOfFuel
            else match ExecSeq(m, body, [], c, fuel - 1)
              case Branch(d, c') => if d == 0 then ExecInstr(m, Loop(body), [], c', fuel - 1) else Branch(d - 1, c')
              case r => LeaveBlock(r, [])
  {
    hide ExecSeq;
  }

  lemma LoopCond(env: Env, depth: nat, types: Types, c1: Ctx, g1: Gen, s: Stmt, gF: Gen)
    requires LoopStatic(env, depth, types, c1, g1, s, gF)
    ensures CondOk(env, depth, c1, s.cond)
  {
  }

  // A pass that reaches the end of the loop's code goes back to its start.
  function Repeats(r: Res): Res {
    match r case Next(_, c) => Branch(0, c) case _ => r
  }

  // One entry of the loop's code: exit test, pass, jump back.
  lemma LoopSplits(m: Machine, exit: seq<Instr>, b: seq<Instr>, n: seq<Instr>, c: Cfg, fuel: nat, tv: EvalRes)
    requires Exits(m, exit, c, fuel, tv)
    ensures var r := ExecSeq(m, exit + (b + (n + [Br(0)])), [], c, fuel);
            match tv
            case EV(v) => v.VI? ==> r == (if v.i == 0 then Branch(1, c) else Repeats(ExecSeq(m, b + n, [], c, fuel)))
            case EAbort => r == Trapped(c.trace)
            case EWild => true
  {
    ExecAppend(m, exit, b + (n + [Br(0)]), [], c, fuel);
    ExecAppend(m, b + n, [Br(0)], [], c, fuel);
    assert b + (n + [Br(0)]) == (b + n) + [Br(0)];
    match ExecSeq(m, b + n, [], c, fuel)
    case Next(stack, c') => ExecOne(m, Br(0), stack, c', fuel);
    case _ =>
  }

  lemma {:induction false} PassSim(env: Env, m: Machine, depth: nat, types: Types, c1: Ctx, g1: Gen, s: Stmt, gF: Gen,
                                   st: State, c: Cfg, fuel: nat)
    requires LoopStatic(env, depth, types, c1, g1, s, gF) && Rel(env, m, types, c1, g1, gF, st, c)
    ensures var b := StmtsCode(env, depth, g1, s.body);
            Sim(env, m, types, c1, g1, gF,
                ExecSeq(m, b.code + OptStmtCode(env, depth, b.g, s.incr).code, [], c, fuel),
                Pass(env, depth, st, s, fuel))
    decreases fuel, s, 1
  {
    hide Rel, Sim, ExecSeq, ExecInstr, CtxOk, OkStmt, OkStmts, StmtCode, StmtsCode, OkOpt, Exec, ExecOpt, ExecAll, OptStmtCode, Extends;
    LoopFacts(env, depth, types, c1, g1, s, gF);
    StmtsRun(env, m, depth, types, c1, g1, gF, st, c, true, s.body, fuel);
    var g2 := StmtsCode(env, depth, g1, s.body).g;
    forall st2, c2 | Rel(env, m, types, c1, g2, gF, st2, c2)
      ensures Sim(env, m, types, OkOpt(env, depth, types, c1, true, s.incr).value, OptStmtCode(env, depth, g2, s.incr).g, gF,
                  ExecSeq(m, OptStmtCode(env, depth, g2, s.incr).code, [], c2, fuel), ExecOpt(env, depth, st2, s.incr, fuel))
    {
      OptRuns(env, m, depth, types, c1, g2, gF, st2, c2, true, s.incr, fuel);
    }
    PassRuns(env, m, depth, types, c1, g1, s, gF, st, c, fuel);
  }

  lemma {:induction false} OptRuns(env: Env, m: Machine, depth: nat, types: Types, ctx: Ctx, g: Gen, gF: Gen, st: State, c: Cfg,
                                   inLoop: bool, s: Option<Stmt>, fuel: nat)
    requires Rel(env, m, types, ctx, g, gF, st, c) && OkOpt(env, depth, types, ctx, inLoop, s).Some?
    requires Grows(OptStmtCode(env, depth, g, s).g, gF)
    ensures var o := OptStmtCode(env, depth, g, s);
            Sim(env, m, types, OkOpt(env, depth, types, ctx, inLoop, s).value, o.g, gF,
                ExecSeq(m, o.code, [], c, fuel), ExecOpt(env, depth, st, s, fuel))
    decreases fuel, s, 3
  {
    hide Rel;
    if s.Some? {
      StmtRuns(env, m, depth, types, ctx, g, gF, st, c, inLoop, s.value, fuel);
    }
  }

  // ---- statements ----

  lemma {:induction false} ForRuns(env: Env, m: Machine, depth: nat, types: Types, ctx: Ctx, g: Gen, gF: Gen, st: State, c: Cfg,
                                   inLoop: bool, s: Stmt, fuel: nat)
    requires s.For? && Rel(env, m, types, ctx, g, gF, st, c) && OkStmt(env, depth, types, ctx, inLoop, s).Some?
    requires Grows(StmtCode(env, depth, g, s).g, gF)
    ensures var o := StmtCode(env, depth, g, s);
            Sim(env, m, types, OkStmt(env, depth, types, ctx, inLoop, s).value, o.g, gF,
                ExecSeq(m, o.code, [], c, fuel), Exec(env, depth, st, s, fuel))
    decreases fuel, s, 1
  {
    hide Rel, CtxOk, ExecSeq, ExecInstr, OkStmts, StmtsCode, OkOpt, OptStmtCode, ExecOpt, ExecLoop, Extends, CondOk, ExitCode;
    var i := OptStmtCode(env, depth, g, s.init);
    var c1 := OkOpt(env, depth, types, ctx, inLoop, s.init).value;
    var r1 := ExecOpt(env, depth, st, s.init, fuel);
    var m1 := ExecSeq(m, i.code, [], c, fuel);
    var loop := [Block([Loop(LoopBody(env, depth, i.g, s))])];
    RelCtx(env, m, types, ctx, g, gF, st, c);
    ForShape(env, depth, types, ctx, g, gF, inLoop, s);
    LoopFacts(env, depth, types, c1, i.g, s, gF);
    var g3 := StmtCode(env, depth, g, s).g;
    OptRuns(env, m, depth, types, ctx, g, gF, st, c, inLoop, s.init, fuel);
    var er := ExecLoop(env, depth, st, s.cond, s.incr, s.body, fuel);
    if r1.Done? {
      er := ExecLoop(env, depth, r1.st, s.cond, s.incr, s.body, fuel);
      var mr := ExecInstr(m, Loop(LoopBody(env, depth, i.g, s)), [], m1.c, fuel);
      LoopRuns(env, m, depth, types, c1, i.g, s, gF, r1.st, m1.c, fuel);
      BlockAround(env, m, types, c1, i.g, gF, LoopBody(env, depth, i.g, s), m1.c, fuel, er);
      var m2 := ExecSeq(m, loop, [], m1.c, fuel);
      SimShift(env, m, types, c1, i.g, c1, g3, gF, m2, er);
      GrowsTrans(g, i.g, g3);
      SimLeaves(env, m, types, ctx, g, c1, g3, gF, st, c, m2, er);
      SimThen(env, m, types, c1, i.g, gF, i.code, loop, c, fuel, r1, Ctx(ctx.vars, ctx.arrs, c1.seen), g3, LeaveRes(st, er));
    } else {
      SimThen(env, m, types, c1, i.g, gF, i.code, loop, c, fuel, r1, Ctx(ctx.vars, ctx.arrs, c1.seen), g3, r1);
    }
  }

  lemma GrowsTrans(a: Gen, b: Gen, c: Gen)
    requires Grows(a, b) && Grows(b, c)
    ensures Grows(a, c)
  {
  }

  // A loop inside its exit block.
  lemma BlockAround(env: Env, m: Machine, types: Types, ctx: Ctx, g: Gen, gF: Gen, body: seq<Instr>, c: Cfg, fuel: nat, er: ExecRes)
    requires LoopSim(env, m, types, ctx, g, gF, ExecInstr(m, Loop(body), [], c, fuel), er)
    ensures Sim(env, m, types, ctx, g, gF, ExecSeq(m, [Block([Loop(body)])], [], c, fuel), er)
  {
    hide Rel;
    ExecOne(m, Block([Loop(body)]), [], c, fuel);
    ExecOne(m, Loop(body), [], c, fuel);
  }

  // The shape of a loop's code, and what generating it fixes.
  lemma ForShape(env: Env, depth: nat, types: Types, ctx: Ctx, g: Gen, gF: Gen, inLoop: bool, s: Stmt)
    requires s.For? && CtxOk(env, types, ctx, g) && OkStmt(env, depth, types, ctx, inLoop, s).Some?
    requires Grows(StmtCode(env, depth, g, s).g, gF)
    ensures var i := OptStmtCode(env, depth, g, s.init);
            var c1 := OkOpt(env, depth, types, ctx, inLoop, s.init).value;
            var g3 := StmtCode(env, depth, g, s).g;
            && OkOpt(env, depth, types, ctx, inLoop, s.init).Some? && Extends(ctx, c1) && Grows(g, i.g)
            && LoopStatic(env, depth, types, c1, i.g, s, gF)
            && g3 == OptStmtCode(env, depth, StmtsCode(env, depth, i.g, s.body).g, s.incr).g
            && StmtCode(env, depth, g, s).code == i.code + [Block([Loop(LoopBody(env, depth, i.g, s))])]
            && OkStmt(env, depth, types, ctx, inLoop, s).value == Ctx(ctx.vars, ctx.arrs, c1.seen)
            && s.iterable.None?
  {
    hide CtxOk, StmtsCode, OkStmts, OptStmtCode, OkOpt, CondOk, ExitCode, Extends;
    var i := OptStmtCode(env, depth, g, s.init);
    var c1 := OkOpt(env, depth, types, ctx, inLoop, s.init).value;
    OptKeepsCtx(env, depth, types, ctx, g, inLoop, s.init);
    OptGrows(env, depth, g, s.init);
    CtxScoped(env, types, ctx, g);
    OptExtends(env, depth, types, ctx, inLoop, s.init);
    ExitKeepsTables(env, depth, types, c1, i.g, s.cond);
    var x := ExitCode(env, depth, i.g, s.cond).code;
    var b := StmtsCode(env, depth, i.g, s.body);
    var n := OptStmtCode(env, depth, b.g, s.incr).code;
    assert x + b.code + n + [Br(0)] == x + (b.code + (n + [Br(0)]));
  }

  lemma OptExtends(env: Env, depth: nat, types: Types, ctx: Ctx, inLoop: bool, s: Option<Stmt>)
    requires Scoped(ctx) && OkOpt(env, depth, types, ctx, inLoop, s).Some?
    ensures Extends(ctx, OkOpt(env, depth, types, ctx, inLoop, s).value)
  {
    if s.Some? {
      StmtExtends(env, depth, types, ctx, inLoop, s.value);
    }
  }

  lemma IfRuns(m: Machine, cc: seq<Instr>, t: seq<Instr>, hasElse: bool, e: seq<Instr>, c: Cfg, fuel: nat, v: Val)
    requires Yields(m, cc, [], c, fuel, EV(v)) && v.VI?
    ensures ExecSeq(m, cc + [If(t, hasElse, e)], [], c, fuel) ==
            LeaveBlock(if v.i != 0 then ExecSeq(m, t, [], c, fuel) else ExecSeq(m, e, [], c, fuel), [])
  {
    Then(m, cc, [If(t, hasElse, e)], [], c, fuel, EV(v));
    assert [v] + [] == [v];
    ExecOne(m, If(t, hasElse, e), [v], c, fuel);
    assert [v][1..] == [];
  }

  lemma LeaveSim(env: Env, m: Machine, types: Types, ctx: Ctx, g: Gen, gF: Gen, r: Res, er: ExecRes)
    requires Sim(env, m, types, ctx, g, gF, r, er)
    ensures Sim(env, m, types, ctx, g, gF, LeaveBlock(r, []), er)
  {
    hide Rel;
  }

  lemma {:induction false} CondRuns(env: Env, m: Machine, depth: nat, types: Types, ctx: Ctx, g: Gen, gF: Gen, st: State, c: Cfg,
                                    inLoop: bool, s: Stmt, fuel: nat)
    requires s.Cond? && Rel(env, m, types, ctx, g, gF, st, c) && OkStmt(env, depth, types, ctx, inLoop, s).Some?
    requires Grows(StmtCode(env, depth, g, s).g, gF)
    ensures var o := StmtCode(env, depth, g, s);
            Sim(env, m, types, OkStmt(env, depth, types, ctx, inLoop, s).value, o.g, gF,
                ExecSeq(m, o.code, [], c, fuel), Exec(env, depth, st, s, fuel))
    decreases fuel, s, 1
  {
    hide Rel, CtxOk, ExecSeq, ExecInstr, OkStmts, StmtsCode, Extends, ExprCode, Eval, TypeOf, ExecAll, Leave, LeaveBlock;
    var c1 := OkStmts(env, depth, types, ctx, inLoop, s.thn).value;
    var mid := Ctx(ctx.vars, ctx.arrs, c1.seen);
    var c2 := OkStmts(env, depth, types, mid, inLoop, s.els).value;
    var fin := Ctx(ctx.vars, ctx.arrs, c2.seen);
    var cc := ExprCode(env, depth, g, s.test).code;
    var t := StmtsCode(env, depth, g, s.thn);
    var e := StmtsCode(env, depth, t.g, s.els);
    var ev := Eval(env, depth, st, s.test);
    RelCtx(env, m, types, ctx, g, gF, st, c);
    CondShape(env, depth, types, ctx, g, gF, inLoop, s);
    RelReady(env, m, types, ctx, g, gF, st, c);
    RelTrace(env, m, types, ctx, g, gF, st, c);
    ExprRuns(env, m, depth, types, ctx, g, gF, st, c, s.test, [], fuel);
    Then(m, cc, [If(t.code, s.els != [], e.code)], [], c, fuel, ev);
    if ev.EV? && ev.v.VI? {
      IfRuns(m, cc, t.code, s.els != [], e.code, c, fuel, ev.v);
      if ev.v.i != 0 {
        StmtsRun(env, m, depth, types, ctx, g, gF, st, c, inLoop, s.thn, fuel);
        var r := ExecSeq(m, t.code, [], c, fuel);
        var er := ExecAll(env, depth, st, s.thn, fuel);
        SimLeaves(env, m, types, ctx, g, c1, t.g, gF, st, c, r, er);
        SimShift(env, m, types, mid, t.g, fin, e.g, gF, r, LeaveRes(st, er));
        LeaveSim(env, m, types, fin, e.g, gF, r, LeaveRes(st, er));
      } else {
        RelShift(env, m, types, ctx, g, mid, t.g, gF, st, c);
        StmtsRun(env, m, depth, types, mid, t.g, gF, st, c, inLoop, s.els, fuel);
        var r := ExecSeq(m, e.code, [], c, fuel);
        var er := ExecAll(env, depth, st, s.els, fuel);
        SimLeaves(env, m, types, mid, t.g, c2, e.g, gF, st, c, r, er);
        LeaveSim(env, m, types, fin, e.g, gF, r, LeaveRes(st, er));
      }
    }
  }

  lemma CondShape(env: Env, depth: nat, types: Types, ctx: Ctx, g: Gen, gF: Gen, inLoop: bool, s: Stmt)
    requires s.Cond? && CtxOk(env, types, ctx, g) && OkStmt(env, depth, types, ctx, inLoop, s).Some?
    requires Grows(StmtCode(env, depth, g, s).g, gF)
    ensures OkStmts(env, depth, types, ctx, inLoop, s.thn).Some? && TypeOf(env, depth, ctx, s.test).Some?
    ensures var c1 := OkStmts(env, depth, types, ctx, inLoop, s.thn).value;
            var mid := Ctx(ctx.vars, ctx.arrs, c1.seen);
            var t := StmtsCode(env, depth, g, s.thn);
            var e := StmtsCode(env, depth, t.g, s.els);
            && OkStmts(env, depth, types, mid, inLoop, s.els).Some?
            && (var c2 := OkStmts(env, depth, types, mid, inLoop, s.els).value;
                var fin := Ctx(ctx.vars, ctx.arrs, c2.seen);
                && OkStmt(env, depth, types, ctx, inLoop, s) == Some(fin)
                && Extends(ctx, c1) && Extends(mid, c2)
                && CtxOk(env, types, mid, t.g) && CtxOk(env, types, fin, e.g))
            && Grows(g, t.g) && Grows(t.g, e.g) && Grows(t.g, gF) && Grows(e.g, gF)
            && StmtCode(env, depth, g, s) == Out(ExprCode(env, depth, g, s.test).code + [If(t.code, s.els != [], e.code)], e.g)
  {
    hide CtxOk, StmtsCode, OkStmts, Extends, ExprCode, TypeOf;
    var c1 := OkStmts(env, depth, types, ctx, inLoop, s.thn).value;
    var mid := Ctx(ctx.vars, ctx.arrs, c1.seen);
    var t := StmtsCode(env, depth, g, s.thn);
    var e := StmtsCode(env, depth, t.g, s.els);
    var c2 := OkStmts(env, depth, types, mid, inLoop, s.els).value;
    ExprKeepsTables(env, depth, types, ctx, g, s.test);
    StmtsKeepCtx(env, depth, types, ctx, g, inLoop, s.thn);
    StmtsGrow(env, depth, g, s.thn);
    CtxWiden(env, types, ctx, g, c1, t.g);
    StmtsKeepCtx(env, depth, types, mid, t.g, inLoop, s.els);
    StmtsGrow(env, depth, t.g, s.els);
    CtxWiden(env, types, mid, t.g, c2, e.g);
    CtxScoped(env, types, ctx, g);
    CtxScoped(env, types, mid, t.g);
    StmtsExtend(env, depth, types, ctx, inLoop, s.thn);
    StmtsExtend(env, depth, types, mid, inLoop, s.els);
  }

  // Every supported statement: same final variables, arrays and host calls.
  lemma {:induction false} StmtRuns(env: Env, m: Machine, depth: nat, types: Types, ctx: Ctx, g: Gen, gF: Gen, st: State, c: Cfg,
                                    inLoop: bool, s: Stmt, fuel: nat)
    requires Rel(env, m, types, ctx, g, gF, st, c) && OkStmt(env, depth, types, ctx, inLoop, s).Some?
    requires Grows(StmtCode(env, depth, g, s).g, gF)
    ensures var o := StmtCode(env, depth, g, s);
            Sim(env, m, types, OkStmt(env, depth, types, ctx, inLoop, s).value, o.g, gF,
                ExecSeq(m, o.code, [], c, fuel), Exec(env, depth, st, s, fuel))
    decreases fuel, s, 2
  {
    hide Rel, CtxOk, ExecSeq, ExecInstr, BindCode, AssignCode, PrintCode, ExecBind, ExecAssign, ExecPrint, OkBind, OkAssign, OkPrint, Grows;
    match s
    case Bind(name, declared, value) =>
      if BindArrayType(declared, value).Some? {
        BindArrayRuns(env, m, depth, types, ctx, g, gF, st, c, inLoop, name, declared, value, fuel);
      } else {
        BindScalarRuns(env, m, depth, types, ctx, g, gF, st, c, inLoop, name, declared, value, fuel);
      }
    case Assign(target, rhs, op) => AssignRuns(env, m, depth, types, ctx, g, gF, st, c, target, rhs, op, fuel);
    case For(_, _, _, _, _) => ForRuns(env, m, depth, types, ctx, g, gF, st, c, inLoop, s, fuel);
    case Cond(_, _, _) => CondRuns(env, m, depth, types, ctx, g, gF, st, c, inLoop, s, fuel);
    case Eff(expr) => PrintRuns(env, m, depth, types, ctx, g, gF, st, c, Unwrap(expr).args, fuel);
    case Skip =>
  }

  lemma AssignRuns(env: Env, m: Machine, depth: nat, types: Types, ctx: Ctx, g: Gen, gF: Gen, st: State, c: Cfg,
                   target: Expr, rhs: Expr, op: Option<Op>, fuel: nat)
    requires Rel(env, m, types, ctx, g, gF, st, c) && OkAssign(env, depth, ctx, target, rhs, op)
    ensures var o := AssignCode(env, depth, g, target, rhs, op);
            Sim(env, m, types, ctx, o.g, gF, ExecSeq(m, o.code, [], c, fuel), ExecAssign(env, depth, st, target, rhs, op))
  {
    hide Rel, ExecSeq, AssignCode, ExecAssign;
    RelCtx(env, m, types, ctx, g, gF, st, c);
    AssignKeepsTables(env, depth, types, ctx, g, target, rhs, op);
    if target.Name? {
      AssignVarRuns(env, m, depth, types, ctx, g, gF, st, c, target, rhs, op, fuel);
    } else {
      AssignElemRuns(env, m, depth, types, ctx, g, gF, st, c, target, rhs, op, fuel);
    }
  }

  lemma {:induction false} StmtsRun(env: Env, m: Machine, depth: nat, types: Types, ctx: Ctx, g: Gen, gF: Gen, st: State, c: Cfg,
                                    inLoop: bool, ss: seq<Stmt>, fuel: nat)
    requires Rel(env, m, types, ctx, g, gF, st, c) && OkStmts(env, depth, types, ctx, inLoop, ss).Some?
    requires Grows(StmtsCode(env, depth, g, ss).g, gF)
    ensures var o := StmtsCode(env, depth, g, ss);
            Sim(env, m, types, OkStmts(env, depth, types, ctx, inLoop, ss).value, o.g, gF,
                ExecSeq(m, o.code, [], c, fuel), ExecAll(env, depth, st, ss, fuel))
    decreases fuel, ss, 0
  {
    hide Rel, CtxOk, OkStmt, StmtCode, Exec, ExecInstr;
    if ss != [] {
      var a := StmtCode(env, depth, g, ss[0]);
      var b := StmtsCode(env, depth, a.g, ss[1..]);
      var c1 := OkStmt(env, depth, types, ctx, inLoop, ss[0]).value;
      var r1 := Exec(env, depth, st, ss[0], fuel);
      StmtsGrow(env, depth, a.g, ss[1..]);
      GrowsTrans(a.g, b.g, gF);
      StmtRuns(env, m, depth, types, ctx, g, gF, st, c, inLoop, ss[0], fuel);
      if r1.Done? {
        StmtsRun(env, m, depth, types, c1, a.g, gF, r1.st, ExecSeq(m, a.code, [], c, fuel).c, inLoop, ss[1..], fuel);
      }
      SimThen(env, m, types, c1, a.g, gF, a.code, b.code, c, fuel, r1,
              OkStmts(env, depth, types, ctx, inLoop, ss).value, b.g, ExecAll(env, depth, st, ss, fuel));
    }
  }
}

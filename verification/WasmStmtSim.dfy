// Generated statement code does what the statement means: same variables, same arrays, same host calls, through
// nested conditionals and loops, and it traps or runs on exactly where the source aborts or runs on.
module WasmStmtSim {
  import opened Bytes
  import opened WasmInstr
  import opened Values
  import opened Hir
  import opened WasmGen
  import opened HirSem
  import opened Fragment
  import opened WasmTables
  import opened WasmExec
  import opened WasmExprSim
  import opened WasmMemSim
  import opened WasmPrintSim

  // ---- scalars ----

  lemma FrameAfter(locals: seq<Local>, vars: map<string, Val>, frame: seq<Val>, name: string, v: Val)
    requires VarsRel(locals, vars, frame) && FindLocal(locals, name).Some?
    ensures VarsRel(locals, vars[name := v], frame[FindLocal(locals, name).value := v])
  {
  }

  lemma TypingAfter(ctx: Ctx, st: State, name: string, v: Val, t: STy)
    requires StOk(ctx, st) && HasTy(v, t)
    ensures StOk(Ctx(ctx.vars[name := t], ctx.arrs, ctx.seen), SetVar(st, name, v))
  {
    assert SetVar(st, name, v).vars.Keys == st.vars.Keys + {name};
  }

  lemma SetRuns(m: Machine, k: nat, v: Val, rest: seq<Val>, c: Cfg, fuel: nat)
    requires k < |c.locals|
    ensures ExecSeq(m, [LocalSet(k)], [v] + rest, c, fuel) == Next(rest, c.(locals := c.locals[k := v]))
  {
    ExecOne(m, LocalSet(k), [v] + rest, c, fuel);
    assert ([v] + rest)[1..] == rest;
  }

  lemma LocalStored(env: Env, m: Machine, types: Types, ctx: Ctx, g: Gen, gF: Gen, st: State, c: Cfg,
                    name: string, v: Val, rest: seq<Val>, fuel: nat)
    requires Rel(env, m, types, ctx, g, gF, st, c)
    requires name in ctx.vars && HasTy(v, ctx.vars[name])
    requires FindLocal(g.locals, name).Some?
    ensures var k := FindLocal(g.locals, name).value;
            && k < |c.locals|
            && Rel(env, m, types, ctx, g, gF, SetVar(st, name, v), c.(locals := c.locals[k := v]))
            && ExecSeq(m, [LocalSet(k)], [v] + rest, c, fuel) == Next(rest, c.(locals := c.locals[k := v]))
  {
    hide LayoutOk, ArrsRel, PoolOk, FreeZero, CtxOk, StOk;
    FindLocalStable(g.locals, gF.locals, name);
    SetRuns(m, FindLocal(g.locals, name).value, v, rest, c, fuel);
    FrameAfter(gF.locals, st.vars, c.locals, name, v);
    TypingAfter(ctx, st, name, v, ctx.vars[name]);
    assert ctx.vars[name := ctx.vars[name]] == ctx.vars;
  }

  // A new name in scope, with its first value.
  lemma LocalBound(env: Env, m: Machine, types: Types, ctx: Ctx, g: Gen, g': Gen, gF: Gen, st: State, c: Cfg,
                   name: string, v: Val, fuel: nat)
    requires Rel(env, m, types, ctx, g, gF, st, c) && name !in ctx.vars
    requires name in types && HasTy(v, types[name]) && FindConst(env.consts, name).None?
    requires g' == LocalIndex(g, name, WTy(types[name])).1 && Grows(g', gF)
    ensures var k := LocalIndex(g, name, WTy(types[name])).0;
            var ctx' := Ctx(ctx.vars[name := types[name]], ctx.arrs, ctx.seen);
            && k < |c.locals|
            && Rel(env, m, types, ctx', g', gF, SetVar(st, name, v), c.(locals := c.locals[k := v]))
            && ExecSeq(m, [LocalSet(k)], [v], c, fuel) == Next([], c.(locals := c.locals[k := v]))
  {
    hide LayoutOk, ArrsRel, PoolOk, FreeZero, CtxOk, StOk;
    BindScalarOk(env, types, ctx, g, name, WTy(types[name]));
    FindLocalStable(g'.locals, gF.locals, name);
    SetRuns(m, FindLocal(g'.locals, name).value, v, [], c, fuel);
    assert [v] + [] == [v];
    FrameAfter(gF.locals, st.vars, c.locals, name, v);
    TypingAfter(ctx, st, name, v, types[name]);
  }

  lemma AssignableValue(v: Val, from: STy, to: STy)
    requires HasTy(v, from) && Assignable(from, to)
    ensures HasTy(v, to) && WTy(from) == WTy(to)
  {
  }

  lemma BindScalarRuns(env: Env, m: Machine, depth: nat, types: Types, ctx: Ctx, g: Gen, gF: Gen, st: State, c: Cfg,
                       inLoop: bool, name: string, declared: Option<HType>, value: Option<Expr>, fuel: nat)
    requires Rel(env, m, types, ctx, g, gF, st, c) && BindArrayType(declared, value).None?
    requires OkBind(env, depth, types, ctx, inLoop, name, declared, value).Some?
    requires Grows(BindCode(env, depth, g, name, declared, value).g, gF)
    ensures var o := BindCode(env, depth, g, name, declared, value);
            Sim(env, m, types, OkBind(env, depth, types, ctx, inLoop, name, declared, value).value, o.g, gF,
                ExecSeq(m, o.code, [], c, fuel), ExecBind(env, depth, st, name, declared, value))
  {
    hide LayoutOk, ArrsRel, PoolOk, FreeZero, VarsRel, CtxOk, StOk;
    var o := BindCode(env, depth, g, name, declared, value);
    var ev := if value.Some? then Eval(env, depth, st, value.value) else EV(VI(0));
    var vc := if value.Some? then ExprCode(env, depth, g, value.value).code else [Const(0)];
    if value.Some? {
      ExprRuns(env, m, depth, types, ctx, g, gF, st, c, value.value, [], fuel);
      ExprKeepsTables(env, depth, types, ctx, g, value.value);
      if ev.EV? {
        AssignableValue(ev.v, TypeOf(env, depth, ctx, value.value).value, types[name]);
      }
    } else {
      ExecOne(m, Const(0), [], c, fuel);
    }
    assert Yields(m, vc, [], c, fuel, ev);
    var k := LocalIndex(g, name, WTy(types[name])).0;
    assert o == Out(vc + [LocalSet(k)], LocalIndex(g, name, WTy(types[name])).1);
    Then(m, vc, [LocalSet(k)], [], c, fuel, ev);
    if ev.EV? {
      LocalBound(env, m, types, ctx, g, o.g, gF, st, c, name, ev.v, fuel);
      assert [ev.v] + [] == [ev.v];
    }
  }

  // ---- assignment to a variable ----

  // A plain value, or the current one combined with it, in the target's type.
  function NewValue(h: Host, op: Option<Op>, cur: Val, r: EvalRes): EvalRes {
    match r
    case EV(v) => if op.Some? then BinVal(h, op.value, true, cur, v) else EV(v)
    case x => x
  }

  // Operand code and operator on top of the current value.
  predicate Combines(m: Machine, code: seq<Instr>, cur: Val, stack: seq<Val>, c: Cfg, fuel: nat, r: EvalRes, t: STy) {
    match r
    case EV(w) => ExecSeq(m, code, [cur] + stack, c, fuel) == Next([w] + stack, c) && HasTy(w, t)
    case EAbort => ExecSeq(m, code, [cur] + stack, c, fuel) == Trapped(c.trace)
    case EWild => true
  }

  lemma CompoundRuns(env: Env, m: Machine, depth: nat, types: Types, ctx: Ctx, g: Gen, gF: Gen, st: State, c: Cfg,
                     rhs: Expr, op: Op, cur: Val, t: STy, stack: seq<Val>, fuel: nat)
    requires Ready(env, m, types, ctx, g, gF, st, c) && TypeOf(env, depth, ctx, rhs).Some?
    requires HasTy(cur, t) && Arith(op)
    requires if t == SFloat then op != Mod else IntLike(TypeOf(env, depth, ctx, rhs).value)
    ensures ValueCode(env, depth, g, WTy(t), rhs).g == g
    ensures Combines(m, ValueCode(env, depth, g, WTy(t), rhs).code + OpCode(WTy(t), op), cur, stack, c, fuel,
                     NewValue(env.host, Some(op), cur, Eval(env, depth, st, rhs)), if t == SFloat then SFloat else SInt)
  {
    hide Ready, Eval, ExprCode, FloatCode;
    OperandRuns(env, m, depth, types, ctx, g, gF, st, c, rhs, t == SFloat, [cur] + stack, fuel);
    ExprRuns(env, m, depth, types, ctx, g, gF, st, c, rhs, [cur] + stack, fuel);
    assert m.host == env.host by { ReadyHost(env, m, types, ctx, g, gF, st, c); }
    CombineOperand(m, ValueCode(env, depth, g, WTy(t), rhs).code, op, cur, t, Eval(env, depth, st, rhs),
                   TypeOf(env, depth, ctx, rhs).value, stack, c, fuel);
  }

  lemma ReadyHost(env: Env, m: Machine, types: Types, ctx: Ctx, g: Gen, gF: Gen, st: State, c: Cfg)
    requires Ready(env, m, types, ctx, g, gF, st, c)
    ensures m.host == env.host
  {
  }

  lemma CombineOperand(m: Machine, vc: seq<Instr>, op: Op, cur: Val, t: STy, ev: EvalRes, tr: STy,
                       stack: seq<Val>, c: Cfg, fuel: nat)
    requires HasTy(cur, t) && Arith(op) && (ev.EV? ==> HasTy(ev.v, tr))
    requires if t == SFloat then op != Mod else IntLike(tr)
    requires Yields(m, vc, [cur] + stack, c, fuel, if t == SFloat then Promoted(m.host, ev) else ev)
    ensures Combines(m, vc + OpCode(WTy(t), op), cur, stack, c, fuel, NewValue(m.host, Some(op), cur, ev),
                     if t == SFloat then SFloat else SInt)
  {
    hide BinVal, ExecNum;
    var isf := t == SFloat;
    var pv := if isf then Promoted(m.host, ev) else ev;
    var opc := if isf then BinopF(op) else BinopI(op);
    assert OpCode(WTy(t), op) == [Num(opc)];
    Then(m, vc, [Num(opc)], [cur] + stack, c, fuel, pv);
    if ev.EV? {
      BinopRuns(m, op, cur, ev.v, t, tr, stack, c);
      TypedResult(m.host, op, true, cur, ev.v, t, tr, if isf then SFloat else SInt);
      assert [pv.v] + ([cur] + stack) == [pv.v, cur] + stack;
      ExecOne(m, Num(opc), [pv.v] + ([cur] + stack), c, fuel);
    }
  }

  lemma AssignVarRuns(env: Env, m: Machine, depth: nat, types: Types, ctx: Ctx, g: Gen, gF: Gen, st: State, c: Cfg,
                      target: Expr, rhs: Expr, op: Option<Op>, fuel: nat)
    requires Rel(env, m, types, ctx, g, gF, st, c) && OkAssign(env, depth, ctx, target, rhs, op) && target.Name?
    ensures var o := AssignCode(env, depth, g, target, rhs, op);
            Sim(env, m, types, ctx, g, gF, ExecSeq(m, o.code, [], c, fuel), ExecAssign(env, depth, st, target, rhs, op))
  {
    VisibleLocal(env, m, types, ctx, g, gF, st, c, target.name);
    if op.None? {
      PlainAssignRuns(env, m, depth, types, ctx, g, gF, st, c, target, rhs, fuel);
    } else {
      CompoundAssignRuns(env, m, depth, types, ctx, g, gF, st, c, target, rhs, op.value, fuel);
    }
  }

  lemma VisibleLocal(env: Env, m: Machine, types: Types, ctx: Ctx, g: Gen, gF: Gen, st: State, c: Cfg, name: string)
    requires Ready(env, m, types, ctx, g, gF, st, c) && name in ctx.vars
    ensures FindLocal(g.locals, name).Some? && name in st.vars && HasTy(st.vars[name], ctx.vars[name])
    ensures var k := FindLocal(g.locals, name).value; k < |c.locals| && c.locals[k] == st.vars[name]
  {
    FindLocalStable(g.locals, gF.locals, name);
  }

  lemma PlainAssignRuns(env: Env, m: Machine, depth: nat, types: Types, ctx: Ctx, g: Gen, gF: Gen, st: State, c: Cfg,
                        target: Expr, rhs: Expr, fuel: nat)
    requires Rel(env, m, types, ctx, g, gF, st, c) && OkAssign(env, depth, ctx, target, rhs, None) && target.Name?
    requires target.name in st.vars && FindLocal(g.locals, target.name).Some?
    ensures var o := AssignCode(env, depth, g, target, rhs, None);
            Sim(env, m, types, ctx, g, gF, ExecSeq(m, o.code, [], c, fuel), ExecAssign(env, depth, st, target, rhs, None))
  {
    hide LayoutOk, ArrsRel, PoolOk, FreeZero, CtxOk, StOk, VarsRel;
    var k := FindLocal(g.locals, target.name).value;
    var ev := Eval(env, depth, st, rhs);
    ExprRuns(env, m, depth, types, ctx, g, gF, st, c, rhs, [], fuel);
    Then(m, ExprCode(env, depth, g, rhs).code, [LocalSet(k)], [], c, fuel, ev);
    if ev.EV? {
      AssignableValue(ev.v, TypeOf(env, depth, ctx, rhs).value, ctx.vars[target.name]);
      LocalStored(env, m, types, ctx, g, gF, st, c, target.name, ev.v, [], fuel);
    }
  }

  lemma CompoundAssignRuns(env: Env, m: Machine, depth: nat, types: Types, ctx: Ctx, g: Gen, gF: Gen, st: State, c: Cfg,
                           target: Expr, rhs: Expr, op: Op, fuel: nat)
    requires Rel(env, m, types, ctx, g, gF, st, c) && OkAssign(env, depth, ctx, target, rhs, Some(op)) && target.Name?
    requires target.name in st.vars && FindLocal(g.locals, target.name).Some?
    requires HasTy(st.vars[target.name], ctx.vars[target.name])
    requires var k := FindLocal(g.locals, target.name).value; k < |c.locals| && c.locals[k] == st.vars[target.name]
    ensures var o := AssignCode(env, depth, g, target, rhs, Some(op));
            Sim(env, m, types, ctx, g, gF, ExecSeq(m, o.code, [], c, fuel), ExecAssign(env, depth, st, target, rhs, Some(op)))
  {
    hide LayoutOk, ArrsRel, PoolOk, FreeZero, CtxOk, StOk, VarsRel;
    var name := target.name;
    var k := FindLocal(g.locals, name).value;
    var cur, t := st.vars[name], ctx.vars[name];
    var nv := NewValue(env.host, Some(op), cur, Eval(env, depth, st, rhs));
    CompoundRuns(env, m, depth, types, ctx, g, gF, st, c, rhs, op, cur, t, [], fuel);
    var vc := ValueCode(env, depth, g, WTy(t), rhs).code + OpCode(WTy(t), op);
    CompoundAssignCode(env, depth, ctx, g, target, rhs, op);
    CompoundAssignMeaning(env, depth, st, ctx, target, rhs, op);
    hide ExecAssign, AssignCode, OkAssign, NewValue, Combines;
    GetCombineSet(m, k, vc, cur, nv, if t == SFloat then SFloat else SInt, c, fuel);
    if nv.EV? {
      LocalStored(env, m, types, ctx, g, gF, st, c, name, nv.v, [], fuel);
    }
  }

  lemma CompoundAssignMeaning(env: Env, depth: nat, st: State, ctx: Ctx, target: Expr, rhs: Expr, op: Op)
    requires OkAssign(env, depth, ctx, target, rhs, Some(op)) && target.Name? && target.name in st.vars
    ensures ExecAssign(env, depth, st, target, rhs, Some(op)) ==
            match NewValue(env.host, Some(op), st.vars[target.name], Eval(env, depth, st, rhs))
            case EV(w) => Done(SetVar(st, target.name, w))
            case EAbort => Abort(st.trace)
            case EWild => Wild
  {
    hide Eval, TypeOf, BinVal;
  }

  lemma CompoundAssignCode(env: Env, depth: nat, ctx: Ctx, g: Gen, target: Expr, rhs: Expr, op: Op)
    requires OkAssign(env, depth, ctx, target, rhs, Some(op)) && target.Name? && FindLocal(g.locals, target.name).Some?
    ensures var k := FindLocal(g.locals, target.name).value;
            var t := ctx.vars[target.name];
            AssignCode(env, depth, g, target, rhs, Some(op)).code ==
            [LocalGet(k)] + ((ValueCode(env, depth, g, WTy(t), rhs).code + OpCode(WTy(t), op)) + [LocalSet(k)])
  {
  }

  lemma GetCombineSet(m: Machine, k: nat, vc: seq<Instr>, cur: Val, nv: EvalRes, t: STy, c: Cfg, fuel: nat)
    requires k < |c.locals| && c.locals[k] == cur && Combines(m, vc, cur, [], c, fuel, nv, t)
    ensures var r := ExecSeq(m, [LocalGet(k)] + (vc + [LocalSet(k)]), [], c, fuel);
            match nv
            case EV(w) => r == Next([], c.(locals := c.locals[k := w]))
            case EAbort => r == Trapped(c.trace)
            case EWild => true
  {
    StepFirst(m, LocalGet(k), vc + [LocalSet(k)], [], c, fuel);
    ExecAppend(m, vc, [LocalSet(k)], [cur] + [], c, fuel);
    if nv.EV? {
      SetRuns(m, k, nv.v, [], c, fuel);
    }
  }

  // ---- assignment to an element ----

  // The value code of an element or variable of type wt leaves the value in that type.
  lemma ValueRuns(env: Env, m: Machine, depth: nat, types: Types, ctx: Ctx, g: Gen, gF: Gen, st: State, c: Cfg,
                  rhs: Expr, wt: ValType, stack: seq<Val>, fuel: nat)
    requires Ready(env, m, types, ctx, g, gF, st, c) && TypeOf(env, depth, ctx, rhs).Some?
    ensures ValueCode(env, depth, g, wt, rhs).g == g
    ensures var ev := Eval(env, depth, st, rhs);
            Yields(m, ValueCode(env, depth, g, wt, rhs).code, stack, c, fuel,
                   if wt == F64 then Promoted(env.host, ev) else ev)
    ensures Eval(env, depth, st, rhs).EV? ==> HasTy(Eval(env, depth, st, rhs).v, TypeOf(env, depth, ctx, rhs).value)
  {
    hide Ready, Eval, ExprCode, FloatCode;
    OperandRuns(env, m, depth, types, ctx, g, gF, st, c, rhs, wt == F64, stack, fuel);
    ExprRuns(env, m, depth, types, ctx, g, gF, st, c, rhs, stack, fuel);
  }

  lemma StoreRuns(m: Machine, a: Arr, p: int, v: Val, b: seq<byte>, c: Cfg, fuel: nat)
    requires StoreBytes(StoreOf(a).sop, v) == Some(b) && InMem(c.mem, p, |b|) && 0 <= p < MEM_BYTES
    ensures ExecSeq(m, [StoreOf(a)], [v, VI(p)], c, fuel) == Next([], c.(mem := Write(c.mem, p, b)))
  {
    ExecOne(m, StoreOf(a), [v, VI(p)], c, fuel);
    WrapIdentity(p);
  }

  // The value on top of the element's address goes into the element.
  lemma StoreInto(env: Env, m: Machine, types: Types, ctx: Ctx, g: Gen, gF: Gen, st: State, c: Cfg,
                  name: string, k: int, v: Val, vt: STy, fuel: nat)
    requires Rel(env, m, types, ctx, g, gF, st, c) && name in ctx.arrs
    requires HasTy(v, vt) && Storable(ctx.arrs[name].elem, vt)
    requires FindArr(g.arrays, name).Some? && 0 <= k < FindArr(g.arrays, name).value.total
    ensures name in st.arrs && k < |st.arrs[name].vals|
    ensures var a := FindArr(g.arrays, name).value;
            Sim(env, m, types, ctx, g, gF,
                ExecSeq(m, [StoreOf(a)], [Converted(env.host, a, v), VI(At(a, k))], c, fuel),
                Done(SetElem(st, name, k, Stored(env.host, ctx.arrs[name].elem, v))))
  {
    hide At, Rel;
    ElementStored(env, m, types, ctx, g, gF, st, c, name, k, v, vt);
    var a := FindArr(g.arrays, name).value;
    var b := StoreBytes(StoreOf(a).sop, Converted(env.host, a, v)).value;
    StoreRuns(m, a, At(a, k), Converted(env.host, a, v), b, c, fuel);
  }

  lemma AddrThen(m: Machine, code: seq<Instr>, rest: seq<Instr>, stack: seq<Val>, c: Cfg, fuel: nat, a: Arr, ev: EvalRes)
    requires AddrYields(m, code, stack, c, fuel, a, ev)
    ensures ev.EAbort? ==> ExecSeq(m, code + rest, stack, c, fuel) == Trapped(c.trace)
    ensures ev.EV? && ev.v.VI? && 0 <= ev.v.i < a.total ==>
              ExecSeq(m, code + rest, stack, c, fuel) == ExecSeq(m, rest, [VI(At(a, ev.v.i))] + stack, c, fuel)
  {
    ExecAppend(m, code, rest, stack, c, fuel);
  }

  lemma KeepsTables(env: Env, m: Machine, depth: nat, types: Types, ctx: Ctx, g: Gen, gF: Gen, st: State, c: Cfg, e: Expr)
    requires Ready(env, m, types, ctx, g, gF, st, c) && TypeOf(env, depth, ctx, e).Some?
    ensures ExprCode(env, depth, g, e).g == g
  {
    ExprKeepsTables(env, depth, types, ctx, g, e);
  }

  // The source's view of an element assignment whose index and right-hand side have been evaluated.
  function StoreResult(h: Host, st: State, name: string, op: Option<Op>, ik: EvalRes, ev: EvalRes): ExecRes
    requires name in st.arrs
  {
    match ik
    case EAbort => Abort(st.trace)
    case EWild => Wild
    case EV(k) =>
      var av := st.arrs[name];
      if !(k.VI? && 0 <= k.i < |av.vals|) then Wild
      else match NewValue(h, op, av.vals[k.i], ev)
        case EV(w) => Done(SetElem(st, name, k.i, Stored(h, av.ety, w)))
        case EAbort => Abort(st.trace)
        case EWild => Wild
  }

  lemma AssignElemMeaning(env: Env, depth: nat, st: State, target: Expr, rhs: Expr, op: Option<Op>)
    requires target.Index? && target.base.Name? && target.base.name in st.arrs && |target.indices| == 1
    requires op.Some? ==> WidthOf(rhs) <= 32 && (ElemSigned(st.arrs[target.base.name].ety) || !Sensitive(op.value))
    ensures ExecAssign(env, depth, st, target, rhs, op) ==
            StoreResult(env.host, st, target.base.name, op, Eval(env, depth, st, target.indices[0]), Eval(env, depth, st, rhs))
  {
  }

  // Address, then value, then store.
  lemma PlainElemRuns(env: Env, m: Machine, types: Types, ctx: Ctx, g: Gen, gF: Gen, st: State, c: Cfg,
                      name: string, ac: seq<Instr>, ik: EvalRes, vc: seq<Instr>, ev: EvalRes, vt: STy, fuel: nat)
    requires Rel(env, m, types, ctx, g, gF, st, c) && name in ctx.arrs && name in st.arrs
    requires st.arrs[name].ety == ctx.arrs[name].elem
    requires FindArr(g.arrays, name).Some? && |st.arrs[name].vals| == FindArr(g.arrays, name).value.total
    requires var a := FindArr(g.arrays, name).value;
             && AddrYields(m, ac, [], c, fuel, a, ik)
             && (forall p :: Yields(m, vc, [VI(p)], c, fuel, if a.wt == F64 then Promoted(env.host, ev) else ev))
    requires (ev.EV? ==> HasTy(ev.v, vt)) && Storable(ctx.arrs[name].elem, vt)
    ensures var a := FindArr(g.arrays, name).value;
            Sim(env, m, types, ctx, g, gF, ExecSeq(m, ac + (vc + [StoreOf(a)]), [], c, fuel),
                StoreResult(env.host, st, name, None, ik, ev))
  {
    hide At, Rel;
    var a := FindArr(g.arrays, name).value;
    assert c.trace == st.trace by { RelTrace(env, m, types, ctx, g, gF, st, c); }
    AddrThen(m, ac, vc + [StoreOf(a)], [], c, fuel, a, ik);
    if ik.EV? && ik.v.VI? && 0 <= ik.v.i < a.total {
      var p := At(a, ik.v.i);
      var pv := if a.wt == F64 then Promoted(env.host, ev) else ev;
      assert [VI(p)] + [] == [VI(p)];
      Then(m, vc, [StoreOf(a)], [VI(p)], c, fuel, pv);
      if ev.EV? {
        StoreInto(env, m, types, ctx, g, gF, st, c, name, ik.v.i, ev.v, vt, fuel);
        assert [pv.v] + [VI(p)] == [Converted(env.host, a, ev.v), VI(p)];
      }
    }
  }

  lemma RelTrace(env: Env, m: Machine, types: Types, ctx: Ctx, g: Gen, gF: Gen, st: State, c: Cfg)
    requires Rel(env, m, types, ctx, g, gF, st, c)
    ensures c.trace == st.trace
  {
  }

  // Address twice, load, value and operator, store.
  lemma CompoundElemRuns(env: Env, m: Machine, types: Types, ctx: Ctx, g: Gen, gF: Gen, st: State, c: Cfg,
                         name: string, ac: seq<Instr>, ik: EvalRes, oc: seq<Instr>, op: Op, ev: EvalRes, rt: STy, fuel: nat)
    requires Rel(env, m, types, ctx, g, gF, st, c) && name in ctx.arrs && name in st.arrs
    requires FindArr(g.arrays, name).Some? && ArrValOk(st.arrs[name], ctx.arrs[name])
    requires Storable(ctx.arrs[name].elem, rt) && (rt == SFloat || rt == SInt)
    requires var a := FindArr(g.arrays, name).value;
             && a in gF.arrays && Matches(a, ctx.arrs[name]) && ArrHolds(a, st.arrs[name].vals, c.mem)
             && (rt == SFloat <==> a.wt == F64)
             && (forall s :: AddrYields(m, ac, s, c, fuel, a, ik))
             && (forall cur, p :: HasElem(cur, ctx.arrs[name].elem) ==>
                   Combines(m, oc, cur, [VI(p)], c, fuel, NewValue(env.host, Some(op), cur, ev), rt))
    ensures var a := FindArr(g.arrays, name).value;
            Sim(env, m, types, ctx, g, gF, ExecSeq(m, ac + (ac + ([LoadOf(a)] + (oc + [StoreOf(a)]))), [], c, fuel),
                StoreResult(env.host, st, name, Some(op), ik, ev))
  {
    hide At, Rel;
    var a := FindArr(g.arrays, name).value;
    assert c.trace == st.trace by { RelTrace(env, m, types, ctx, g, gF, st, c); }
    var tail := [LoadOf(a)] + (oc + [StoreOf(a)]);
    AddrThen(m, ac, ac + tail, [], c, fuel, a, ik);
    if ik.EV? && ik.v.VI? && 0 <= ik.v.i < a.total {
      var k := ik.v.i;
      var p := At(a, k);
      assert [VI(p)] + [] == [VI(p)];
      AddrThen(m, ac, tail, [VI(p)], c, fuel, a, ik);
      LoadCombineStore(env, m, types, ctx, g, gF, st, c, name, k, oc, NewValue(env.host, Some(op), st.arrs[name].vals[k], ev), rt, fuel);
    }
  }

  lemma LoadCombineStore(env: Env, m: Machine, types: Types, ctx: Ctx, g: Gen, gF: Gen, st: State, c: Cfg,
                         name: string, k: int, oc: seq<Instr>, nv: EvalRes, rt: STy, fuel: nat)
    requires Rel(env, m, types, ctx, g, gF, st, c) && name in ctx.arrs && name in st.arrs
    requires FindArr(g.arrays, name).Some? && ArrValOk(st.arrs[name], ctx.arrs[name])
    requires Storable(ctx.arrs[name].elem, rt) && (rt == SFloat || rt == SInt)
    requires var a := FindArr(g.arrays, name).value;
             && a in gF.arrays && Matches(a, ctx.arrs[name]) && ArrHolds(a, st.arrs[name].vals, c.mem)
             && (rt == SFloat <==> a.wt == F64) && 0 <= k < a.total
             && Combines(m, oc, st.arrs[name].vals[k], [VI(At(a, k))], c, fuel, nv, rt)
    ensures var a := FindArr(g.arrays, name).value;
            var r := ExecSeq(m, [LoadOf(a)] + (oc + [StoreOf(a)]), [VI(At(a, k))] + [VI(At(a, k))], c, fuel);
            match nv
            case EV(w) => Sim(env, m, types, ctx, g, gF, r,
                              Done(SetElem(st, name, k, Stored(env.host, st.arrs[name].ety, w))))
            case EAbort => r == Trapped(c.trace)
            case EWild => true
  {
    hide At, Rel;
    var a := FindArr(g.arrays, name).value;
    var p := At(a, k);
    var cur := st.arrs[name].vals[k];
    RelLayout(env, m, types, ctx, g, gF, st, c);
    LoadRuns(m, gF, a, ctx.arrs[name], k, cur, [VI(p)], c, fuel);
    StepFirst(m, LoadOf(a), oc + [StoreOf(a)], [VI(p)] + [VI(p)], c, fuel);
    ExecAppend(m, oc, [StoreOf(a)], [cur] + [VI(p)], c, fuel);
    if nv.EV? {
      StoreInto(env, m, types, ctx, g, gF, st, c, name, k, nv.v, rt, fuel);
      assert Converted(env.host, a, nv.v) == nv.v;
      assert [nv.v] + [VI(p)] == [nv.v, VI(p)];
    }
  }

  lemma RelLayout(env: Env, m: Machine, types: Types, ctx: Ctx, g: Gen, gF: Gen, st: State, c: Cfg)
    requires Rel(env, m, types, ctx, g, gF, st, c)
    ensures LayoutOk(gF) && gF.cursor <= MEM_BYTES
  {
  }

  lemma AssignElemRuns(env: Env, m: Machine, depth: nat, types: Types, ctx: Ctx, g: Gen, gF: Gen, st: State, c: Cfg,
                       target: Expr, rhs: Expr, op: Option<Op>, fuel: nat)
    requires Rel(env, m, types, ctx, g, gF, st, c) && OkAssign(env, depth, ctx, target, rhs, op) && target.Index?
    ensures var o := AssignCode(env, depth, g, target, rhs, op);
            Sim(env, m, types, ctx, g, gF, ExecSeq(m, o.code, [], c, fuel), ExecAssign(env, depth, st, target, rhs, op))
  {
    hide At, Ready, Sim, Yields, Combines, AddrYields;
    var name, idx := target.base.name, target.indices[0];
    ArrayReady(env, m, types, ctx, g, gF, st, c, name);
    var a := FindArr(g.arrays, name).value;
    var vt := TypeOf(env, depth, ctx, rhs).value;
    var elem := ctx.arrs[name].elem;
    var ik, ev := Eval(env, depth, st, idx), Eval(env, depth, st, rhs);
    var ac := AddrCode(env, depth, g, a, idx).code;
    AssignElemMeaning(env, depth, st, target, rhs, op);
    AssignElemCode(env, m, depth, types, ctx, g, gF, st, c, target, rhs, op);
    forall s ensures AddrYields(m, ac, s, c, fuel, a, ik) {
      IndexAddr(env, m, depth, types, ctx, g, gF, st, c, a, idx, s, fuel);
    }
    ValueRuns(env, m, depth, types, ctx, g, gF, st, c, rhs, a.wt, [], fuel);
    var vc := ValueCode(env, depth, g, a.wt, rhs).code;
    if op.None? {
      forall p ensures Yields(m, vc, [VI(p)], c, fuel, if a.wt == F64 then Promoted(env.host, ev) else ev) {
        ValueRuns(env, m, depth, types, ctx, g, gF, st, c, rhs, a.wt, [VI(p)], fuel);
      }
      PlainElemRuns(env, m, types, ctx, g, gF, st, c, name, ac, ik, vc, ev, vt, fuel);
    } else {
      var rt := if elem.EFloat? then SFloat else SInt;
      var oc := vc + OpCode(a.wt, op.value);
      forall cur, p | HasElem(cur, elem)
        ensures Combines(m, oc, cur, [VI(p)], c, fuel, NewValue(env.host, Some(op.value), cur, ev), rt)
      {
        ElemHasTy(cur, elem);
        CompoundRuns(env, m, depth, types, ctx, g, gF, st, c, rhs, op.value, cur, ElemSTy(elem), [VI(p)], fuel);
      }
      CompoundElemRuns(env, m, types, ctx, g, gF, st, c, name, ac, ik, oc, op.value, ev, rt, fuel);
    }
  }

  // The shape of the generated code, the tables staying as they are.
  lemma AssignElemCode(env: Env, m: Machine, depth: nat, types: Types, ctx: Ctx, g: Gen, gF: Gen, st: State, c: Cfg,
                       target: Expr, rhs: Expr, op: Option<Op>)
    requires Ready(env, m, types, ctx, g, gF, st, c) && OkAssign(env, depth, ctx, target, rhs, op) && target.Index?
    requires FindArr(g.arrays, target.base.name).Some?
    ensures var a := FindArr(g.arrays, target.base.name).value;
            var ac := AddrCode(env, depth, g, a, target.indices[0]).code;
            var vc := ValueCode(env, depth, g, a.wt, rhs).code;
            AssignCode(env, depth, g, target, rhs, op).code ==
            match op
            case None => ac + (vc + [StoreOf(a)])
            case Some(o) => ac + (ac + ([LoadOf(a)] + ((vc + OpCode(a.wt, o)) + [StoreOf(a)])))
  {
    hide Ready, ExprCode, FloatCode, TypeOf;
    var a := FindArr(g.arrays, target.base.name).value;
    KeepsTables(env, m, depth, types, ctx, g, gF, st, c, target.indices[0]);
    var ac := AddrCode(env, depth, g, a, target.indices[0]).code;
    var vc := ValueCode(env, depth, g, a.wt, rhs).code;
    assert AddrCode(env, depth, g, a, target.indices[0]) == Out(ac, g);
    match op
    case None => Regroup3(ac, vc, [StoreOf(a)]);
    case Some(o) =>
      assert AssignCode(env, depth, g, target, rhs, op).code ==
             ac + ac + [LoadOf(a)] + vc + OpCode(a.wt, o) + [StoreOf(a)];
      Regroup6(ac, ac, [LoadOf(a)], vc, OpCode(a.wt, o), [StoreOf(a)]);
  }

  lemma Regroup3(a: seq<Instr>, b: seq<Instr>, c: seq<Instr>)
    ensures a + b + c == a + (b + c)
  {
  }

  lemma Regroup6(a: seq<Instr>, b: seq<Instr>, c: seq<Instr>, d: seq<Instr>, e: seq<Instr>, f: seq<Instr>)
    ensures a + b + c + d + e + f == a + (b + (c + ((d + e) + f)))
  {
  }

  // ---- array declarations ----

  // Typing survives the addition of names.
  lemma {:induction false} TypeWeakens(env: Env, depth: nat, small: Ctx, big: Ctx, e: Expr)
    requires forall x :: x in small.vars ==> x in big.vars && big.vars[x] == small.vars[x]
    requires forall a :: a in small.arrs ==> a in big.arrs && big.arrs[a] == small.arrs[a]
    requires TypeOf(env, depth, small, e).Some?
    ensures TypeOf(env, depth, big, e) == TypeOf(env, depth, small, e)
    decreases depth, e
  {
    match e
    case Name(nm, _) =>
      if FindConst(env.consts, nm).Some? {
        TypeWeakens(env, depth - 1, Ctx(map[], map[], small.seen), Ctx(map[], map[], big.seen), FindConst(env.consts, nm).value);
      }
    case Binary(op, l, r, _) =>
      TypeWeakens(env, depth, small, big, l);
      TypeWeakens(env, depth, small, big, r);
    case Index(base, indices, _) =>
      TypeWeakens(env, depth, small, big, indices[0]);
    case _ =>
  }

  lemma ElementsWeaken(env: Env, depth: nat, small: Ctx, big: Ctx, e: ETy, elements: seq<Expr>)
    requires forall x :: x in small.vars ==> x in big.vars && big.vars[x] == small.vars[x]
    requires forall a :: a in small.arrs ==> a in big.arrs && big.arrs[a] == small.arrs[a]
    requires ElementsOk(env, depth, small, e, elements)
    ensures ElementsOk(env, depth, big, e, elements)
  {
    forall i | 0 <= i < |elements|
      ensures TypeOf(env, depth, big, elements[i]) == TypeOf(env, depth, small, elements[i])
    {
      TypeWeakens(env, depth, small, big, elements[i]);
    }
  }

  // A declared array starts out as zeros.
  lemma ArrayDeclared(env: Env, m: Machine, types: Types, ctx: Ctx, g: Gen, gF: Gen, st: State, c: Cfg,
                      name: string, t: HType)
    requires Rel(env, m, types, ctx, g, gF, st, c) && ArrayTy(t).Some?
    requires name !in ctx.seen && |ctx.seen| < MAX_ARRAYS && Grows(DeclareArr(g, name, t).1, gF)
    ensures var at := ArrayTy(t).value;
            Rel(env, m, types, Ctx(ctx.vars, ctx.arrs[name := ATy(at.0, at.1)], ctx.seen + {name}),
                DeclareArr(g, name, t).1, gF,
                st.(arrs := st.arrs[name := AVal(at.0, seq(at.1, i => ZeroOf(at.0)))]), c)
  {
    hide LayoutOk, VarsRel, PoolOk;
    var at := ArrayTy(t).value;
    var d := DeclareArr(g, name, t);
    DeclareOk(env, types, ctx, g, name, t);
    var a := d.0.value;
    FindArrStable(d.1.arrays, gF.arrays, name);
    DeclaredInFreeMemory(env, m, types, ctx, g, gF, st, c, name, t);
    var zeros := AVal(at.0, seq(at.1, i => ZeroOf(at.0)));
    assert seq(ATy(at.0, at.1).total, i => ZeroOf(ATy(at.0, at.1).elem)) == zeros.vals;
    AddedArray(ctx, gF, st, c, name, a, ATy(at.0, at.1), zeros);
  }

  lemma AddedArray(ctx: Ctx, gF: Gen, st: State, c: Cfg, name: string, a: Arr, t: ATy, av: AVal)
    requires StOk(ctx, st) && ArrsRel(gF.arrays, st.arrs, c.mem)
    requires FindArr(gF.arrays, name) == Some(a) && ArrHolds(a, av.vals, c.mem) && ArrValOk(av, t)
    ensures StOk(Ctx(ctx.vars, ctx.arrs[name := t], ctx.seen + {name}), st.(arrs := st.arrs[name := av]))
    ensures ArrsRel(gF.arrays, st.arrs[name := av], c.mem)
  {
    assert st.arrs[name := av].Keys == ctx.arrs[name := t].Keys;
  }

  lemma DeclaredInFreeMemory(env: Env, m: Machine, types: Types, ctx: Ctx, g: Gen, gF: Gen, st: State, c: Cfg,
                             name: string, t: HType)
    requires Rel(env, m, types, ctx, g, gF, st, c) && ArrayTy(t).Some?
    requires name !in ctx.seen && |ctx.seen| < MAX_ARRAYS && Grows(DeclareArr(g, name, t).1, gF)
    ensures var at := ArrayTy(t).value;
            var d := DeclareArr(g, name, t);
            && d.0.Some? && ArrHolds(d.0.value, seq(at.1, i => ZeroOf(at.0)), c.mem)
            && FreeZero(d.1.cursor, c.mem)
  {
    hide ArrsRel, VarsRel, PoolOk, StOk;
    var at := ArrayTy(t).value;
    DeclareShape(g, name, t);
    var a := DeclareArr(g, name, t).0.value;
    FreshArray(a, ATy(at.0, at.1), c.mem);
    assert seq(ATy(at.0, at.1).total, i => ZeroOf(ATy(at.0, at.1).elem)) == seq(at.1, i => ZeroOf(at.0));
  }

  // One element: address, value, store.
  lemma ElementRuns(env: Env, m: Machine, depth: nat, types: Types, ctx: Ctx, g: Gen, gF: Gen, st: State, c: Cfg,
                    name: string, e: Expr, k: nat, fuel: nat)
    requires Rel(env, m, types, ctx, g, gF, st, c) && name in ctx.arrs && FindArr(g.arrays, name).Some?
    requires TypeOf(env, depth, ctx, e).Some? && Storable(ctx.arrs[name].elem, TypeOf(env, depth, ctx, e).value)
    requires k < FindArr(g.arrays, name).value.total
    ensures name in st.arrs && k < |st.arrs[name].vals| && st.arrs[name].ety == ctx.arrs[name].elem
    ensures var a := FindArr(g.arrays, name).value;
            var r := ExecSeq(m, [Const(At(a, k))] + (ValueCode(env, depth, g, a.wt, e).code + [StoreOf(a)]), [], c, fuel);
            match Eval(env, depth, st, e)
            case EV(v) => Sim(env, m, types, ctx, g, gF, r,
                              Done(SetElem(st, name, k, Stored(env.host, ctx.arrs[name].elem, v))))
            case EAbort => r == Trapped(c.trace)
            case EWild => true
  {
    hide At, Sim, Yields, CtxOk, StOk, LayoutOk, VarsRel, ArrsRel, PoolOk, FreeZero, Eval, ExprCode, FloatCode;
    var a := FindArr(g.arrays, name).value;
    ArrayReady(env, m, types, ctx, g, gF, st, c, name);
    var p := At(a, k);
    var vc := ValueCode(env, depth, g, a.wt, e).code;
    var ev := Eval(env, depth, st, e);
    ValueRuns(env, m, depth, types, ctx, g, gF, st, c, e, a.wt, [VI(p)], fuel);
    StepFirst(m, Const(p), vc + [StoreOf(a)], [], c, fuel);
    assert [VI(p)] + [] == [VI(p)];
    var pv := if a.wt == F64 then Promoted(env.host, ev) else ev;
    Then(m, vc, [StoreOf(a)], [VI(p)], c, fuel, pv);
    if ev.EV? {
      StoreInto(env, m, types, ctx, g, gF, st, c, name, k, ev.v, TypeOf(env, depth, ctx, e).value, fuel);
      assert [pv.v] + [VI(p)] == [Converted(env.host, a, ev.v), VI(p)];
    }
  }

  lemma {:induction false} ElementsRun(env: Env, m: Machine, depth: nat, types: Types, ctx: Ctx, g: Gen, gF: Gen,
                                       st: State, c: Cfg, name: string, elements: seq<Expr>, k: nat, fuel: nat)
    requires Rel(env, m, types, ctx, g, gF, st, c) && name in ctx.arrs && FindArr(g.arrays, name).Some?
    requires ElementsOk(env, depth, ctx, ctx.arrs[name].elem, elements)
    requires k + |elements| <= FindArr(g.arrays, name).value.total
    ensures var a := FindArr(g.arrays, name).value;
            Sim(env, m, types, ctx, g, gF, ExecSeq(m, ElementsCode(env, depth, g, a, elements, k).code, [], c, fuel),
                InitElems(env, depth, st, name, elements, k))
    decreases |elements|
  {
    hide At, Rel, Eval, ExprCode, FloatCode, ValueCode, ExecSeq, ExecInstr, ElementsCode, TypeOf, Stored, InitElems;
    hide Storable, StoreOf, FindArr;
    if elements == [] {
      NoElements(env, m, depth, types, ctx, g, gF, st, c, name, k, fuel);
    } else {
      var a := FindArr(g.arrays, name).value;
      var e := elements[0];
      assert TypeOf(env, depth, ctx, e).Some?;
      RelTrace(env, m, types, ctx, g, gF, st, c);
      RelReady(env, m, types, ctx, g, gF, st, c);
      ElementRuns(env, m, depth, types, ctx, g, gF, st, c, name, e, k, fuel);
      var head := [Const(At(a, k))] + (ValueCode(env, depth, g, a.wt, e).code + [StoreOf(a)]);
      var tail := ElementsCode(env, depth, g, a, elements[1..], k + 1).code;
      var r := ExecSeq(m, head, [], c, fuel);
      var ev := Eval(env, depth, st, e);
      var rest := Wild;
      if ev.EV? {
        var st' := SetElem(st, name, k, Stored(env.host, ctx.arrs[name].elem, ev.v));
        rest := InitElems(env, depth, st', name, elements[1..], k + 1);
        ElementsRun(env, m, depth, types, ctx, g, gF, st', r.c, name, elements[1..], k + 1, fuel);
      }
      ElementsSplit(env, m, depth, types, ctx, g, gF, st, c, a, elements, k);
      InitElemsStep(env, depth, st, name, elements, k);
      EvalThenRest(env, m, types, ctx, g, gF, head, tail, c, fuel, ev, st.trace, rest);
    }
  }

  // Code for one evaluation and its effect, then the rest.
  lemma EvalThenRest(env: Env, m: Machine, types: Types, ctx: Ctx, g: Gen, gF: Gen, head: seq<Instr>, tail: seq<Instr>,
                     c: Cfg, fuel: nat, ev: EvalRes, trace: seq<Event>, rest: ExecRes)
    requires var r := ExecSeq(m, head, [], c, fuel);
             match ev
             case EV(_) => r.Next? && r.stack == [] && Sim(env, m, types, ctx, g, gF, ExecSeq(m, tail, [], r.c, fuel), rest)
             case EAbort => r == Trapped(trace)
             case EWild => true
    ensures Sim(env, m, types, ctx, g, gF, ExecSeq(m, head + tail, [], c, fuel),
                match ev case EV(_) => rest case EAbort => Abort(trace) case EWild => Wild)
  {
    hide Rel;
    ExecAppend(m, head, tail, [], c, fuel);
  }

  lemma NoElements(env: Env, m: Machine, depth: nat, types: Types, ctx: Ctx, g: Gen, gF: Gen, st: State, c: Cfg,
                   name: string, k: nat, fuel: nat)
    requires Rel(env, m, types, ctx, g, gF, st, c) && FindArr(g.arrays, name).Some?
    ensures var a := FindArr(g.arrays, name).value;
            Sim(env, m, types, ctx, g, gF, ExecSeq(m, ElementsCode(env, depth, g, a, [], k).code, [], c, fuel),
                InitElems(env, depth, st, name, [], k))
  {
    hide Rel;
  }

  lemma RelReady(env: Env, m: Machine, types: Types, ctx: Ctx, g: Gen, gF: Gen, st: State, c: Cfg)
    requires Rel(env, m, types, ctx, g, gF, st, c)
    ensures Ready(env, m, types, ctx, g, gF, st, c)
  {
  }

  lemma InitElemsStep(env: Env, depth: nat, st: State, name: string, elements: seq<Expr>, k: nat)
    requires elements != []
    ensures InitElems(env, depth, st, name, elements, k) ==
            match Eval(env, depth, st, elements[0])
            case EAbort => Abort(st.trace)
            case EWild => Wild
            case EV(v) =>
              if name in st.arrs && k < |st.arrs[name].vals| then
                InitElems(env, depth, SetElem(st, name, k, Stored(env.host, st.arrs[name].ety, v)), name, elements[1..], k + 1)
              else Wild
  {
  }

  lemma ElementsSplit(env: Env, m: Machine, depth: nat, types: Types, ctx: Ctx, g: Gen, gF: Gen, st: State, c: Cfg,
                      a: Arr, elements: seq<Expr>, k: nat)
    requires Ready(env, m, types, ctx, g, gF, st, c) && elements != [] && k < a.total
    requires TypeOf(env, depth, ctx, elements[0]).Some?
    ensures ElementsCode(env, depth, g, a, elements, k).code ==
            ([Const(At(a, k))] + (ValueCode(env, depth, g, a.wt, elements[0]).code + [StoreOf(a)]))
            + ElementsCode(env, depth, g, a, elements[1..], k + 1).code
  {
    hide Ready, ExprCode, TypeOf;
    KeepsTables(env, m, depth, types, ctx, g, gF, st, c, elements[0]);
    var vc := ValueCode(env, depth, g, a.wt, elements[0]);
    assert vc.g == g;
    var tail := ElementsCode(env, depth, g, a, elements[1..], k + 1).code;
    assert [Const(At(a, k))] + vc.code + [StoreOf(a)] + tail ==
           ([Const(At(a, k))] + (vc.code + [StoreOf(a)])) + tail;
  }

  lemma BindArrayRuns(env: Env, m: Machine, depth: nat, types: Types, ctx: Ctx, g: Gen, gF: Gen, st: State, c: Cfg,
                      inLoop: bool, name: string, declared: Option<HType>, value: Option<Expr>, fuel: nat)
    requires Rel(env, m, types, ctx, g, gF, st, c) && BindArrayType(declared, value).Some?
    requires OkBind(env, depth, types, ctx, inLoop, name, declared, value).Some?
    requires Grows(BindCode(env, depth, g, name, declared, value).g, gF)
    ensures var o := BindCode(env, depth, g, name, declared, value);
            Sim(env, m, types, OkBind(env, depth, types, ctx, inLoop, name, declared, value).value, o.g, gF,
                ExecSeq(m, o.code, [], c, fuel), ExecBind(env, depth, st, name, declared, value))
  {
    hide Ready, FreeZero, PoolOk, ElementsCode, ExprCode, TypeOf;
    var t := BindArrayType(declared, value).value;
    var at := ArrayTy(t).value;
    var d := DeclareArr(g, name, t);
    var ctx' := OkBind(env, depth, types, ctx, inLoop, name, declared, value).value;
    RelCtx(env, m, types, ctx, g, gF, st, c);
    DeclareOk(env, types, ctx, g, name, t);
    assert name !in ctx.arrs by { ArrsAreSeen(env, m, types, ctx, g, gF, st, c, name); }
    if value.Some? {
      ElementsWeaken(env, depth, ctx, ctx', at.0, value.value.elements);
      ElementsKeepTables(env, depth, types, ctx', d.1, d.0.value, at.0, value.value.elements, 0);
    }
    ArrayDeclared(env, m, types, ctx, g, gF, st, c, name, t);
    if value.Some? {
      var zeroed := st.(arrs := st.arrs[name := AVal(at.0, seq(at.1, i => ZeroOf(at.0)))]);
      ElementsRun(env, m, depth, types, ctx', d.1, gF, zeroed, c, name, value.value.elements, 0, fuel);
    }
  }

  lemma RelCtx(env: Env, m: Machine, types: Types, ctx: Ctx, g: Gen, gF: Gen, st: State, c: Cfg)
    requires Rel(env, m, types, ctx, g, gF, st, c)
    ensures CtxOk(env, types, ctx, g) && Grows(g, gF)
  {
  }

  lemma ArrsAreSeen(env: Env, m: Machine, types: Types, ctx: Ctx, g: Gen, gF: Gen, st: State, c: Cfg, name: string)
    requires Rel(env, m, types, ctx, g, gF, st, c) && name !in ctx.seen
    ensures name !in ctx.arrs
  {
    forall a | a in ctx.arrs
      ensures a in ctx.seen
    {
      assert FindArr(g.arrays, a).value in g.arrays;
    }
  }
}

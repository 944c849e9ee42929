// Generated expression code computes the expression's value: it pushes exactly that value and touches nothing
// else, and traps exactly where the source aborts.
module WasmExprSim {
  import opened Bytes
  import opened WasmInstr
  import opened Values
  import opened IntLiterals
  import opened Hir
  import opened WasmGen
  import opened HirSem
  import opened Fragment
  import opened WasmTables
  import opened WasmExec

  // ---- values of a type ----

  predicate HasTy(v: Val, t: STy) {
    match t
    case SInt => v.VI? && InI32(v.i)
    case SBool => v == VI(0) || v == VI(1)
    case SChar => v.VI? && 0 <= v.i < 256
    case SFloat => v.VF?
  }

  predicate HasElem(v: Val, e: ETy) {
    match e
    case EFloat => v.VF?
    case EBool => v == VI(0) || v == VI(1)
    case EChar => v.VI? && 0 <= v.i < 256
    case EInt(_, _) => v.VI? && InI32(v.i) && Narrow(e, v.i) == v.i
  }

  ghost predicate StOk(ctx: Ctx, st: State) {
    && st.vars.Keys == ctx.vars.Keys
    && (forall x :: x in st.vars ==> HasTy(st.vars[x], ctx.vars[x]))
    && st.arrs.Keys == ctx.arrs.Keys
    && (forall a :: a in st.arrs ==> ArrValOk(st.arrs[a], ctx.arrs[a]))
  }

  predicate ArrValOk(av: AVal, t: ATy) {
    av.ety == t.elem && |av.vals| == t.total && forall k :: 0 <= k < |av.vals| ==> HasElem(av.vals[k], t.elem)
  }

  // ---- the machine holds the source state ----

  ghost predicate VarsRel(locals: seq<Local>, vars: map<string, Val>, frame: seq<Val>) {
    && |frame| == |locals|
    && forall x :: x in vars ==> FindLocal(locals, x).Some? && frame[FindLocal(locals, x).value] == vars[x]
  }

  function At(a: Arr, k: int): int { a.base + k * a.size }

  // Element k of array a, as its load instruction reads it.
  predicate ElemIs(a: Arr, mem: Mem, k: int, v: Val) {
    var op := LoadOf(a).lop;
    InMem(mem, At(a, k), LoadSize(op)) && LoadValue(op, Read(mem, At(a, k), LoadSize(op))) == v
  }

  predicate ArrHolds(a: Arr, vals: seq<Val>, mem: Mem) {
    |vals| == a.total && forall k :: 0 <= k < |vals| ==> ElemIs(a, mem, k, vals[k])
  }

  ghost predicate ArrsRel(arrays: seq<Arr>, arrs: map<string, AVal>, mem: Mem) {
    forall x :: x in arrs ==> FindArr(arrays, x).Some? && ArrHolds(FindArr(arrays, x).value, arrs[x].vals, mem)
  }

  // Everything an expression's code depends on; gF are the tables of the finished program.
  ghost predicate Ready(env: Env, m: Machine, types: Types, ctx: Ctx, g: Gen, gF: Gen, st: State, c: Cfg) {
    && CtxOk(env, types, ctx, g) && Grows(g, gF) && LayoutOk(gF) && gF.cursor <= MEM_BYTES
    && m == Machine(env.host, env.fPrint, env.fPrintf) && env.fPrint != env.fPrintf
    && StOk(ctx, st) && |c.mem| == MEM_BYTES
    && VarsRel(gF.locals, st.vars, c.locals) && ArrsRel(gF.arrays, st.arrs, c.mem)
  }

  lemma ReadyClosed(env: Env, m: Machine, types: Types, ctx: Ctx, g: Gen, gF: Gen, st: State, c: Cfg)
    requires Ready(env, m, types, ctx, g, gF, st, c)
    ensures Ready(env, m, types, Ctx(map[], map[], ctx.seen), g, gF, NO_LOCALS, c)
  {
    CtxNarrow(env, types, ctx, g, Ctx(map[], map[], ctx.seen));
  }

  // Code that evaluates to r: pushes its value, or traps where it aborts.
  predicate Yields(m: Machine, code: seq<Instr>, stack: seq<Val>, c: Cfg, fuel: nat, r: EvalRes) {
    match r
    case EV(v) => ExecSeq(m, code, stack, c, fuel) == Next([v] + stack, c)
    case EAbort => ExecSeq(m, code, stack, c, fuel) == Trapped(c.trace)
    case EWild => true
  }

  // ---- numeric instructions ----

  lemma NumAgrees(op: Op, a: int, b: int)
    requires Arith(op) || Compare(op)
    ensures match SignedOp(op, a, b)
            case EV(v) => NumI(BinopI(op), a, b) == NVal(v)
            case EAbort => NumI(BinopI(op), a, b) == NTrap
            case EWild => true
  {
  }

  lemma FloatAgrees(h: Host, op: Op, a: F64Bits, b: F64Bits)
    requires (Arith(op) || Compare(op)) && op != Mod
    ensures FloatOp(h, op, a, b).EV? && NumF(h, BinopF(op), a, b) == NVal(FloatOp(h, op, a, b).v)
  {
  }

  lemma TypedResult(h: Host, op: Op, sgn: bool, a: Val, b: Val, ta: STy, tb: STy, t: STy)
    requires HasTy(a, ta) && HasTy(b, tb) && op != And && op != Or && TypeBin(op, ta, tb, true) == Some(t)
    ensures BinVal(h, op, sgn, a, b).EV? ==> HasTy(BinVal(h, op, sgn, a, b).v, t)
  {
    if !a.VF? && !b.VF? && op == Mod && b.i != 0 {
      RemInRange(a.i, b.i);
    }
  }

  // One binary opcode on two typed operands.
  lemma BinopRuns(m: Machine, op: Op, a: Val, b: Val, ta: STy, tb: STy, stack: seq<Val>, c: Cfg)
    requires HasTy(a, ta) && HasTy(b, tb) && op != And && op != Or && TypeBin(op, ta, tb, true).Some?
    ensures var isf := ta == SFloat || tb == SFloat;
            var x := if isf then VF(ToFloat(m.host, a)) else a;
            var y := if isf then VF(ToFloat(m.host, b)) else b;
            var r := ExecNum(m, if isf then BinopF(op) else BinopI(op), [y, x] + stack, c);
            match BinVal(m.host, op, true, a, b)
            case EV(v) => r == Next([v] + stack, c)
            case EAbort => r == Trapped(c.trace)
            case EWild => true
  {
    var isf := ta == SFloat || tb == SFloat;
    var x := if isf then VF(ToFloat(m.host, a)) else a;
    var y := if isf then VF(ToFloat(m.host, b)) else b;
    assert ([y, x] + stack)[2..] == stack;
    if isf {
      FloatAgrees(m.host, op, x.f, y.f);
    } else {
      NumAgrees(op, a.i, b.i);
    }
  }

  lemma LogicRuns(m: Machine, op: Op, a: Val, b: Val, stack: seq<Val>, c: Cfg)
    requires HasTy(a, SBool) && HasTy(b, SBool) && (op == And || op == Or)
    ensures ExecNum(m, BinopI(op), [b, a] + stack, c) ==
            Next([VI(Bit(if op == And then a.i != 0 && b.i != 0 else a.i != 0 || b.i != 0))] + stack, c)
  {
    hide BitAnd, BitOr, Wrap32, Unsigned32;
    assert ([b, a] + stack)[2..] == stack;
    BitsAreLogical(a.i, b.i);
  }

  // ---- code in sequence ----

  // Operand code followed by more code.
  lemma Then(m: Machine, code: seq<Instr>, rest: seq<Instr>, stack: seq<Val>, c: Cfg, fuel: nat, r: EvalRes)
    requires Yields(m, code, stack, c, fuel, r)
    ensures r.EV? ==> ExecSeq(m, code + rest, stack, c, fuel) == ExecSeq(m, rest, [r.v] + stack, c, fuel)
    ensures r.EAbort? ==> ExecSeq(m, code + rest, stack, c, fuel) == Trapped(c.trace)
  {
    ExecAppend(m, code, rest, stack, c, fuel);
  }

  lemma StepFirst(m: Machine, i: Instr, rest: seq<Instr>, stack: seq<Val>, c: Cfg, fuel: nat)
    ensures ExecSeq(m, [i] + rest, stack, c, fuel) == Continue(m, ExecInstr(m, i, stack, c, fuel), rest, fuel)
  {
    assert ([i] + rest)[1..] == rest;
  }

  // ---- literals ----

  lemma LiteralAgrees(h: Host, lx: string, ty: HType, t: STy)
    requires TypeLit(lx, ty) == Some(t)
    ensures LitVal(h, lx, ty).EV? && HasTy(LitVal(h, lx, ty).v, t)
    ensures LiteralCode(h, lx, ty) ==
            (match LitVal(h, lx, ty).v case VI(n) => Const(n) case VF(f) => FConst(f))
  {
    if ty.TFloat? {
    } else if ty.TChar? {
      CharsAgree(lx);
    } else if lx != "true" && lx != "false" {
      if IsIntLexeme(lx) && LexemeValue(lx) < I32_LIMIT && |Strip(lx)| <= 79 {
        DecodersAgree(lx);
      } else {
        FoldedConstantsRoundTrip(IntLit(lx).value);
      }
    }
  }

  // The two readers of an ASCII char token agree exactly when the token is not '\0'.
  lemma CharsAgree(lx: string)
    requires CharLit(lx).Some? && CharLit(lx).value < 128
    ensures ParseChar(lx) == CharLit(lx).value <==> !(|lx| == 4 && lx[2] == '0')
    ensures CharLit(lx).value >= 0
  {
    var p := lx[1..];
    if |lx| == 4 {
      assert p[1] == lx[2];
    }
  }

  // ---- elements ----

  lemma Scaled(k: int, j: int, n: int)
    requires k < j && n >= 0
    ensures k * n + n <= j * n
  {
    assert (j - k - 1) * n >= 0;
    assert (j - k - 1) * n == j * n - k * n - n;
  }

  lemma ElementAddress(g: Gen, a: Arr, k: int)
    requires LayoutOk(g) && g.cursor <= MEM_BYTES && a in g.arrays && 0 <= k < a.total
    ensures ARRAYS_BASE <= a.base <= At(a, k) && At(a, k) + a.size <= End(a) <= MEM_BYTES && a.size >= 1
    ensures 0 <= k * a.size <= MEM_BYTES
  {
    Scaled(k, a.total, a.size);
    Scaled(-1, k, a.size);
  }

  lemma LoadWidth(a: Arr, t: ATy)
    requires Matches(a, t)
    ensures LoadSize(LoadOf(a).lop) == a.size
  {
  }

  lemma ElemHasTy(v: Val, e: ETy)
    requires HasElem(v, e)
    ensures HasTy(v, ElemSTy(e))
  {
  }

  // Code that leaves the address of the element the index names, if it names one.
  predicate AddrYields(m: Machine, code: seq<Instr>, stack: seq<Val>, c: Cfg, fuel: nat, a: Arr, ev: EvalRes) {
    var r := ExecSeq(m, code, stack, c, fuel);
    && (ev.EAbort? ==> r == Trapped(c.trace))
    && (ev.EV? && ev.v.VI? && 0 <= ev.v.i < a.total ==> r == Next([VI(At(a, ev.v.i))] + stack, c))
  }

  // base + index * size, given what the index's code does on top of the base.
  lemma AddrRuns(env: Env, m: Machine, depth: nat, g: Gen, gF: Gen, c: Cfg, a: Arr, idx: Expr, ev: EvalRes,
                 stack: seq<Val>, fuel: nat)
    requires LayoutOk(gF) && gF.cursor <= MEM_BYTES && a in gF.arrays
    requires Yields(m, ExprCode(env, depth, g, idx).code, [VI(a.base)] + stack, c, fuel, ev)
    ensures AddrYields(m, AddrCode(env, depth, g, a, idx).code, stack, c, fuel, a, ev)
  {
    hide At, End, LayoutOk, ExprCode, ExecSeq;
    var io := ExprCode(env, depth, g, idx).code;
    var scale := if a.size != 1 then [Const(a.size), Num(0x6c)] else [];
    var tail := scale + [Num(0x6a)];
    assert AddrCode(env, depth, g, a, idx).code == [Const(a.base)] + (io + tail);
    StepFirst(m, Const(a.base), io + tail, stack, c, fuel);
    var s1 := [VI(a.base)] + stack;
    Then(m, io, tail, s1, c, fuel, ev);
    if ev.EV? && ev.v.VI? && 0 <= ev.v.i < a.total {
      ElementAddress(gF, a, ev.v.i);
      ScaleAndAdd(m, a, ev.v.i, stack, c, fuel);
      assert [ev.v] + s1 == [VI(ev.v.i), VI(a.base)] + stack;
    }
  }

  lemma ScaleAndAdd(m: Machine, a: Arr, k: int, stack: seq<Val>, c: Cfg, fuel: nat)
    requires 0 <= k * a.size <= MEM_BYTES && 0 <= a.base <= MEM_BYTES && 0 <= At(a, k) <= MEM_BYTES
    ensures var tail := (if a.size != 1 then [Const(a.size), Num(0x6c)] else []) + [Num(0x6a)];
            ExecSeq(m, tail, [VI(k), VI(a.base)] + stack, c, fuel) == Next([VI(At(a, k))] + stack, c)
  {
    WrapIdentity(k * a.size);
    WrapIdentity(At(a, k));
    var s := [VI(k), VI(a.base)] + stack;
    var s2 := [VI(k * a.size), VI(a.base)] + stack;
    if a.size != 1 {
      var tail := [Const(a.size)] + ([Num(0x6c)] + [Num(0x6a)]);
      assert [Const(a.size), Num(0x6c)] + [Num(0x6a)] == tail;
      StepFirst(m, Const(a.size), [Num(0x6c)] + [Num(0x6a)], s, c, fuel);
      var s1 := [VI(a.size)] + s;
      assert s1[2..] == [VI(a.base)] + stack;
      assert [VI(k * a.size)] + s1[2..] == s2;
      StepFirst(m, Num(0x6c), [Num(0x6a)], s1, c, fuel);
    } else {
      assert [] + [Num(0x6a)] == [Num(0x6a)];
      assert s == s2;
    }
    assert s2[2..] == stack;
    ExecOne(m, Num(0x6a), s2, c, fuel);
  }

  lemma LoadRuns(m: Machine, g: Gen, a: Arr, t: ATy, k: int, v: Val, stack: seq<Val>, c: Cfg, fuel: nat)
    requires LayoutOk(g) && g.cursor <= MEM_BYTES && a in g.arrays && 0 <= k < a.total && Matches(a, t)
    requires ElemIs(a, c.mem, k, v)
    ensures ExecInstr(m, LoadOf(a), [VI(At(a, k))] + stack, c, fuel) == Next([v] + stack, c)
  {
    ElementAddress(g, a, k);
    LoadWidth(a, t);
    WrapIdentity(At(a, k));
    assert ([VI(At(a, k))] + stack)[1..] == stack;
  }

  // ---- the theorem for expressions ----

  lemma LiteralRuns(env: Env, m: Machine, depth: nat, ctx: Ctx, g: Gen, st: State, c: Cfg, e: Expr, stack: seq<Val>, fuel: nat)
    requires TypeOf(env, depth, ctx, e).Some? && e.Literal?
    ensures Yields(m, ExprCode(env, depth, g, e).code, stack, c, fuel, Eval(env, depth, st, e))
    ensures Eval(env, depth, st, e).EV? ==> HasTy(Eval(env, depth, st, e).v, TypeOf(env, depth, ctx, e).value)
  {
    LiteralAgrees(env.host, e.lexeme, e.ty, TypeOf(env, depth, ctx, e).value);
    ExecOne(m, LiteralCode(env.host, e.lexeme, e.ty), stack, c, fuel);
  }

  lemma LocalRuns(env: Env, m: Machine, depth: nat, types: Types, ctx: Ctx, g: Gen, gF: Gen,
                  st: State, c: Cfg, e: Expr, stack: seq<Val>, fuel: nat)
    requires Ready(env, m, types, ctx, g, gF, st, c) && TypeOf(env, depth, ctx, e).Some?
    requires e.Name? && FindConst(env.consts, e.name).None?
    ensures Yields(m, ExprCode(env, depth, g, e).code, stack, c, fuel, Eval(env, depth, st, e))
    ensures Eval(env, depth, st, e).EV? ==> HasTy(Eval(env, depth, st, e).v, TypeOf(env, depth, ctx, e).value)
  {
    FindLocalStable(g.locals, gF.locals, e.name);
    ExecOne(m, LocalGet(FindLocal(g.locals, e.name).value), stack, c, fuel);
  }

  lemma LengthRuns(env: Env, m: Machine, depth: nat, types: Types, ctx: Ctx, g: Gen, gF: Gen,
                   st: State, c: Cfg, e: Expr, stack: seq<Val>, fuel: nat)
    requires Ready(env, m, types, ctx, g, gF, st, c) && TypeOf(env, depth, ctx, e).Some? && e.Field?
    ensures Yields(m, ExprCode(env, depth, g, e).code, stack, c, fuel, Eval(env, depth, st, e))
    ensures Eval(env, depth, st, e).EV? ==> HasTy(Eval(env, depth, st, e).v, TypeOf(env, depth, ctx, e).value)
  {
    FindArrStable(g.arrays, gF.arrays, e.base.name);
    ExecOne(m, Const(FindArr(g.arrays, e.base.name).value.total), stack, c, fuel);
  }

  lemma {:induction false} ExprRuns(env: Env, m: Machine, depth: nat, types: Types, ctx: Ctx, g: Gen, gF: Gen,
                                     st: State, c: Cfg, e: Expr, stack: seq<Val>, fuel: nat)
    requires Ready(env, m, types, ctx, g, gF, st, c) && TypeOf(env, depth, ctx, e).Some?
    ensures Yields(m, ExprCode(env, depth, g, e).code, stack, c, fuel, Eval(env, depth, st, e))
    ensures Eval(env, depth, st, e).EV? ==> HasTy(Eval(env, depth, st, e).v, TypeOf(env, depth, ctx, e).value)
    decreases depth, e, 2
  {
    match e
    case Literal(lx, ty) => LiteralRuns(env, m, depth, ctx, g, st, c, e, stack, fuel);
    case Name(nm, ty) =>
      if FindConst(env.consts, nm).Some? {
        ConstRuns(env, m, depth, types, ctx, g, gF, st, c, e, stack, fuel);
      } else {
        LocalRuns(env, m, depth, types, ctx, g, gF, st, c, e, stack, fuel);
      }
    case Binary(op, l, r, _) => BinaryRuns(env, m, depth, types, ctx, g, gF, st, c, e, stack, fuel);
    case Index(base, indices, _) => IndexRuns(env, m, depth, types, ctx, g, gF, st, c, e, stack, fuel);
    case Field(base, f, _) => LengthRuns(env, m, depth, types, ctx, g, gF, st, c, e, stack, fuel);
    case _ =>
  }

  lemma {:induction false} ConstRuns(env: Env, m: Machine, depth: nat, types: Types, ctx: Ctx, g: Gen, gF: Gen,
                                     st: State, c: Cfg, e: Expr, stack: seq<Val>, fuel: nat)
    requires Ready(env, m, types, ctx, g, gF, st, c) && TypeOf(env, depth, ctx, e).Some?
    requires e.Name? && FindConst(env.consts, e.name).Some?
    ensures Yields(m, ExprCode(env, depth, g, e).code, stack, c, fuel, Eval(env, depth, st, e))
    ensures Eval(env, depth, st, e).EV? ==> HasTy(Eval(env, depth, st, e).v, TypeOf(env, depth, ctx, e).value)
    decreases depth, e, 1
  {
    ReadyClosed(env, m, types, ctx, g, gF, st, c);
    ExprRuns(env, m, depth - 1, types, Ctx(map[], map[], ctx.seen), g, gF, NO_LOCALS, c,
             FindConst(env.consts, e.name).value, stack, fuel);
  }

  // What is known of a visible array.
  lemma ArrayReady(env: Env, m: Machine, types: Types, ctx: Ctx, g: Gen, gF: Gen, st: State, c: Cfg, name: string)
    requires Ready(env, m, types, ctx, g, gF, st, c) && name in ctx.arrs
    ensures name in st.arrs && FindArr(g.arrays, name).Some? && FindArr(g.arrays, name) == FindArr(gF.arrays, name)
    ensures var a := FindArr(g.arrays, name).value;
            && a in gF.arrays && a in g.arrays && Matches(a, ctx.arrs[name])
            && ArrHolds(a, st.arrs[name].vals, c.mem) && ArrValOk(st.arrs[name], ctx.arrs[name])
  {
    FindArrStable(g.arrays, gF.arrays, name);
  }

  lemma {:induction false} IndexRuns(env: Env, m: Machine, depth: nat, types: Types, ctx: Ctx, g: Gen, gF: Gen,
                                     st: State, c: Cfg, e: Expr, stack: seq<Val>, fuel: nat)
    requires Ready(env, m, types, ctx, g, gF, st, c) && TypeOf(env, depth, ctx, e).Some? && e.Index?
    ensures Yields(m, ExprCode(env, depth, g, e).code, stack, c, fuel, Eval(env, depth, st, e))
    ensures Eval(env, depth, st, e).EV? ==> HasTy(Eval(env, depth, st, e).v, TypeOf(env, depth, ctx, e).value)
    decreases depth, e, 1
  {
    IndexTyped(env, depth, ctx, e);
    var name, idx := e.base.name, e.indices[0];
    ArrayReady(env, m, types, ctx, g, gF, st, c, name);
    IndexAddr(env, m, depth, types, ctx, g, gF, st, c, FindArr(g.arrays, name).value, idx, stack, fuel);
    IndexGlue(env, m, depth, ctx, g, gF, st, c, e, FindArr(g.arrays, name).value, stack, fuel);
  }

  lemma IndexTyped(env: Env, depth: nat, ctx: Ctx, e: Expr)
    requires e.Index? && TypeOf(env, depth, ctx, e).Some?
    ensures e.base.Name? && e.base.name in ctx.arrs && |e.indices| == 1
    ensures TypeOf(env, depth, ctx, e.indices[0]).Some? && IntLike(TypeOf(env, depth, ctx, e.indices[0]).value)
  {
  }

  // The address of an element.
  lemma {:induction false} IndexAddr(env: Env, m: Machine, depth: nat, types: Types, ctx: Ctx, g: Gen, gF: Gen,
                                     st: State, c: Cfg, a: Arr, idx: Expr, stack: seq<Val>, fuel: nat)
    requires Ready(env, m, types, ctx, g, gF, st, c) && TypeOf(env, depth, ctx, idx).Some? && a in gF.arrays
    ensures AddrYields(m, AddrCode(env, depth, g, a, idx).code, stack, c, fuel, a, Eval(env, depth, st, idx))
    ensures Eval(env, depth, st, idx).EV? ==> HasTy(Eval(env, depth, st, idx).v, TypeOf(env, depth, ctx, idx).value)
    decreases depth, idx, 5
  {
    ExprRuns(env, m, depth, types, ctx, g, gF, st, c, idx, [VI(a.base)] + stack, fuel);
    AddrRuns(env, m, depth, g, gF, c, a, idx, Eval(env, depth, st, idx), stack, fuel);
  }

  lemma IndexGlue(env: Env, m: Machine, depth: nat, ctx: Ctx, g: Gen, gF: Gen, st: State, c: Cfg, e: Expr, a: Arr,
                  stack: seq<Val>, fuel: nat)
    requires e.Index? && TypeOf(env, depth, ctx, e).Some? && FindArr(g.arrays, e.base.name) == Some(a)
    requires e.base.name in st.arrs
    requires LayoutOk(gF) && gF.cursor <= MEM_BYTES && a in gF.arrays && Matches(a, ctx.arrs[e.base.name])
    requires ArrHolds(a, st.arrs[e.base.name].vals, c.mem) && ArrValOk(st.arrs[e.base.name], ctx.arrs[e.base.name])
    requires AddrYields(m, AddrCode(env, depth, g, a, e.indices[0]).code, stack, c, fuel, a,
                        Eval(env, depth, st, e.indices[0]))
    ensures Yields(m, ExprCode(env, depth, g, e).code, stack, c, fuel, Eval(env, depth, st, e))
    ensures Eval(env, depth, st, e).EV? ==> HasTy(Eval(env, depth, st, e).v, TypeOf(env, depth, ctx, e).value)
  {
    var name, idx := e.base.name, e.indices[0];
    IndexLoads(m, gF, a, ctx.arrs[name], st.arrs[name], Eval(env, depth, st, idx),
               AddrCode(env, depth, g, a, idx).code, stack, c, fuel);
    assert ExprCode(env, depth, g, e).code == AddrCode(env, depth, g, a, idx).code + [LoadOf(a)];
  }

  lemma IndexLoads(m: Machine, gF: Gen, a: Arr, t: ATy, av: AVal, ev: EvalRes, code: seq<Instr>, stack: seq<Val>, c: Cfg, fuel: nat)
    requires LayoutOk(gF) && gF.cursor <= MEM_BYTES && a in gF.arrays && Matches(a, t)
    requires ArrHolds(a, av.vals, c.mem) && ArrValOk(av, t)
    requires AddrYields(m, code, stack, c, fuel, a, ev)
    ensures ev.EAbort? ==> ExecSeq(m, code + [LoadOf(a)], stack, c, fuel) == Trapped(c.trace)
    ensures ev.EV? && ev.v.VI? && 0 <= ev.v.i < |av.vals| ==>
              && ExecSeq(m, code + [LoadOf(a)], stack, c, fuel) == Next([av.vals[ev.v.i]] + stack, c)
              && HasTy(av.vals[ev.v.i], ElemSTy(t.elem))
  {
    ExecAppend(m, code, [LoadOf(a)], stack, c, fuel);
    if ev.EV? && ev.v.VI? && 0 <= ev.v.i < |av.vals| {
      var k := ev.v.i;
      LoadRuns(m, gF, a, t, k, av.vals[k], stack, c, fuel);
      ExecOne(m, LoadOf(a), [VI(At(a, k))] + stack, c, fuel);
      ElemHasTy(av.vals[k], t.elem);
    }
  }

  // The value promoted to float.
  function Promoted(h: Host, r: EvalRes): EvalRes {
    match r case EV(v) => EV(VF(ToFloat(h, v))) case _ => r
  }

  lemma {:induction false} FloatRuns(env: Env, m: Machine, depth: nat, types: Types, ctx: Ctx, g: Gen, gF: Gen,
                                     st: State, c: Cfg, e: Expr, stack: seq<Val>, fuel: nat)
    requires Ready(env, m, types, ctx, g, gF, st, c) && TypeOf(env, depth, ctx, e).Some?
    ensures Yields(m, FloatCode(env, depth, g, e).code, stack, c, fuel, Promoted(env.host, Eval(env, depth, st, e)))
    decreases depth, e, 3
  {
    hide Eval, ExprCode, TypeOf, CtxOk, StOk, VarsRel, ArrsRel, LayoutOk, Grows;
    var code := ExprCode(env, depth, g, e).code;
    var ev := Eval(env, depth, st, e);
    ExprRuns(env, m, depth, types, ctx, g, gF, st, c, e, stack, fuel);
    if WType(e.ty) != F64 {
      Then(m, code, [Num(0xb7)], stack, c, fuel, ev);
      if ev.EV? {
        ExecOne(m, Num(0xb7), [ev.v] + stack, c, fuel);
        assert ([ev.v] + stack)[1..] == stack;
      }
    }
  }

  // An operand of a binary expression, promoted if the other one is a float.
  lemma {:induction false} OperandRuns(env: Env, m: Machine, depth: nat, types: Types, ctx: Ctx, g: Gen, gF: Gen,
                                       st: State, c: Cfg, e: Expr, isf: bool, stack: seq<Val>, fuel: nat)
    requires Ready(env, m, types, ctx, g, gF, st, c) && TypeOf(env, depth, ctx, e).Some?
    ensures var o := if isf then FloatCode(env, depth, g, e) else ExprCode(env, depth, g, e);
            var ev := Eval(env, depth, st, e);
            o.g == g && Yields(m, o.code, stack, c, fuel, if isf then Promoted(env.host, ev) else ev)
    decreases depth, e, 4
  {
    ExprKeepsTables(env, depth, types, ctx, g, e);
    FloatRuns(env, m, depth, types, ctx, g, gF, st, c, e, stack, fuel);
    ExprRuns(env, m, depth, types, ctx, g, gF, st, c, e, stack, fuel);
  }

  lemma {:induction false} BinaryRuns(env: Env, m: Machine, depth: nat, types: Types, ctx: Ctx, g: Gen, gF: Gen,
                                      st: State, c: Cfg, e: Expr, stack: seq<Val>, fuel: nat)
    requires Ready(env, m, types, ctx, g, gF, st, c) && TypeOf(env, depth, ctx, e).Some? && e.Binary?
    ensures Yields(m, ExprCode(env, depth, g, e).code, stack, c, fuel, Eval(env, depth, st, e))
    ensures Eval(env, depth, st, e).EV? ==> HasTy(Eval(env, depth, st, e).v, TypeOf(env, depth, ctx, e).value)
    decreases depth, e, 1
  {
    OperandTypes(env, depth, ctx, e);
    hide Ready, CtxOk, NoFail, BinVal, ExprCode, FloatCode, TypeOf, Eval, HasTy, Glued;
    var l, r, op := e.left, e.right, e.op;
    var tl, tr := TypeOf(env, depth, ctx, l).value, TypeOf(env, depth, ctx, r).value;
    var isf := tl == SFloat || tr == SFloat;
    var el, er := Eval(env, depth, st, l), Eval(env, depth, st, r);
    ExprRuns(env, m, depth, types, ctx, g, gF, st, c, l, stack, fuel);
    ExprRuns(env, m, depth, types, ctx, g, gF, st, c, r, stack, fuel);
    OperandRuns(env, m, depth, types, ctx, g, gF, st, c, l, isf, stack, fuel);
    if el.EV? {
      var x := if isf then VF(ToFloat(env.host, el.v)) else el.v;
      OperandRuns(env, m, depth, types, ctx, g, gF, st, c, r, isf, [x] + stack, fuel);
    }
    ReadyIs(env, m, types, ctx, g, gF, st, c);
    assert op == And || op == Or ==> er.EV? by {
      if op == And || op == Or {
        NoFailEvaluates(env, depth, types, ctx, st, r);
      }
    }
    GlueBinary(env, m, depth, g, st, c, e, isf, stack, fuel);
    BinaryMeaning(env, m, depth, ctx, st, e, ExecSeq(m, ExprCode(env, depth, g, e).code, stack, c, fuel), stack, c);
  }

  // What a typed binary expression says of its operands.
  lemma OperandTypes(env: Env, depth: nat, ctx: Ctx, e: Expr)
    requires e.Binary? && TypeOf(env, depth, ctx, e).Some?
    ensures TypeOf(env, depth, ctx, e.left).Some? && TypeOf(env, depth, ctx, e.right).Some?
    ensures var isf := TypeOf(env, depth, ctx, e.left).value == SFloat || TypeOf(env, depth, ctx, e.right).value == SFloat;
            isf == (WType(e.left.ty) == F64 || WType(e.right.ty) == F64) && (isf ==> BinopF(e.op) != 0)
    ensures e.op != Fmap && (e.op == And || e.op == Or ==> NoFail(env, depth, e.right))
  {
    hide NoFail, OperandsOk, TypeLit;
    assert WType(e.left.ty) == WTy(TypeOf(env, depth, ctx, e.left).value);
    assert WType(e.right.ty) == WTy(TypeOf(env, depth, ctx, e.right).value);
  }

  lemma ReadyIs(env: Env, m: Machine, types: Types, ctx: Ctx, g: Gen, gF: Gen, st: State, c: Cfg)
    requires Ready(env, m, types, ctx, g, gF, st, c)
    ensures m.host == env.host && StOk(ctx, st)
  {
  }

  lemma ProductAtLeast(q: int, b: nat, r: nat)
    requires b > 0
    ensures q >= 0 ==> q <= q * b + r
  {
    if q >= 0 {
      assert q * (b - 1) >= 0;
    }
  }

  lemma QuotientSmall(a: nat, b: nat)
    requires b > 0
    ensures 0 <= a / b <= a
  {
    ProductAtLeast(a / b, b, a % b);
  }

  lemma SmallQuotient(a: nat, b: nat)
    requires b > 0
    ensures TruncDiv(a, b) == a / b && TruncRem(a, b) == a % b
  {
  }

  lemma UnsignedSame(op: Op, a: int, b: int)
    requires InI32(a) && InI32(b) && a >= 0 && b >= 0 && Sensitive(op)
    ensures UnsignedOp(op, a, b) == SignedOp(op, a, b)
  {
    WrapIdentity(a);
    WrapIdentity(b);
    hide Unsigned32, Wrap32, TruncDiv, TruncRem;
    if (op == Div || op == Mod) && b > 0 {
      SmallQuotient(a, b);
      QuotientSmall(a, b);
      RemainderSmall(a, b);
      WrapIdentity(a / b);
      WrapIdentity(a % b);
    }
  }

  lemma UnsignedElement(w: nat, v: int)
    requires Narrow(EInt(w, false), v) == v
    ensures v >= 0
  {
  }

  // Unsigned elements, chars and literals without a sign are not negative.
  lemma NonNegativeValue(env: Env, depth: nat, ctx: Ctx, st: State, e: Expr)
    requires StOk(ctx, st) && TypeOf(env, depth, ctx, e).Some? && NonNegative(e) && Eval(env, depth, st, e).EV?
    ensures Eval(env, depth, st, e).v.VI? && Eval(env, depth, st, e).v.i >= 0
  {
    hide CharLit, IntLit, IntOk, CharOk, LitFits, Narrow;
    if e.Literal? {
      LiteralAgrees(env.host, e.lexeme, e.ty, TypeOf(env, depth, ctx, e).value);
    } else {
      var a := ctx.arrs[e.base.name];
      assert HasElem(Eval(env, depth, st, e).v, a.elem);
      if a.elem.EInt? {
        UnsignedElement(a.elem.width, Eval(env, depth, st, e).v.i);
      }
    }
  }

  lemma FloatTyped(env: Env, depth: nat, ctx: Ctx, e: Expr, v: Val)
    requires TypeOf(env, depth, ctx, e).Some? && HasTy(v, TypeOf(env, depth, ctx, e).value)
    ensures (e.ty.TFloat? ==> v.VF?) && (v.VI? ==> InI32(v.i))
  {
    hide TypeOf;
  }

  lemma SignedDoes(h: Host, op: Op, l: Expr, r: Expr, a: Val, b: Val)
    requires OperandsOk(op, l, r) && (l.ty.TFloat? ==> a.VF?) && (r.ty.TFloat? ==> b.VF?)
    requires a.VI? && b.VI? ==> InI32(a.i) && InI32(b.i)
    requires (NonNegative(l) ==> a.VI? && a.i >= 0) && (NonNegative(r) ==> b.VI? && b.i >= 0)
    ensures OpVal(h, op, l, r, a, b) == BinVal(h, op, true, a, b)
  {
    hide IntOp, FloatOp, NonNegative, OpSigned, OpWidth, InI32;
    if a.VI? && b.VI? {
      assert OpWidth(l, r) == 32;
      assert !Sensitive(op) || OpSigned(l, r) || (a.i >= 0 && b.i >= 0);
      SameOp(op, OpSigned(l, r), a.i, b.i);
    }
  }

  lemma SameOp(op: Op, sgn: bool, a: int, b: int)
    requires InI32(a) && InI32(b) && (!Sensitive(op) || sgn || (a >= 0 && b >= 0))
    ensures IntOp(op, sgn, a, b) == IntOp(op, true, a, b)
  {
    hide SignedOp, UnsignedOp;
    if Sensitive(op) && !sgn {
      UnsignedSame(op, a, b);
    }
  }

  // Where the fragment allows the operation, the language's rules of width and sign give what signed 32-bit arithmetic
  // gives.
  lemma SignIrrelevant(env: Env, depth: nat, ctx: Ctx, st: State, op: Op, l: Expr, r: Expr)
    requires StOk(ctx, st) && TypeOf(env, depth, ctx, l).Some? && TypeOf(env, depth, ctx, r).Some? && OperandsOk(op, l, r)
    requires Eval(env, depth, st, l).EV? && Eval(env, depth, st, r).EV?
    requires HasTy(Eval(env, depth, st, l).v, TypeOf(env, depth, ctx, l).value)
    requires HasTy(Eval(env, depth, st, r).v, TypeOf(env, depth, ctx, r).value)
    ensures var a, b := Eval(env, depth, st, l).v, Eval(env, depth, st, r).v;
            OpVal(env.host, op, l, r, a, b) == BinVal(env.host, op, true, a, b)
  {
    hide Eval, TypeOf, OpVal, BinVal, StOk, NonNegative, OperandsOk, HasTy;
    var a, b := Eval(env, depth, st, l).v, Eval(env, depth, st, r).v;
    FloatTyped(env, depth, ctx, l, a);
    FloatTyped(env, depth, ctx, r, b);
    if NonNegative(l) {
      NonNegativeValue(env, depth, ctx, st, l);
    }
    if NonNegative(r) {
      NonNegativeValue(env, depth, ctx, st, r);
    }
    SignedDoes(env.host, op, l, r, a, b);
  }

  // From what the machine does with the operands' values to what the expression means.
  lemma BinaryMeaning(env: Env, m: Machine, depth: nat, ctx: Ctx, st: State, e: Expr, res: Res, stack: seq<Val>, c: Cfg)
    requires e.Binary? && TypeOf(env, depth, ctx, e).Some? && m.host == env.host && StOk(ctx, st)
    requires var el, er := Eval(env, depth, st, e.left), Eval(env, depth, st, e.right);
             var tl, tr := TypeOf(env, depth, ctx, e.left), TypeOf(env, depth, ctx, e.right);
             && tl.Some? && tr.Some?
             && (el.EV? ==> HasTy(el.v, tl.value)) && (er.EV? ==> HasTy(er.v, tr.value))
             && (e.op == And || e.op == Or ==> er.EV?)
             && Glued(m, e.op, tl.value == SFloat || tr.value == SFloat, el, er, res, stack, c)
    ensures match Eval(env, depth, st, e)
            case EV(v) => res == Next([v] + stack, c) && HasTy(v, TypeOf(env, depth, ctx, e).value)
            case EAbort => res == Trapped(c.trace)
            case EWild => true
  {
    hide NoFail, BinVal, OpVal, ExecNum;
    var op := e.op;
    var el, er := Eval(env, depth, st, e.left), Eval(env, depth, st, e.right);
    var tl, tr := TypeOf(env, depth, ctx, e.left).value, TypeOf(env, depth, ctx, e.right).value;
    if el.EV? && er.EV? {
      if op == And || op == Or {
        LogicRuns(m, op, el.v, er.v, stack, c);
      } else {
        BinopRuns(m, op, el.v, er.v, tl, tr, stack, c);
        TypedResult(env.host, op, true, el.v, er.v, tl, tr, TypeOf(env, depth, ctx, e).value);
        SignIrrelevant(env, depth, ctx, st, op, e.left, e.right);
      }
    }
  }

  // The machine has evaluated both operands, promoted where one is a float, and applied the opcode.
  predicate Glued(m: Machine, op: Op, isf: bool, el: EvalRes, er: EvalRes, res: Res, stack: seq<Val>, c: Cfg) {
    match el
    case EAbort => res == Trapped(c.trace)
    case EWild => true
    case EV(a) =>
      match er
      case EAbort => res == Trapped(c.trace)
      case EWild => true
      case EV(b) =>
        var x := if isf then VF(ToFloat(m.host, a)) else a;
        var y := if isf then VF(ToFloat(m.host, b)) else b;
        res == ExecNum(m, if isf then BinopF(op) else BinopI(op), [y, x] + stack, c)
  }

  // Left code, right code, opcode.
  lemma GlueBinary(env: Env, m: Machine, depth: nat, g: Gen, st: State, c: Cfg, e: Expr, isf: bool, stack: seq<Val>, fuel: nat)
    requires e.Binary? && e.op != Fmap && (isf ==> BinopF(e.op) != 0)
    requires isf == (WType(e.left.ty) == F64 || WType(e.right.ty) == F64)
    requires var lo := if isf then FloatCode(env, depth, g, e.left) else ExprCode(env, depth, g, e.left);
             var el := Eval(env, depth, st, e.left);
             lo.g == g && Yields(m, lo.code, stack, c, fuel, if isf then Promoted(env.host, el) else el)
    requires var el := Eval(env, depth, st, e.left);
             el.EV? ==>
               var ro := if isf then FloatCode(env, depth, g, e.right) else ExprCode(env, depth, g, e.right);
               var er := Eval(env, depth, st, e.right);
               var x := if isf then VF(ToFloat(env.host, el.v)) else el.v;
               Yields(m, ro.code, [x] + stack, c, fuel, if isf then Promoted(env.host, er) else er)
    requires m.host == env.host
    ensures Glued(m, e.op, isf, Eval(env, depth, st, e.left), Eval(env, depth, st, e.right),
                  ExecSeq(m, ExprCode(env, depth, g, e).code, stack, c, fuel), stack, c)
  {
    hide Eval, FloatCode;
    var opc := if isf then BinopF(e.op) else BinopI(e.op);
    var lo := if isf then FloatCode(env, depth, g, e.left) else ExprCode(env, depth, g, e.left);
    var ro := if isf then FloatCode(env, depth, g, e.right) else ExprCode(env, depth, g, e.right);
    var el, er := Eval(env, depth, st, e.left), Eval(env, depth, st, e.right);
    var pl, pr := if isf then Promoted(env.host, el) else el, if isf then Promoted(env.host, er) else er;
    assert ExprCode(env, depth, g, e).code == lo.code + (ro.code + [Num(opc)]);
    Then(m, lo.code, ro.code + [Num(opc)], stack, c, fuel, pl);
    if el.EV? {
      Then(m, ro.code, [Num(opc)], [pl.v] + stack, c, fuel, pr);
      if er.EV? {
        ExecOne(m, Num(opc), [pr.v] + ([pl.v] + stack), c, fuel);
        assert [pr.v] + ([pl.v] + stack) == [pr.v, pl.v] + stack;
      }
    }
  }

  // Arithmetic without integer division always has a value.
  lemma AlwaysValue(h: Host, op: Op, sgn: bool, a: Val, b: Val, ta: STy, tb: STy)
    requires HasTy(a, ta) && HasTy(b, tb) && op != And && op != Or && TypeBin(op, ta, tb, true).Some?
    requires (op == Div || op == Mod) ==> ta == SFloat || tb == SFloat
    ensures BinVal(h, op, sgn, a, b).EV?
  {
  }

  // A typed expression without division or indexing always has a value.
  lemma {:induction false} NoFailEvaluates(env: Env, depth: nat, types: Types, ctx: Ctx, st: State, e: Expr)
    requires StOk(ctx, st) && TypeOf(env, depth, ctx, e).Some? && NoFail(env, depth, e)
    ensures Eval(env, depth, st, e).EV? && HasTy(Eval(env, depth, st, e).v, TypeOf(env, depth, ctx, e).value)
    decreases depth, e
  {
    hide BinVal, OpVal, LitVal, TypeLit;
    match e
    case Literal(lx, ty) => LiteralAgrees(env.host, lx, ty, TypeOf(env, depth, ctx, e).value);
    case Name(nm, _) =>
      if FindConst(env.consts, nm).Some? {
        NoFailEvaluates(env, depth - 1, types, Ctx(map[], map[], ctx.seen), NO_LOCALS, FindConst(env.consts, nm).value);
      }
    case Binary(op, l, r, _) =>
      NoFailEvaluates(env, depth, types, ctx, st, l);
      NoFailEvaluates(env, depth, types, ctx, st, r);
      var a, b := Eval(env, depth, st, l).v, Eval(env, depth, st, r).v;
      if op != And && op != Or {
        var tl, tr := TypeOf(env, depth, ctx, l).value, TypeOf(env, depth, ctx, r).value;
        SignIrrelevant(env, depth, ctx, st, op, l, r);
        TypedResult(env.host, op, true, a, b, tl, tr, TypeOf(env, depth, ctx, e).value);
        AlwaysValue(env.host, op, true, a, b, tl, tr);
      }
    case _ =>
  }

  // ---- && and || ----

  // The left operand settles the result, so the language does not evaluate the right one.
  predicate Decides(op: Op, left: EvalRes) {
    left.EV? && left.v.VI? && (left.v.i != 0) == (op == Or)
  }

  // The backend evaluates both operands of && and ||. For boolean operands that stay in bounds its code agrees with
  // the language's short-circuit evaluation if and only if it is not the case that the left operand decides and the
  // right one aborts.
  lemma EagerLogicExact(env: Env, m: Machine, depth: nat, types: Types, ctx: Ctx, g: Gen, gF: Gen,
                        st: State, c: Cfg, e: Expr, stack: seq<Val>, fuel: nat)
    requires Ready(env, m, types, ctx, g, gF, st, c)
    requires e.Binary? && (e.op == And || e.op == Or)
    requires TypeOf(env, depth, ctx, e.left) == Some(SBool) && TypeOf(env, depth, ctx, e.right) == Some(SBool)
    requires !Eval(env, depth, st, e.left).EWild? && !Eval(env, depth, st, e.right).EWild?
    ensures Yields(m, ExprCode(env, depth, g, e).code, stack, c, fuel, Eval(env, depth, st, e)) <==>
            !(Decides(e.op, Eval(env, depth, st, e.left)) && Eval(env, depth, st, e.right).EAbort?)
  {
    var el, er := Eval(env, depth, st, e.left), Eval(env, depth, st, e.right);
    OperandRuns(env, m, depth, types, ctx, g, gF, st, c, e.left, false, stack, fuel);
    ExprRuns(env, m, depth, types, ctx, g, gF, st, c, e.left, stack, fuel);
    if el.EV? {
      OperandRuns(env, m, depth, types, ctx, g, gF, st, c, e.right, false, [el.v] + stack, fuel);
      ExprRuns(env, m, depth, types, ctx, g, gF, st, c, e.right, stack, fuel);
      if er.EV? {
        LogicRuns(m, e.op, el.v, er.v, stack, c);
      }
    }
    GlueBinary(env, m, depth, g, st, c, e, false, stack, fuel);
  }

  // false && a / b == 1
  function FalseAndQuotient(a: int, b: int): Expr {
    Binary(And, Literal("false", TNamed("bool")), QuotientTest(a, b), TNamed("bool"))
  }

  function QuotientTest(a: int, b: int): Expr { Binary(Eq, Quotient(a, b), IntLiteral(1), TNamed("bool")) }

  function Quotient(a: int, b: int): Expr { Binary(Div, IntLiteral(a), IntLiteral(b), TInt(32, true)) }

  function IntLiteral(n: int): Expr { Literal(PrintD(n), TInt(32, true)) }

  // An integer operation: both operands' code and the opcode.
  lemma IntegerCode(env: Env, op: Op, l: Expr, r: Expr, ty: HType)
    requires WType(l.ty) != F64 && WType(r.ty) != F64 && BinopI(op) != 0
    requires ExprCode(env, 0, START, l).g == START && ExprCode(env, 0, START, r).g == START
    ensures ExprCode(env, 0, START, Binary(op, l, r, ty)) ==
            Out(ExprCode(env, 0, START, l).code + ExprCode(env, 0, START, r).code + [Num(BinopI(op))], START)
  {
  }

  lemma IntLiteralCode(env: Env, n: int)
    requires InI32(n)
    ensures ExprCode(env, 0, START, IntLiteral(n)) == Out([Const(n)], START)
  {
    FoldedConstantsRoundTrip(n);
    hide PrintD, WgParseInt;
    assert IntLit("true").None? && IntLit("false").None?;
  }

  lemma QuotientCode(env: Env, a: int, b: int)
    requires InI32(a) && InI32(b)
    ensures ExprCode(env, 0, START, Quotient(a, b)) == Out([Const(a), Const(b), Num(0x6d)], START)
  {
    hide ExprCode, PrintD;
    IntLiteralCode(env, a);
    IntLiteralCode(env, b);
    IntegerCode(env, Div, IntLiteral(a), IntLiteral(b), TInt(32, true));
  }

  lemma QuotientTestCode(env: Env, a: int, b: int)
    requires InI32(a) && InI32(b)
    ensures ExprCode(env, 0, START, QuotientTest(a, b)) == Out([Const(a), Const(b), Num(0x6d), Const(1), Num(0x46)], START)
  {
    hide ExprCode, PrintD;
    QuotientCode(env, a, b);
    IntLiteralCode(env, 1);
    IntegerCode(env, Eq, Quotient(a, b), IntLiteral(1), TNamed("bool"));
  }

  lemma FalseAndQuotientCode(env: Env, a: int, b: int)
    requires InI32(a) && InI32(b)
    ensures ExprCode(env, 0, START, FalseAndQuotient(a, b)).code ==
            [Const(0)] + ([Const(a)] + ([Const(b)] + ([Num(0x6d)] + [Const(1), Num(0x46), Num(0x71)])))
  {
    var no := Literal("false", TNamed("bool"));
    QuotientTestCode(env, a, b);
    assert ExprCode(env, 0, START, no) == Out([Const(0)], START);
    hide ExprCode;
    IntegerCode(env, And, no, QuotientTest(a, b), TNamed("bool"));
  }

  // For every two literals: the language calls false && a / b == 1 false; the generated code traps if and only if b is zero
  // or the quotient is the one that overflows.
  lemma EagerLogicDiffers(env: Env, c: Cfg, stack: seq<Val>, fuel: nat, a: int, b: int)
    requires InI32(a) && InI32(b)
    ensures Eval(env, 0, NO_LOCALS, FalseAndQuotient(a, b)) == EV(VI(0))
    ensures var m := Machine(env.host, env.fPrint, env.fPrintf);
            ExecSeq(m, ExprCode(env, 0, START, FalseAndQuotient(a, b)).code, stack, c, fuel) == Trapped(c.trace) <==>
              b == 0 || (a == -I32_LIMIT && b == -1)
  {
    var m := Machine(env.host, env.fPrint, env.fPrintf);
    FalseAndQuotientCode(env, a, b);
    hide ExprCode, FalseAndQuotient;
    var tail := [Const(1), Num(0x46), Num(0x71)];
    StepFirst(m, Const(0), [Const(a)] + ([Const(b)] + ([Num(0x6d)] + tail)), stack, c, fuel);
    QuotientTraps(m, a, b, stack, c, fuel);
  }

  lemma QuotientTraps(m: Machine, a: int, b: int, stack: seq<Val>, c: Cfg, fuel: nat)
    requires InI32(a) && InI32(b)
    ensures var code := [Const(a)] + ([Const(b)] + ([Num(0x6d)] + [Const(1), Num(0x46), Num(0x71)]));
            ExecSeq(m, code, [VI(0)] + stack, c, fuel) == Trapped(c.trace) <==>
              b == 0 || (a == -I32_LIMIT && b == -1)
  {
    var tail := [Const(1), Num(0x46), Num(0x71)];
    var s0 := [VI(0)] + stack;
    StepFirst(m, Const(a), [Const(b)] + ([Num(0x6d)] + tail), s0, c, fuel);
    StepFirst(m, Const(b), [Num(0x6d)] + tail, [VI(a)] + s0, c, fuel);
    StepFirst(m, Num(0x6d), tail, [VI(b)] + ([VI(a)] + s0), c, fuel);
    assert ([VI(b)] + ([VI(a)] + s0))[2..] == s0;
    if b != 0 {
      QuotientInRange(a, b);
      if InI32(TruncDiv(a, b)) {
        TestRuns(m, TruncDiv(a, b), stack, c, fuel);
      }
    }
  }

  lemma TestRuns(m: Machine, q: int, stack: seq<Val>, c: Cfg, fuel: nat)
    ensures !ExecSeq(m, [Const(1), Num(0x46), Num(0x71)], [VI(q)] + ([VI(0)] + stack), c, fuel).Trapped?
  {
    var tail := [Num(0x46)] + ([Num(0x71)] + []);
    assert [Const(1), Num(0x46), Num(0x71)] == [Const(1)] + tail;
    var s0 := [VI(0)] + stack;
    StepFirst(m, Const(1), tail, [VI(q)] + s0, c, fuel);
    StepFirst(m, Num(0x46), [Num(0x71)] + [], [VI(1)] + ([VI(q)] + s0), c, fuel);
    assert ([VI(1)] + ([VI(q)] + s0))[2..] == s0;
    StepFirst(m, Num(0x71), [], [VI(Bit(q == 1))] + s0, c, fuel);
  }
}

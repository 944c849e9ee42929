// The code generated for a supported program is well formed and valid: an expression pushes one value of its type,
// a statement leaves the stack as it found it and never branches out of itself.
module WasmValid {
  import opened Bytes
  import opened WasmInstr
  import opened Values
  import opened Hir
  import opened WasmGen
  import opened HirSem
  import opened Fragment
  import opened WasmTables
  import opened WasmExec
  import opened WasmExprSim
  import opened WasmMemSim
  import opened WasmPrintSim
  import opened WasmStmtSim
  import opened WasmCtrlSim
  import opened WasmTyping

  // Where code is generated: tables in step with the context, on the way to finished tables that fit, in a function
  // whose locals and callees are those of the tables.
  ghost predicate Site(env: Env, types: Types, ctx: Ctx, g: Gen, gF: Gen, sig: Sig) {
    && CtxOk(env, types, ctx, g) && Grows(g, gF) && LayoutOk(gF) && Fits(gF)
    && |sig.locals| == |gF.locals| && (forall k :: 0 <= k < |gF.locals| ==> sig.locals[k] == gF.locals[k].wt)
    && HostSig(Machine(env.host, env.fPrint, env.fPrintf), sig)
  }

  // The code is well formed and takes the stack v to w.
  predicate Takes(sig: Sig, labels: nat, v: VStack, code: seq<Instr>, w: VStack) {
    CheckSeq(sig, labels, v, code) == Some(w) && WFSeq(code)
  }

  lemma TakesNothing(sig: Sig, labels: nat, v: VStack)
    ensures Takes(sig, labels, v, [], v)
  {
  }

  lemma TakesOne(sig: Sig, labels: nat, v: VStack, i: Instr, w: VStack)
    requires CheckInstr(sig, labels, v, i) == Some(w) && WF(i)
    ensures Takes(sig, labels, v, [i], w)
  {
    CheckOne(sig, labels, v, i);
  }

  lemma TakesBoth(sig: Sig, labels: nat, v: VStack, a: seq<Instr>, w: VStack, b: seq<Instr>, x: VStack)
    requires Takes(sig, labels, v, a, w) && Takes(sig, labels, w, b, x)
    ensures Takes(sig, labels, v, a + b, x)
  {
    CheckAppend(sig, labels, v, w, a, b);
    WFSeqAppend(a, b);
  }

  lemma PushPop(v: VStack, t: ValType)
    ensures Pop(Push(v, t), t) == Some(v)
  {
  }

  lemma NumTakes(sig: Sig, labels: nat, v: VStack, op: byte)
    requires IsNum(op)
    ensures op != 0x45 && op != 0xb7 ==>
              Takes(sig, labels, Push(Push(v, NumIn(op)), NumIn(op)), [Num(op)], Push(v, NumOut(op)))
    ensures op == 0x45 || op == 0xb7 ==> Takes(sig, labels, Push(v, I32), [Num(op)], Push(v, NumOut(op)))
  {
    if op != 0x45 && op != 0xb7 {
      PopsTwo(Push(Push(v, NumIn(op)), NumIn(op)), NumIn(op), NumIn(op));
      PushPop(Push(v, NumIn(op)), NumIn(op));
      PushPop(v, NumIn(op));
      TakesOne(sig, labels, Push(Push(v, NumIn(op)), NumIn(op)), Num(op), Push(v, NumOut(op)));
    } else {
      PopsTop(Push(v, I32), I32);
      PushPop(v, I32);
      TakesOne(sig, labels, Push(v, I32), Num(op), Push(v, NumOut(op)));
    }
  }

  lemma LoadTakes(sig: Sig, labels: nat, v: VStack, a: Arr, t: ATy)
    requires Matches(a, t)
    ensures Takes(sig, labels, Push(v, I32), [LoadOf(a)], Push(v, a.wt))
  {
    PopsTop(Push(v, I32), I32);
    PushPop(v, I32);
    SmallPowers();
    TakesOne(sig, labels, Push(v, I32), LoadOf(a), Push(v, a.wt));
  }

  lemma StoreTakes(sig: Sig, labels: nat, v: VStack, i: Instr)
    requires i.Store? && IsStore(i.sop) && i.salign <= 3 && Pow2(i.salign) <= StoreSize(i.sop) && i.soffset == 0
    ensures Takes(sig, labels, Push(Push(v, I32), MemType(i.sop)), [i], v)
  {
    PopsTwo(Push(Push(v, I32), MemType(i.sop)), I32, MemType(i.sop));
    PushPop(Push(v, I32), MemType(i.sop));
    PushPop(v, I32);
    TakesOne(sig, labels, Push(Push(v, I32), MemType(i.sop)), i, v);
  }

  lemma SmallPowers()
    ensures Pow2(0) == 1 && Pow2(1) == 2 && Pow2(2) == 4 && Pow2(3) == 8
  {
  }

  lemma ElemStoreTakes(sig: Sig, labels: nat, v: VStack, a: Arr, t: ATy)
    requires Matches(a, t)
    ensures Takes(sig, labels, Push(Push(v, I32), a.wt), [StoreOf(a)], v)
  {
    SmallPowers();
    StoreTakes(sig, labels, v, StoreOf(a));
  }

  lemma ConstTakes(sig: Sig, labels: nat, v: VStack, n: int)
    requires InI32(n)
    ensures Takes(sig, labels, v, [Const(n)], Push(v, I32))
  {
    TakesOne(sig, labels, v, Const(n), Push(v, I32));
  }

  // ---- expressions ----

  lemma LiteralTakes(h: Host, sig: Sig, labels: nat, v: VStack, lx: string, ty: HType, t: STy)
    requires TypeLit(lx, ty) == Some(t)
    ensures Takes(sig, labels, v, [LiteralCode(h, lx, ty)], Push(v, WTy(t)))
  {
    LiteralAgrees(h, lx, ty, t);
    TakesOne(sig, labels, v, LiteralCode(h, lx, ty), Push(v, WTy(t)));
  }

  lemma SiteClosed(env: Env, types: Types, ctx: Ctx, g: Gen, gF: Gen, sig: Sig)
    requires Site(env, types, ctx, g, gF, sig)
    ensures Site(env, types, Ctx(map[], map[], ctx.seen), g, gF, sig)
  {
    CtxNarrow(env, types, ctx, g, Ctx(map[], map[], ctx.seen));
  }

  lemma SiteKeeps(env: Env, depth: nat, types: Types, ctx: Ctx, g: Gen, gF: Gen, sig: Sig, e: Expr)
    requires Site(env, types, ctx, g, gF, sig) && TypeOf(env, depth, ctx, e).Some?
    ensures ExprCode(env, depth, g, e).g == g
  {
    ExprKeepsTables(env, depth, types, ctx, g, e);
  }

  lemma SiteLocal(env: Env, types: Types, ctx: Ctx, g: Gen, gF: Gen, sig: Sig, name: string)
    requires Site(env, types, ctx, g, gF, sig) && name in ctx.vars
    ensures FindLocal(g.locals, name).Some? && FindConst(env.consts, name).None?
    ensures var k := FindLocal(g.locals, name).value; k < |sig.locals| <= 256 && sig.locals[k] == WTy(ctx.vars[name])
  {
  }

  lemma SiteArray(env: Env, types: Types, ctx: Ctx, g: Gen, gF: Gen, sig: Sig, name: string)
    requires Site(env, types, ctx, g, gF, sig) && name in ctx.arrs
    ensures FindArr(g.arrays, name).Some?
    ensures var a := FindArr(g.arrays, name).value; a in gF.arrays && Matches(a, ctx.arrs[name])
  {
    FindArrStable(g.arrays, gF.arrays, name);
  }

  lemma {:induction false} ExprTakes(env: Env, depth: nat, types: Types, ctx: Ctx, g: Gen, gF: Gen, sig: Sig,
                                     labels: nat, v: VStack, e: Expr)
    requires Site(env, types, ctx, g, gF, sig) && TypeOf(env, depth, ctx, e).Some?
    ensures Takes(sig, labels, v, ExprCode(env, depth, g, e).code, Push(v, WTy(TypeOf(env, depth, ctx, e).value)))
    decreases depth, e, 1
  {
    hide Site, Takes, CheckSeq, CheckInstr, WF, Push, NoFail;
    match e
    case Literal(lx, ty) => LiteralTakes(env.host, sig, labels, v, lx, ty, TypeOf(env, depth, ctx, e).value);
    case Name(nm, ty) =>
      if FindConst(env.consts, nm).Some? {
        SiteClosed(env, types, ctx, g, gF, sig);
        ExprTakes(env, depth - 1, types, Ctx(map[], map[], ctx.seen), g, gF, sig, labels, v, FindConst(env.consts, nm).value);
      } else {
        LocalTakes(env, types, ctx, g, gF, sig, labels, v, nm);
      }
    case Binary(op, l, r, _) => BinaryTakes(env, depth, types, ctx, g, gF, sig, labels, v, e);
    case Index(base, indices, _) => IndexTakes(env, depth, types, ctx, g, gF, sig, labels, v, e);
    case Field(base, f, _) =>
      SiteArray(env, types, ctx, g, gF, sig, base.name);
      ConstTakes(sig, labels, v, FindArr(g.arrays, base.name).value.total);
    case _ =>
  }

  lemma LocalTakes(env: Env, types: Types, ctx: Ctx, g: Gen, gF: Gen, sig: Sig, labels: nat, v: VStack, name: string)
    requires Site(env, types, ctx, g, gF, sig) && name in ctx.vars
    ensures FindLocal(g.locals, name).Some?
    ensures Takes(sig, labels, v, [LocalGet(FindLocal(g.locals, name).value)], Push(v, WTy(ctx.vars[name])))
  {
    hide Site;
    SiteLocal(env, types, ctx, g, gF, sig, name);
    TakesOne(sig, labels, v, LocalGet(FindLocal(g.locals, name).value), Push(v, WTy(ctx.vars[name])));
  }

  // base + index * size
  lemma {:induction false} AddrTakes(env: Env, depth: nat, types: Types, ctx: Ctx, g: Gen, gF: Gen, sig: Sig,
                                     labels: nat, v: VStack, a: Arr, t: ATy, idx: Expr)
    requires Site(env, types, ctx, g, gF, sig) && TypeOf(env, depth, ctx, idx).Some?
    requires IntLike(TypeOf(env, depth, ctx, idx).value) && a in gF.arrays && Matches(a, t)
    ensures Takes(sig, labels, v, AddrCode(env, depth, g, a, idx).code, Push(v, I32))
    decreases depth, idx, 2
  {
    hide CtxOk, Takes, CheckSeq, CheckInstr, WF, Push, TypeOf, ExprCode, End;
    var vb := Push(v, I32);
    var vi := Push(vb, I32);
    var io := ExprCode(env, depth, g, idx).code;
    var scale := if a.size != 1 then [Const(a.size), Num(0x6c)] else [];
    ConstTakes(sig, labels, v, a.base);
    ExprTakes(env, depth, types, ctx, g, gF, sig, labels, vb, idx);
    if a.size != 1 {
      ConstTakes(sig, labels, vi, a.size);
      NumTakes(sig, labels, vb, 0x6c);
      TakesBoth(sig, labels, vi, [Const(a.size)], Push(vi, I32), [Num(0x6c)], vi);
      assert scale == [Const(a.size)] + [Num(0x6c)];
    } else {
      TakesNothing(sig, labels, vi);
    }
    NumTakes(sig, labels, v, 0x6a);
    TakesBoth(sig, labels, v, [Const(a.base)], vb, io, vi);
    TakesBoth(sig, labels, v, [Const(a.base)] + io, vi, scale, vi);
    TakesBoth(sig, labels, v, [Const(a.base)] + io + scale, vi, [Num(0x6a)], vb);
  }

  lemma {:induction false} IndexTakes(env: Env, depth: nat, types: Types, ctx: Ctx, g: Gen, gF: Gen, sig: Sig,
                                      labels: nat, v: VStack, e: Expr)
    requires Site(env, types, ctx, g, gF, sig) && TypeOf(env, depth, ctx, e).Some? && e.Index?
    ensures Takes(sig, labels, v, ExprCode(env, depth, g, e).code, Push(v, WTy(TypeOf(env, depth, ctx, e).value)))
    decreases depth, e, 0
  {
    hide Site, Takes, Push, AddrCode;
    IndexTyped(env, depth, ctx, e);
    SiteArray(env, types, ctx, g, gF, sig, e.base.name);
    var a := FindArr(g.arrays, e.base.name).value;
    AddrTakes(env, depth, types, ctx, g, gF, sig, labels, v, a, ctx.arrs[e.base.name], e.indices[0]);
    LoadTakes(sig, labels, v, a, ctx.arrs[e.base.name]);
    TakesBoth(sig, labels, v, AddrCode(env, depth, g, a, e.indices[0]).code, Push(v, I32), [LoadOf(a)], Push(v, a.wt));
  }

  // The value, converted to f64 where asked for.
  lemma {:induction false} OperandTakes(env: Env, depth: nat, types: Types, ctx: Ctx, g: Gen, gF: Gen, sig: Sig,
                                        labels: nat, v: VStack, e: Expr, isf: bool)
    requires Site(env, types, ctx, g, gF, sig) && TypeOf(env, depth, ctx, e).Some?
    ensures var o := if isf then FloatCode(env, depth, g, e) else ExprCode(env, depth, g, e);
            o.g == g && Takes(sig, labels, v, o.code, Push(v, if isf then F64 else WTy(TypeOf(env, depth, ctx, e).value)))
    decreases depth, e, 3
  {
    hide Site, Takes, Push, ExprCode;
    SiteKeeps(env, depth, types, ctx, g, gF, sig, e);
    ExprTakes(env, depth, types, ctx, g, gF, sig, labels, v, e);
    if isf && WType(e.ty) != F64 {
      NumTakes(sig, labels, v, 0xb7);
      TakesBoth(sig, labels, v, ExprCode(env, depth, g, e).code, Push(v, I32), [Num(0xb7)], Push(v, F64));
    }
  }

  lemma {:induction false} BinaryTakes(env: Env, depth: nat, types: Types, ctx: Ctx, g: Gen, gF: Gen, sig: Sig,
                                       labels: nat, v: VStack, e: Expr)
    requires Site(env, types, ctx, g, gF, sig) && TypeOf(env, depth, ctx, e).Some? && e.Binary?
    ensures Takes(sig, labels, v, ExprCode(env, depth, g, e).code, Push(v, WTy(TypeOf(env, depth, ctx, e).value)))
    decreases depth, e, 0
  {
    hide Site, Takes, Push, FloatCode;
    var l, r := e.left, e.right;
    var tl, tr := TypeOf(env, depth, ctx, l).value, TypeOf(env, depth, ctx, r).value;
    var isf := tl == SFloat || tr == SFloat;
    var wt := if isf then F64 else I32;
    var lo := if isf then FloatCode(env, depth, g, l) else ExprCode(env, depth, g, l);
    var ro := if isf then FloatCode(env, depth, g, r) else ExprCode(env, depth, g, r);
    var opc := if isf then BinopF(e.op) else BinopI(e.op);
    OperandTakes(env, depth, types, ctx, g, gF, sig, labels, v, l, isf);
    OperandTakes(env, depth, types, ctx, g, gF, sig, labels, Push(v, wt), r, isf);
    NumTakes(sig, labels, v, opc);
    TakesBoth(sig, labels, v, lo.code, Push(v, wt), ro.code, Push(Push(v, wt), wt));
    TakesBoth(sig, labels, v, lo.code + ro.code, Push(Push(v, wt), wt), [Num(opc)], Push(v, NumOut(opc)));
    assert ExprCode(env, depth, g, e).code == lo.code + ro.code + [Num(opc)];
  }

  // ---- statements ----

  lemma SetTakes(env: Env, types: Types, ctx: Ctx, g: Gen, gF: Gen, sig: Sig, labels: nat, v: VStack, name: string)
    requires Site(env, types, ctx, g, gF, sig) && name in ctx.vars
    ensures FindLocal(g.locals, name).Some?
    ensures Takes(sig, labels, Push(v, WTy(ctx.vars[name])), [LocalSet(FindLocal(g.locals, name).value)], v)
  {
    hide Site;
    SiteLocal(env, types, ctx, g, gF, sig, name);
    PushPop(v, WTy(ctx.vars[name]));
    TakesOne(sig, labels, Push(v, WTy(ctx.vars[name])), LocalSet(FindLocal(g.locals, name).value), v);
  }

  lemma SiteBound(env: Env, types: Types, ctx: Ctx, g: Gen, gF: Gen, sig: Sig, name: string, wt: ValType)
    requires Site(env, types, ctx, g, gF, sig) && Grows(LocalIndex(g, name, wt).1, gF)
    requires name in types && wt == WTy(types[name]) && FindConst(env.consts, name).None?
    ensures var p := LocalIndex(g, name, wt);
            && Site(env, types, Ctx(ctx.vars[name := types[name]], ctx.arrs, ctx.seen), p.1, gF, sig)
            && FindLocal(p.1.locals, name) == Some(p.0)
  {
    hide CtxOk, Fits, LayoutOk;
    BindScalarOk(env, types, ctx, g, name, wt);
  }

  lemma BindScalarTakes(env: Env, depth: nat, types: Types, ctx: Ctx, g: Gen, gF: Gen, sig: Sig, labels: nat, v: VStack,
                        inLoop: bool, name: string, declared: Option<HType>, value: Option<Expr>)
    requires Site(env, types, ctx, g, gF, sig) && BindArrayType(declared, value).None?
    requires OkBind(env, depth, types, ctx, inLoop, name, declared, value).Some?
    requires Grows(BindCode(env, depth, g, name, declared, value).g, gF)
    ensures Takes(sig, labels, v, BindCode(env, depth, g, name, declared, value).code, v)
  {
    hide Site, Takes, Push, ExprCode, TypeOf, Grows;
    var wt := WTy(types[name]);
    var vo := if value.Some? then ExprCode(env, depth, g, value.value) else Out([Const(0)], g);
    if value.Some? {
      SiteKeeps(env, depth, types, ctx, g, gF, sig, value.value);
      ExprTakes(env, depth, types, ctx, g, gF, sig, labels, v, value.value);
    } else {
      ConstTakes(sig, labels, v, 0);
    }
    SiteBound(env, types, ctx, g, gF, sig, name, wt);
    var p := LocalIndex(g, name, wt);
    SetTakes(env, types, Ctx(ctx.vars[name := types[name]], ctx.arrs, ctx.seen), p.1, gF, sig, labels, v, name);
    TakesBoth(sig, labels, v, vo.code, Push(v, wt), [LocalSet(p.0)], v);
  }

  lemma SiteDeclared(env: Env, types: Types, ctx: Ctx, g: Gen, gF: Gen, sig: Sig, name: string, t: HType)
    requires Site(env, types, ctx, g, gF, sig) && ArrayTy(t).Some?
    requires name !in ctx.seen && |ctx.seen| < MAX_ARRAYS && Grows(DeclareArr(g, name, t).1, gF)
    ensures var d := DeclareArr(g, name, t);
            var at := ArrayTy(t).value;
            && d.0.Some? && Site(env, types, Ctx(ctx.vars, ctx.arrs[name := ATy(at.0, at.1)], ctx.seen + {name}), d.1, gF, sig)
            && FindArr(d.1.arrays, name) == d.0
  {
    hide CtxOk, Fits, LayoutOk;
    DeclareOk(env, types, ctx, g, name, t);
  }

  lemma {:induction false} ElementsTake(env: Env, depth: nat, types: Types, ctx: Ctx, g: Gen, gF: Gen, sig: Sig,
                                        labels: nat, v: VStack, a: Arr, t: ATy, elements: seq<Expr>, k: nat)
    requires Site(env, types, ctx, g, gF, sig) && a in gF.arrays && Matches(a, t)
    requires ElementsOk(env, depth, ctx, t.elem, elements)
    ensures Takes(sig, labels, v, ElementsCode(env, depth, g, a, elements, k).code, v)
    decreases |elements|
  {
    hide Site, Takes, Push, ValueCode, TypeOf, Storable, StoreOf;
    if elements == [] || k >= a.total {
      TakesNothing(sig, labels, v);
    } else {
      assert TypeOf(env, depth, ctx, elements[0]).Some?;
      var vc := ValueCode(env, depth, g, a.wt, elements[0]);
      var rest := ElementsCode(env, depth, g, a, elements[1..], k + 1).code;
      ElementTakes(env, depth, types, ctx, g, gF, sig, labels, v, a, t, elements[0], k);
      ElementsTake(env, depth, types, ctx, g, gF, sig, labels, v, a, t, elements[1..], k + 1);
      TakesBoth(sig, labels, v, [Const(a.base + k * a.size)] + vc.code + [StoreOf(a)], v, rest, v);
    }
  }

  lemma ElementTakes(env: Env, depth: nat, types: Types, ctx: Ctx, g: Gen, gF: Gen, sig: Sig,
                     labels: nat, v: VStack, a: Arr, t: ATy, e: Expr, k: nat)
    requires Site(env, types, ctx, g, gF, sig) && a in gF.arrays && Matches(a, t) && k < a.total
    requires TypeOf(env, depth, ctx, e).Some? && Storable(t.elem, TypeOf(env, depth, ctx, e).value)
    ensures var vc := ValueCode(env, depth, g, a.wt, e);
            vc.g == g && Takes(sig, labels, v, [Const(a.base + k * a.size)] + vc.code + [StoreOf(a)], v)
  {
    hide CtxOk, Takes, Push, ExprCode, FloatCode, TypeOf, End;
    ElementAddress(gF, a, k);
    assert a.base + k * a.size == At(a, k);
    var vc := ValueCode(env, depth, g, a.wt, e);
    var va := Push(v, I32);
    ConstTakes(sig, labels, v, a.base + k * a.size);
    OperandTakes(env, depth, types, ctx, g, gF, sig, labels, va, e, a.wt == F64);
    ElemStoreTakes(sig, labels, v, a, t);
    TakesBoth(sig, labels, v, [Const(a.base + k * a.size)], va, vc.code, Push(va, a.wt));
    TakesBoth(sig, labels, v, [Const(a.base + k * a.size)] + vc.code, Push(va, a.wt), [StoreOf(a)], v);
  }

  lemma BindArrayTakes(env: Env, depth: nat, types: Types, ctx: Ctx, g: Gen, gF: Gen, sig: Sig, labels: nat, v: VStack,
                       inLoop: bool, name: string, declared: Option<HType>, value: Option<Expr>)
    requires Site(env, types, ctx, g, gF, sig) && BindArrayType(declared, value).Some?
    requires OkBind(env, depth, types, ctx, inLoop, name, declared, value).Some?
    requires Grows(BindCode(env, depth, g, name, declared, value).g, gF)
    ensures Takes(sig, labels, v, BindCode(env, depth, g, name, declared, value).code, v)
  {
    hide Site, Takes, ElementsCode, TypeOf, ArrayTy, CtxOk, Matches;
    var t := BindArrayType(declared, value).value;
    var at := ArrayTy(t).value;
    var d := DeclareArr(g, name, t);
    var inner := Ctx(ctx.vars, ctx.arrs[name := ATy(at.0, at.1)], ctx.seen + {name});
    TakesNothing(sig, labels, v);
    assert name !in ctx.arrs by { SiteScoped(env, types, ctx, g, gF, sig); }
    SiteCtx(env, types, ctx, g, gF, sig);
    DeclareOk(env, types, ctx, g, name, t);
    if value.Some? {
      ElementsGrow(env, depth, d.1, d.0.value, value.value.elements, 0);
      SiteDeclared(env, types, ctx, g, gF, sig, name, t);
      SiteArray(env, types, inner, d.1, gF, sig, name);
      ElementsWeaken(env, depth, ctx, inner, at.0, value.value.elements);
      ElementsTake(env, depth, types, inner, d.1, gF, sig, labels, v, d.0.value, ATy(at.0, at.1), value.value.elements, 0);
    }
  }

  lemma SiteScoped(env: Env, types: Types, ctx: Ctx, g: Gen, gF: Gen, sig: Sig)
    requires Site(env, types, ctx, g, gF, sig)
    ensures Scoped(ctx)
  {
    CtxScoped(env, types, ctx, g);
  }

  lemma AssignVarTakes(env: Env, depth: nat, types: Types, ctx: Ctx, g: Gen, gF: Gen, sig: Sig, labels: nat, v: VStack,
                       target: Expr, rhs: Expr, op: Option<Op>)
    requires Site(env, types, ctx, g, gF, sig) && OkAssign(env, depth, ctx, target, rhs, op) && target.Name?
    ensures Takes(sig, labels, v, AssignCode(env, depth, g, target, rhs, op).code, v)
  {
    hide Site, Takes, Push, ExprCode, FloatCode, TypeOf;
    var name := target.name;
    var wt := WTy(ctx.vars[name]);
    SiteLocal(env, types, ctx, g, gF, sig, name);
    var k := FindLocal(g.locals, name).value;
    SetTakes(env, types, ctx, g, gF, sig, labels, v, name);
    match op
    case None =>
      var vc := ExprCode(env, depth, g, rhs).code;
      ExprTakes(env, depth, types, ctx, g, gF, sig, labels, v, rhs);
      TakesBoth(sig, labels, v, vc, Push(v, wt), [LocalSet(k)], v);
    case Some(o) =>
      var vc := ValueCode(env, depth, g, wt, rhs).code;
      LocalTakes(env, types, ctx, g, gF, sig, labels, v, name);
      CombineTakes(env, depth, types, ctx, g, gF, sig, labels, v, wt, rhs, o);
      TakesBoth(sig, labels, v, [LocalGet(k)], Push(v, wt), vc + OpCode(wt, o), Push(v, wt));
      TakesBoth(sig, labels, v, [LocalGet(k)] + (vc + OpCode(wt, o)), Push(v, wt), [LocalSet(k)], v);
      assert [LocalGet(k)] + vc + OpCode(wt, o) + [LocalSet(k)] == [LocalGet(k)] + (vc + OpCode(wt, o)) + [LocalSet(k)];
  }

  // Operand and operator over a current value of type wt.
  lemma CombineTakes(env: Env, depth: nat, types: Types, ctx: Ctx, g: Gen, gF: Gen, sig: Sig, labels: nat, v: VStack,
                     wt: ValType, rhs: Expr, op: Op)
    requires Site(env, types, ctx, g, gF, sig) && TypeOf(env, depth, ctx, rhs).Some? && Arith(op)
    requires if wt == F64 then op != Mod else IntLike(TypeOf(env, depth, ctx, rhs).value)
    ensures ValueCode(env, depth, g, wt, rhs).g == g
    ensures Takes(sig, labels, Push(v, wt), ValueCode(env, depth, g, wt, rhs).code + OpCode(wt, op), Push(v, wt))
  {
    hide Site, Takes, Push, ExprCode, FloatCode, TypeOf;
    var opc := if wt == F64 then BinopF(op) else BinopI(op);
    OperandTakes(env, depth, types, ctx, g, gF, sig, labels, Push(v, wt), rhs, wt == F64);
    NumTakes(sig, labels, v, opc);
    TakesBoth(sig, labels, Push(v, wt), ValueCode(env, depth, g, wt, rhs).code, Push(Push(v, wt), wt), [Num(opc)], Push(v, wt));
    assert OpCode(wt, op) == [Num(opc)];
  }

  lemma AssignElemTakes(env: Env, depth: nat, types: Types, ctx: Ctx, g: Gen, gF: Gen, sig: Sig, labels: nat, v: VStack,
                        target: Expr, rhs: Expr, op: Option<Op>)
    requires Site(env, types, ctx, g, gF, sig) && OkAssign(env, depth, ctx, target, rhs, op) && target.Index?
    ensures Takes(sig, labels, v, AssignCode(env, depth, g, target, rhs, op).code, v)
  {
    hide Site, Takes, Push, ExprCode, FloatCode, TypeOf, Matches, AddrCode, StoreOf, LoadOf;
    var name, idx := target.base.name, target.indices[0];
    SiteArray(env, types, ctx, g, gF, sig, name);
    var a := FindArr(g.arrays, name).value;
    var t := ctx.arrs[name];
    var va := Push(v, I32);
    var ac := AddrCode(env, depth, g, a, idx);
    SiteKeeps(env, depth, types, ctx, g, gF, sig, idx);
    assert ac.g == g by { AddrKeeps(env, depth, g, a, idx); }
    assert a.wt == (if t.elem.EFloat? then F64 else I32) by { MatchType(a, t); }
    AddrTakes(env, depth, types, ctx, g, gF, sig, labels, v, a, t, idx);
    ElemStoreTakes(sig, labels, v, a, t);
    var vc := ValueCode(env, depth, g, a.wt, rhs).code;
    match op
    case None =>
      OperandTakes(env, depth, types, ctx, g, gF, sig, labels, va, rhs, a.wt == F64);
      TakesBoth(sig, labels, v, ac.code, va, vc, Push(va, a.wt));
      TakesBoth(sig, labels, v, ac.code + vc, Push(va, a.wt), [StoreOf(a)], v);
    case Some(o) =>
      AddrTakes(env, depth, types, ctx, g, gF, sig, labels, va, a, t, idx);
      LoadTakes(sig, labels, va, a, t);
      CombineTakes(env, depth, types, ctx, g, gF, sig, labels, va, a.wt, rhs, o);
      TakesBoth(sig, labels, v, ac.code, va, ac.code, Push(va, I32));
      TakesBoth(sig, labels, v, ac.code + ac.code, Push(va, I32), [LoadOf(a)], Push(va, a.wt));
      TakesBoth(sig, labels, v, ac.code + ac.code + [LoadOf(a)], Push(va, a.wt), vc + OpCode(a.wt, o), Push(va, a.wt));
      TakesBoth(sig, labels, v, ac.code + ac.code + [LoadOf(a)] + (vc + OpCode(a.wt, o)), Push(va, a.wt), [StoreOf(a)], v);
      assert ac.code + ac.code + [LoadOf(a)] + vc + OpCode(a.wt, o) + [StoreOf(a)] ==
             ac.code + ac.code + [LoadOf(a)] + (vc + OpCode(a.wt, o)) + [StoreOf(a)];
  }

  lemma MatchType(a: Arr, t: ATy)
    requires Matches(a, t)
    ensures a.wt == (if t.elem.EFloat? then F64 else I32)
  {
  }

  lemma AddrKeeps(env: Env, depth: nat, g: Gen, a: Arr, idx: Expr)
    ensures AddrCode(env, depth, g, a, idx).g == ExprCode(env, depth, g, idx).g
  {
  }

  // ---- print ----

  lemma SlotStoreTakes(sig: Sig, labels: nat, v: VStack, p: int, n: int)
    requires InI32(p) && InI32(n)
    ensures Takes(sig, labels, v, [Const(p)] + [Const(n)] + [StoreI32], v)
  {
    hide Takes, Push;
    SmallPowers();
    ConstTakes(sig, labels, v, p);
    ConstTakes(sig, labels, Push(v, I32), n);
    StoreTakes(sig, labels, v, StoreI32);
    TakesBoth(sig, labels, v, [Const(p)], Push(v, I32), [Const(n)], Push(Push(v, I32), I32));
    TakesBoth(sig, labels, v, [Const(p)] + [Const(n)], Push(Push(v, I32), I32), [StoreI32], v);
  }

  lemma ArrayNumbers(gF: Gen, a: Arr, t: ATy)
    requires LayoutOk(gF) && Fits(gF) && a in gF.arrays && Matches(a, t)
    ensures InI32(a.base) && InI32(a.total)
  {
    ElementAddress(gF, a, a.total - 1);
    assert (a.total - 1) * a.size >= a.total - 1 by { AtLeastOnce(a.total - 1, a.size); }
  }

  lemma AtLeastOnce(n: int, k: int)
    requires n >= 0 && k >= 1
    ensures n * k >= n
  {
    assert n * (k - 1) >= 0;
  }

  lemma StringArgBounds(env: Env, depth: nat, types: Types, ctx: Ctx, g: Gen, gF: Gen, sig: Sig, a: Expr)
    requires Site(env, types, ctx, g, gF, sig) && (a.Str? || a.ty.TCharArray?) && ArgKindOf(env, depth, ctx, a).Some?
    requires Grows(StringArg(g, a).2, gF)
    ensures InI32(StringArg(g, a).0) && InI32(StringArg(g, a).1)
  {
    hide CtxOk, LayoutOk;
    if !a.Str? {
      SiteArray(env, types, ctx, g, gF, sig, a.name);
      ArrayNumbers(gF, FindArr(g.arrays, a.name).value, ctx.arrs[a.name]);
    }
  }

  lemma ArgTakes(env: Env, depth: nat, types: Types, ctx: Ctx, g: Gen, gF: Gen, sig: Sig, labels: nat, v: VStack, a: Expr, j: nat)
    requires Site(env, types, ctx, g, gF, sig) && ArgKindOf(env, depth, ctx, a).Some? && j < 64
    requires Grows(ArgCode(env, depth, g, a, j).g, gF)
    ensures Takes(sig, labels, v, ArgCode(env, depth, g, a, j).code, v)
  {
    hide Site, Takes, Push, ExprCode, TypeOf;
    var slot := ARGS_BASE + j * 8;
    if a.Str? || a.ty.TCharArray? {
      var t := StringArg(g, a);
      StringArgBounds(env, depth, types, ctx, g, gF, sig, a);
      SlotStoreTakes(sig, labels, v, slot, t.0);
      SlotStoreTakes(sig, labels, v, slot + 4, t.1);
      TakesBoth(sig, labels, v, [Const(slot)] + [Const(t.0)] + [StoreI32], v, [Const(slot + 4)] + [Const(t.1)] + [StoreI32], v);
      assert [Const(slot), Const(t.0), StoreI32, Const(slot + 4), Const(t.1), StoreI32] ==
             ([Const(slot)] + [Const(t.0)] + [StoreI32]) + ([Const(slot + 4)] + [Const(t.1)] + [StoreI32]);
    } else {
      var op := if WType(a.ty) == F64 then StoreF64 else StoreI32;
      var vc := ExprCode(env, depth, g, a).code;
      var vs := Push(v, I32);
      ConstTakes(sig, labels, v, slot);
      ExprTakes(env, depth, types, ctx, g, gF, sig, labels, vs, a);
      SmallPowers();
      StoreTakes(sig, labels, v, op);
      TakesBoth(sig, labels, v, [Const(slot)], vs, vc, Push(vs, WType(a.ty)));
      TakesBoth(sig, labels, v, [Const(slot)] + vc, Push(vs, WType(a.ty)), [op], v);
    }
  }

  lemma SitePool(env: Env, types: Types, ctx: Ctx, g: Gen, g': Gen, gF: Gen, sig: Sig)
    requires Site(env, types, ctx, g, gF, sig) && PoolOnly(g, g') && Grows(g', gF)
    ensures Site(env, types, ctx, g', gF, sig)
  {
    CtxPool(env, types, ctx, g, g');
  }

  lemma SiteCtx(env: Env, types: Types, ctx: Ctx, g: Gen, gF: Gen, sig: Sig)
    requires Site(env, types, ctx, g, gF, sig)
    ensures CtxOk(env, types, ctx, g) && Grows(g, gF)
  {
  }

  lemma {:induction false} ArgsTake(env: Env, depth: nat, types: Types, ctx: Ctx, g: Gen, gF: Gen, sig: Sig,
                                    labels: nat, v: VStack, args: seq<Expr>, j: nat)
    requires Site(env, types, ctx, g, gF, sig) && j + |args| <= 64
    requires forall k :: 0 <= k < |args| ==> ArgKindOf(env, depth, ctx, args[k]).Some?
    requires Grows(ArgsCode(env, depth, g, args, j).g, gF)
    ensures Takes(sig, labels, v, ArgsCode(env, depth, g, args, j).code, v)
    decreases |args|
  {
    hide Site, Takes, ArgCode, ArgKindOf;
    if args == [] {
      TakesNothing(sig, labels, v);
    } else {
      var a := ArgCode(env, depth, g, args[0], j);
      var r := ArgsCode(env, depth, a.g, args[1..], j + 1);
      ArgsGrow(env, depth, a.g, args[1..], j + 1);
      SiteCtx(env, types, ctx, g, gF, sig);
      ArgKeepsTables(env, depth, types, ctx, g, args[0], j);
      SitePool(env, types, ctx, g, a.g, gF, sig);
      ArgTakes(env, depth, types, ctx, g, gF, sig, labels, v, args[0], j);
      ArgsTake(env, depth, types, ctx, a.g, gF, sig, labels, v, args[1..], j + 1);
      TakesBoth(sig, labels, v, a.code, v, r.code, v);
    }
  }

  lemma TwoConsts(sig: Sig, labels: nat, v: VStack, p: int, n: int)
    requires InI32(p) && InI32(n)
    ensures Takes(sig, labels, v, [Const(p), Const(n)], Push(Push(v, I32), I32))
  {
    hide Takes, Push;
    ConstTakes(sig, labels, v, p);
    ConstTakes(sig, labels, Push(v, I32), n);
    TakesBoth(sig, labels, v, [Const(p)], Push(v, I32), [Const(n)], Push(Push(v, I32), I32));
    assert [Const(p)] + [Const(n)] == [Const(p), Const(n)];
  }

  lemma PopsPushed(v: VStack)
    ensures Pops(Push(Push(v, I32), I32), [I32, I32]) == Some(v)
    ensures Pops(Push(Push(Push(Push(v, I32), I32), I32), I32), [I32, I32, I32, I32]) == Some(v)
  {
    var v2 := Push(Push(v, I32), I32);
    var v4 := Push(Push(v2, I32), I32);
    PopsTwo(v2, I32, I32);
    assert [I32, I32, I32, I32][..3] == [I32, I32, I32] && [I32, I32, I32][..2] == [I32, I32];
    PushPop(Push(v2, I32), I32);
    PushPop(v2, I32);
    PushPop(Push(v, I32), I32);
    PushPop(v, I32);
    assert Pops(v4, [I32, I32, I32, I32]) == Pops(Push(v2, I32), [I32, I32, I32]);
    assert Pops(Push(v2, I32), [I32, I32, I32]) == Pops(v2, [I32, I32]);
  }

  lemma CallTakes(env: Env, sig: Sig, labels: nat, v: VStack)
    requires HostSig(Machine(env.host, env.fPrint, env.fPrintf), sig)
    ensures Takes(sig, labels, Push(Push(v, I32), I32), [Instr.Call(env.fPrint)], v)
    ensures Takes(sig, labels, Push(Push(Push(Push(v, I32), I32), I32), I32), [Instr.Call(env.fPrintf)], v)
  {
    PopsPushed(v);
    TakesOne(sig, labels, Push(Push(v, I32), I32), Instr.Call(env.fPrint), v);
    TakesOne(sig, labels, Push(Push(Push(Push(v, I32), I32), I32), I32), Instr.Call(env.fPrintf), v);
  }

  lemma PrintTakes(env: Env, depth: nat, types: Types, ctx: Ctx, g: Gen, gF: Gen, sig: Sig, labels: nat, v: VStack, args: seq<Expr>)
    requires Site(env, types, ctx, g, gF, sig) && OkPrint(env, depth, ctx, args)
    requires Grows(PrintCode(env, depth, g, args).g, gF)
    ensures Takes(sig, labels, v, PrintCode(env, depth, g, args).code, v)
  {
    hide CtxOk, LayoutOk, Takes, Push, ArgsCode, ArgKindOf;
    var t := Intern(g, args[0].text);
    var v2 := Push(Push(v, I32), I32);
    CallTakes(env, sig, labels, v);
    if |args| == 1 {
      TwoConsts(sig, labels, v, t.0, t.1);
      TakesBoth(sig, labels, v, [Const(t.0), Const(t.1)], v2, [Instr.Call(env.fPrint)], v);
      assert [Const(t.0), Const(t.1)] + [Instr.Call(env.fPrint)] == [Const(t.0), Const(t.1), Instr.Call(env.fPrint)];
    } else {
      var r := ArgsCode(env, depth, t.2, args[1..], 0);
      ArgsGrow(env, depth, t.2, args[1..], 0);
      SitePool(env, types, ctx, g, t.2, gF, sig);
      ArgsTake(env, depth, types, ctx, t.2, gF, sig, labels, v, args[1..], 0);
      TwoConsts(sig, labels, v, t.0, t.1);
      TwoConsts(sig, labels, v2, ARGS_BASE, |args| - 1);
      var v4 := Push(Push(v2, I32), I32);
      TakesBoth(sig, labels, v, r.code, v, [Const(t.0), Const(t.1)], v2);
      TakesBoth(sig, labels, v, r.code + [Const(t.0), Const(t.1)], v2, [Const(ARGS_BASE), Const(|args| - 1)], v4);
      TakesBoth(sig, labels, v, r.code + [Const(t.0), Const(t.1)] + [Const(ARGS_BASE), Const(|args| - 1)], v4,
                [Instr.Call(env.fPrintf)], v);
      assert r.code + [Const(t.0), Const(t.1)] + [Const(ARGS_BASE), Const(|args| - 1)] + [Instr.Call(env.fPrintf)] ==
             r.code + [Const(t.0), Const(t.1), Const(ARGS_BASE), Const(|args| - 1), Instr.Call(env.fPrintf)];
    }
  }

  // ---- control ----

  lemma BodyTakes(sig: Sig, labels: nat, b: seq<Instr>, w: VStack)
    requires Takes(sig, labels, VStack([], false), b, w) && w.opds == []
    ensures CheckBody(sig, labels, b) && WFSeq(b)
  {
  }

  lemma SiteMoves(env: Env, types: Types, ctx: Ctx, g: Gen, ctx': Ctx, g': Gen, gF: Gen, sig: Sig)
    requires Site(env, types, ctx, g, gF, sig) && CtxOk(env, types, ctx', g') && Grows(g', gF)
    ensures Site(env, types, ctx', g', gF, sig)
  {
    hide CtxOk, LayoutOk, Fits;
  }

  // Exit test: falls through with the stack as it was, or goes to the block around the loop.
  lemma ExitTakes(env: Env, depth: nat, types: Types, ctx: Ctx, g: Gen, gF: Gen, sig: Sig, labels: nat, v: VStack, cond: Option<Expr>)
    requires Site(env, types, ctx, g, gF, sig) && CondOk(env, depth, ctx, cond) && labels >= 2
    ensures Takes(sig, labels, v, ExitCode(env, depth, g, cond).code, v)
  {
    hide Site, Takes, Push, ExprCode, TypeOf;
    if cond.None? {
      TakesNothing(sig, labels, v);
    } else {
      var code := ExprCode(env, depth, g, cond.value).code;
      var v1 := Push(v, I32);
      ExprTakes(env, depth, types, ctx, g, gF, sig, labels, v, cond.value);
      NumTakes(sig, labels, v, 0x45);
      PushPop(v, I32);
      TakesOne(sig, labels, v1, BrIf(1), v);
      TakesBoth(sig, labels, v1, [Num(0x45)], v1, [BrIf(1)], v);
      TakesBoth(sig, labels, v, code, v1, [Num(0x45)] + [BrIf(1)], v);
      assert [Num(0x45)] + [BrIf(1)] == [Num(0x45), BrIf(1)];
    }
  }

  lemma {:induction false} ForTakes(env: Env, depth: nat, types: Types, ctx: Ctx, g: Gen, gF: Gen, sig: Sig,
                                    labels: nat, v: VStack, inLoop: bool, s: Stmt)
    requires s.For? && Site(env, types, ctx, g, gF, sig) && OkStmt(env, depth, types, ctx, inLoop, s).Some?
    requires Grows(StmtCode(env, depth, g, s).g, gF)
    ensures Takes(sig, labels, v, StmtCode(env, depth, g, s).code, v)
    decreases s, 0
  {
    hide Site, Takes, CtxOk, OkStmts, StmtsCode, OkOpt, OptStmtCode, CondOk, ExitCode, Extends, CheckInstr, WF;
    var i := OptStmtCode(env, depth, g, s.init);
    var c1 := OkOpt(env, depth, types, ctx, inLoop, s.init).value;
    SiteCtx(env, types, ctx, g, gF, sig);
    ForShape(env, depth, types, ctx, g, gF, inLoop, s);
    LoopFacts(env, depth, types, c1, i.g, s, gF);
    OptTakes(env, depth, types, ctx, g, gF, sig, labels, v, inLoop, s.init);
    SiteMoves(env, types, ctx, g, c1, i.g, gF, sig);
    var b := StmtsCode(env, depth, i.g, s.body);
    SiteMoves(env, types, ctx, g, c1, b.g, gF, sig);
    var none := VStack([], false);
    LoopCond(env, depth, types, c1, i.g, s, gF);
    ExitTakes(env, depth, types, c1, i.g, gF, sig, labels + 2, none, s.cond);
    StmtsTake(env, depth, types, c1, i.g, gF, sig, labels + 2, none, true, s.body);
    OptTakes(env, depth, types, c1, b.g, gF, sig, labels + 2, none, true, s.incr);
    LoopTakes(sig, labels, v, ExitCode(env, depth, i.g, s.cond).code, b.code, OptStmtCode(env, depth, b.g, s.incr).code);
    TakesBoth(sig, labels, v, i.code, v, [Block([Loop(LoopBody(env, depth, i.g, s))])], v);
  }

  // The loop in its exit block.
  lemma LoopTakes(sig: Sig, labels: nat, v: VStack, x: seq<Instr>, b: seq<Instr>, n: seq<Instr>)
    requires var none := VStack([], false);
             && Takes(sig, labels + 2, none, x, none) && Takes(sig, labels + 2, none, b, none)
             && Takes(sig, labels + 2, none, n, none)
    ensures Takes(sig, labels, v, [Block([Loop(x + (b + (n + [Br(0)])))])], v)
  {
    hide Takes;
    var none, dead := VStack([], false), VStack([], true);
    var body := x + (b + (n + [Br(0)]));
    TakesOne(sig, labels + 2, none, Br(0), dead);
    TakesBoth(sig, labels + 2, none, n, none, [Br(0)], dead);
    TakesBoth(sig, labels + 2, none, b, none, n + [Br(0)], dead);
    TakesBoth(sig, labels + 2, none, x, none, b + (n + [Br(0)]), dead);
    BodyTakes(sig, labels + 2, body, dead);
    TakesOne(sig, labels + 1, none, Loop(body), none);
    BodyTakes(sig, labels + 1, [Loop(body)], none);
    TakesOne(sig, labels, v, Block([Loop(body)]), v);
  }

  lemma {:induction false} OptTakes(env: Env, depth: nat, types: Types, ctx: Ctx, g: Gen, gF: Gen, sig: Sig,
                                    labels: nat, v: VStack, inLoop: bool, s: Option<Stmt>)
    requires Site(env, types, ctx, g, gF, sig) && OkOpt(env, depth, types, ctx, inLoop, s).Some?
    requires Grows(OptStmtCode(env, depth, g, s).g, gF)
    ensures Takes(sig, labels, v, OptStmtCode(env, depth, g, s).code, v)
    decreases s, 2
  {
    hide Site, Takes;
    if s.Some? {
      StmtTakes(env, depth, types, ctx, g, gF, sig, labels, v, inLoop, s.value);
    } else {
      TakesNothing(sig, labels, v);
    }
  }

  lemma {:induction false} CondTakes(env: Env, depth: nat, types: Types, ctx: Ctx, g: Gen, gF: Gen, sig: Sig,
                                     labels: nat, v: VStack, inLoop: bool, s: Stmt)
    requires s.Cond? && Site(env, types, ctx, g, gF, sig) && OkStmt(env, depth, types, ctx, inLoop, s).Some?
    requires Grows(StmtCode(env, depth, g, s).g, gF)
    ensures Takes(sig, labels, v, StmtCode(env, depth, g, s).code, v)
    decreases s, 0
  {
    hide Site, Takes, Push, CtxOk, OkStmts, StmtsCode, Extends, ExprCode, TypeOf, WF;
    var c1 := OkStmts(env, depth, types, ctx, inLoop, s.thn).value;
    var mid := Ctx(ctx.vars, ctx.arrs, c1.seen);
    var cc := ExprCode(env, depth, g, s.test).code;
    var t := StmtsCode(env, depth, g, s.thn);
    var e := StmtsCode(env, depth, t.g, s.els);
    var none := VStack([], false);
    SiteCtx(env, types, ctx, g, gF, sig);
    CondShape(env, depth, types, ctx, g, gF, inLoop, s);
    ExprTakes(env, depth, types, ctx, g, gF, sig, labels, v, s.test);
    StmtsTake(env, depth, types, ctx, g, gF, sig, labels + 1, none, inLoop, s.thn);
    SiteMoves(env, types, ctx, g, mid, t.g, gF, sig);
    StmtsTake(env, depth, types, mid, t.g, gF, sig, labels + 1, none, inLoop, s.els);
    NoStmts(env, depth, t.g, s.els);
    IfTakes(sig, labels, v, t.code, s.els != [], e.code);
    TakesBoth(sig, labels, v, cc, Push(v, I32), [If(t.code, s.els != [], e.code)], v);
  }

  lemma NoStmts(env: Env, depth: nat, g: Gen, ss: seq<Stmt>)
    ensures ss == [] ==> StmtsCode(env, depth, g, ss).code == []
  {
  }

  lemma IfTakes(sig: Sig, labels: nat, v: VStack, t: seq<Instr>, hasElse: bool, e: seq<Instr>)
    requires var none := VStack([], false); Takes(sig, labels + 1, none, t, none) && Takes(sig, labels + 1, none, e, none)
    requires !hasElse ==> e == []
    ensures Takes(sig, labels, Push(v, I32), [If(t, hasElse, e)], v)
  {
    hide Takes;
    var none := VStack([], false);
    BodyTakes(sig, labels + 1, t, none);
    BodyTakes(sig, labels + 1, e, none);
    PushPop(v, I32);
    TakesOne(sig, labels, Push(v, I32), If(t, hasElse, e), v);
  }

  // A statement's code takes any stack to itself at any label depth: no branch leaves the statement.
  lemma {:induction false} StmtTakes(env: Env, depth: nat, types: Types, ctx: Ctx, g: Gen, gF: Gen, sig: Sig,
                                     labels: nat, v: VStack, inLoop: bool, s: Stmt)
    requires Site(env, types, ctx, g, gF, sig) && OkStmt(env, depth, types, ctx, inLoop, s).Some?
    requires Grows(StmtCode(env, depth, g, s).g, gF)
    ensures Takes(sig, labels, v, StmtCode(env, depth, g, s).code, v)
    decreases s, 1
  {
    hide Site, Takes, BindCode, AssignCode, PrintCode, OkBind, OkAssign, OkPrint, Grows;
    match s
    case Bind(name, declared, value) =>
      if BindArrayType(declared, value).Some? {
        BindArrayTakes(env, depth, types, ctx, g, gF, sig, labels, v, inLoop, name, declared, value);
      } else {
        BindScalarTakes(env, depth, types, ctx, g, gF, sig, labels, v, inLoop, name, declared, value);
      }
    case Assign(target, rhs, op) =>
      if target.Name? {
        AssignVarTakes(env, depth, types, ctx, g, gF, sig, labels, v, target, rhs, op);
      } else {
        AssignIsElem(env, depth, ctx, target, rhs, op);
        AssignElemTakes(env, depth, types, ctx, g, gF, sig, labels, v, target, rhs, op);
      }
    case For(_, _, _, _, _) => ForTakes(env, depth, types, ctx, g, gF, sig, labels, v, inLoop, s);
    case Cond(_, _, _) => CondTakes(env, depth, types, ctx, g, gF, sig, labels, v, inLoop, s);
    case Eff(expr) => PrintTakes(env, depth, types, ctx, g, gF, sig, labels, v, Unwrap(expr).args);
    case Skip =>
  }

  lemma AssignIsElem(env: Env, depth: nat, ctx: Ctx, target: Expr, rhs: Expr, op: Option<Op>)
    requires OkAssign(env, depth, ctx, target, rhs, op)
    ensures target.Name? || target.Index?
  {
  }

  lemma {:induction false} StmtsTake(env: Env, depth: nat, types: Types, ctx: Ctx, g: Gen, gF: Gen, sig: Sig,
                                     labels: nat, v: VStack, inLoop: bool, ss: seq<Stmt>)
    requires Site(env, types, ctx, g, gF, sig) && OkStmts(env, depth, types, ctx, inLoop, ss).Some?
    requires Grows(StmtsCode(env, depth, g, ss).g, gF)
    ensures Takes(sig, labels, v, StmtsCode(env, depth, g, ss).code, v)
    decreases ss, 0
  {
    hide Site, Takes, OkStmt, StmtCode;
    if ss == [] {
      TakesNothing(sig, labels, v);
    } else {
      var a := StmtCode(env, depth, g, ss[0]);
      var b := StmtsCode(env, depth, a.g, ss[1..]);
      var c1 := OkStmt(env, depth, types, ctx, inLoop, ss[0]).value;
      SiteCtx(env, types, ctx, g, gF, sig);
      StmtsGrow(env, depth, a.g, ss[1..]);
      GrowsTrans(a.g, b.g, gF);
      StmtKeepsCtx(env, depth, types, ctx, g, inLoop, ss[0]);
      SiteMoves(env, types, ctx, g, c1, a.g, gF, sig);
      StmtTakes(env, depth, types, ctx, g, gF, sig, labels, v, inLoop, ss[0]);
      StmtsTake(env, depth, types, c1, a.g, gF, sig, labels, v, inLoop, ss[1..]);
      TakesBoth(sig, labels, v, a.code, v, b.code, v);
    }
  }
}

// The generator's tables: they only grow, names keep their places, arrays do not overlap, and generating code for
// a supported construct keeps the static context and the tables in step.
module WasmTables {
  import opened Bytes
  import opened WasmInstr
  import opened Values
  import opened Hir
  import opened WasmGen
  import opened HirSem
  import opened Fragment

  // ---- growth ----

  predicate Grows(g: Gen, g': Gen) {
    g.locals <= g'.locals && g.arrays <= g'.arrays && g.strings <= g'.strings && g.cursor <= g'.cursor
  }

  lemma {:induction false} SizesPositive(t: HType)
    ensures TotalElems(t) >= 1 && ScalarSize(t) >= 1
  {
    match t
    case TShaped(e, rank) =>
      SizesPositive(e);
      var n := if rank > 0 then rank else 1;
      assert n * TotalElems(e) >= 1 by {
        ProductPositive(n, TotalElems(e));
      }
    case TArray(e) => SizesPositive(e);
    case _ =>
  }

  lemma ProductPositive(a: int, b: int)
    requires a >= 1 && b >= 1
    ensures a * b >= 1
  {
  }

  lemma DeclareGrows(g: Gen, name: string, t: HType)
    ensures Grows(g, DeclareArr(g, name, t).1)
  {
    SizesPositive(t);
    SizesPositive(ElemBase(t));
    ProductPositive(TotalElems(t), ScalarSize(ElemBase(t)));
  }

  lemma {:induction false} ExprGrows(env: Env, depth: nat, g: Gen, e: Expr)
    ensures Grows(g, ExprCode(env, depth, g, e).g)
    decreases depth, e
  {
    match e
    case Name(nm, ty) =>
      if FindConst(env.consts, nm).Some? && depth > 0 {
        ExprGrows(env, depth - 1, g, FindConst(env.consts, nm).value);
      }
    case Binary(op, l, r, _) =>
      ExprGrows(env, depth, g, l);
      ExprGrows(env, depth, ExprCode(env, depth, g, l).g, r);
    case Index(base, indices, _) =>
      if |indices| == 1 {
        ExprGrows(env, depth, g, indices[0]);
      }
    case _ =>
  }

  lemma {:induction false} ElementsGrow(env: Env, depth: nat, g: Gen, a: Arr, elements: seq<Expr>, k: nat)
    ensures Grows(g, ElementsCode(env, depth, g, a, elements, k).g)
    decreases |elements|
  {
    if elements != [] && k < a.total {
      ExprGrows(env, depth, g, elements[0]);
      var v := ValueCode(env, depth, g, a.wt, elements[0]);
      ElementsGrow(env, depth, v.g, a, elements[1..], k + 1);
    }
  }

  lemma {:induction false} ArgsGrow(env: Env, depth: nat, g: Gen, args: seq<Expr>, j: nat)
    ensures Grows(g, ArgsCode(env, depth, g, args, j).g)
    decreases |args|
  {
    if args != [] {
      ExprGrows(env, depth, g, args[0]);
      ArgsGrow(env, depth, ArgCode(env, depth, g, args[0], j).g, args[1..], j + 1);
    }
  }

  lemma BindGrows(env: Env, depth: nat, g: Gen, name: string, declared: Option<HType>, value: Option<Expr>)
    ensures Grows(g, BindCode(env, depth, g, name, declared, value).g)
  {
    match BindArrayType(declared, value)
    case Some(t) =>
      DeclareGrows(g, name, t);
      var d := DeclareArr(g, name, t);
      if d.0.Some? && value.Some? && value.value.ArrayLit? {
        ElementsGrow(env, depth, d.1, d.0.value, value.value.elements, 0);
      }
    case None =>
      if value.Some? {
        ExprGrows(env, depth, g, value.value);
      }
  }

  lemma IndexAssignGrows(env: Env, depth: nat, g: Gen, a: Arr, idx: Expr, rhs: Expr, twice: bool)
    ensures var g1 := ExprCode(env, depth, g, idx).g;
            var g2 := if twice then ExprCode(env, depth, g1, idx).g else g1;
            Grows(g, ExprCode(env, depth, g2, rhs).g)
  {
    var g1 := ExprCode(env, depth, g, idx).g;
    var g2 := if twice then ExprCode(env, depth, g1, idx).g else g1;
    ExprGrows(env, depth, g, idx);
    ExprGrows(env, depth, g1, idx);
    ExprGrows(env, depth, g2, rhs);
  }

  lemma AssignGrows(env: Env, depth: nat, g: Gen, target: Expr, rhs: Expr, op: Option<Op>)
    ensures Grows(g, AssignCode(env, depth, g, target, rhs, op).g)
  {
    hide ExprCode, ArrOf;
    match target
    case Index(base, indices, _) =>
      if ArrOf(g, base).Some? && |indices| == 1 {
        var a := ArrOf(g, base).value;
        IndexAssignGrows(env, depth, g, a, indices[0], rhs, op.Some?);
        assert AddrCode(env, depth, g, a, indices[0]).g == ExprCode(env, depth, g, indices[0]).g;
      }
    case Name(nm, ty) =>
      ExprGrows(env, depth, LocalIndex(g, nm, WType(ty)).1, rhs);
    case _ =>
  }

  lemma {:induction false} OptGrows(env: Env, depth: nat, g: Gen, s: Option<Stmt>)
    ensures Grows(g, OptStmtCode(env, depth, g, s).g)
    decreases s, 1
  {
    if s.Some? {
      StmtGrows(env, depth, g, s.value);
    }
  }

  lemma ExitGrows(env: Env, depth: nat, g: Gen, cond: Option<Expr>)
    ensures Grows(g, ExitCode(env, depth, g, cond).g)
  {
    if cond.Some? {
      ExprGrows(env, depth, g, cond.value);
    }
  }

  lemma {:induction false} StmtGrows(env: Env, depth: nat, g: Gen, s: Stmt)
    ensures Grows(g, StmtCode(env, depth, g, s).g)
    decreases s, 0
  {
    match s
    case Bind(name, declared, value) => BindGrows(env, depth, g, name, declared, value);
    case Assign(target, rhs, op) => AssignGrows(env, depth, g, target, rhs, op);
    case For(_, init, cond, incr, body) =>
      var i := OptStmtCode(env, depth, g, init);
      var x := ExitCode(env, depth, i.g, cond);
      var b := StmtsCode(env, depth, x.g, body);
      OptGrows(env, depth, g, init);
      ExitGrows(env, depth, i.g, cond);
      StmtsGrow(env, depth, x.g, body);
      OptGrows(env, depth, b.g, incr);
    case Cond(test, thn, els) =>
      var c := ExprCode(env, depth, g, test);
      var t := StmtsCode(env, depth, c.g, thn);
      ExprGrows(env, depth, g, test);
      StmtsGrow(env, depth, c.g, thn);
      StmtsGrow(env, depth, t.g, els);
    case Eff(expr) =>
      var e := Unwrap(expr);
      if IsPrintCall(e) && e.args != [] && e.args[0].Str? && |e.args| > 1 {
        ArgsGrow(env, depth, Intern(g, e.args[0].text).2, e.args[1..], 0);
      }
    case Skip =>
  }

  lemma {:induction false} StmtsGrow(env: Env, depth: nat, g: Gen, ss: seq<Stmt>)
    ensures Grows(g, StmtsCode(env, depth, g, ss).g)
    decreases ss, 0
  {
    if ss != [] {
      StmtGrows(env, depth, g, ss[0]);
      StmtsGrow(env, depth, StmtCode(env, depth, g, ss[0]).g, ss[1..]);
    }
  }

  // ---- lookups ----

  lemma {:induction false} FindLocalStable(a: seq<Local>, b: seq<Local>, name: string)
    requires a <= b && FindLocal(a, name).Some?
    ensures FindLocal(b, name) == FindLocal(a, name)
    decreases |a|
  {
    if a[0].name != name {
      FindLocalStable(a[1..], b[1..], name);
    }
  }

  lemma {:induction false} FindLocalNew(a: seq<Local>, l: Local)
    requires FindLocal(a, l.name).None?
    ensures FindLocal(a + [l], l.name) == Some(|a|)
    decreases |a|
  {
    if a == [] {
      assert a + [l] == [l];
    } else {
      assert (a + [l])[1..] == a[1..] + [l];
      FindLocalNew(a[1..], l);
    }
  }

  lemma {:induction false} FindArrStable(a: seq<Arr>, b: seq<Arr>, name: string)
    requires a <= b && FindArr(a, name).Some?
    ensures FindArr(b, name) == FindArr(a, name)
    decreases |a|
  {
    if a[0].name != name {
      FindArrStable(a[1..], b[1..], name);
    }
  }

  lemma {:induction false} FindArrNew(a: seq<Arr>, x: Arr)
    requires forall i :: 0 <= i < |a| ==> a[i].name != x.name
    ensures FindArr(a + [x], x.name) == Some(x)
    decreases |a|
  {
    if a == [] {
      assert a + [x] == [x];
    } else {
      assert (a + [x])[1..] == a[1..] + [x];
      FindArrNew(a[1..], x);
    }
  }

  // ---- the static context describes the tables ----

  function ElemSize(e: ETy): int {
    match e case EInt(w, _) => w / 8 case EChar => 1 case EBool => 4 case EFloat => 8
  }

  predicate ElemOk(e: ETy) {
    e.EInt? ==> e.width == 8 || e.width == 16 || (e.width == 32 && e.isSigned)
  }

  predicate Matches(a: Arr, t: ATy) {
    && ElemOk(t.elem) && a.total == t.total >= 1 && a.size == ElemSize(t.elem)
    && a.wt == (if t.elem.EFloat? then F64 else I32)
    && a.isSigned == (t.elem.EInt? && t.elem.isSigned)
  }

  function End(a: Arr): int { a.base + a.total * a.size }

  // Arrays lie one after another from the array base up to the cursor.
  predicate LayoutOk(g: Gen) {
    && g.cursor == (if g.arrays == [] then ARRAYS_BASE else End(g.arrays[|g.arrays| - 1])) >= ARRAYS_BASE
    && (forall i :: 0 <= i < |g.arrays| ==>
          ARRAYS_BASE <= g.arrays[i].base <= End(g.arrays[i]) <= g.cursor && g.arrays[i].size in {1, 2, 4, 8})
    && (forall i, j :: 0 <= i < j < |g.arrays| ==> End(g.arrays[i]) <= g.arrays[j].base)
  }

  // Visible scalars have a local of their type.
  ghost predicate VarsOk(env: Env, types: Types, vars: map<string, STy>, locals: seq<Local>) {
    forall x :: x in vars ==>
      && x in types && types[x] == vars[x] && FindConst(env.consts, x).None?
      && FindLocal(locals, x).Some? && locals[FindLocal(locals, x).value].wt == WTy(vars[x])
  }

  predicate LocalsOk(types: Types, locals: seq<Local>) {
    forall i :: 0 <= i < |locals| ==> locals[i].name in types && locals[i].wt == WTy(types[locals[i].name])
  }

  // Visible arrays have a record of their type.
  ghost predicate ArrsOk(arrs: map<string, ATy>, arrays: seq<Arr>) {
    forall a :: a in arrs ==> FindArr(arrays, a).Some? && Matches(FindArr(arrays, a).value, arrs[a])
  }

  predicate SeenOk(seen: set<string>, arrays: seq<Arr>) {
    |arrays| == |seen| && forall i :: 0 <= i < |arrays| ==> arrays[i].name in seen
  }

  ghost predicate CtxOk(env: Env, types: Types, ctx: Ctx, g: Gen) {
    && LayoutOk(g) && VarsOk(env, types, ctx.vars, g.locals) && LocalsOk(types, g.locals)
    && ArrsOk(ctx.arrs, g.arrays) && SeenOk(ctx.seen, g.arrays)
  }

  // A smaller context over the same tables.
  lemma CtxNarrow(env: Env, types: Types, ctx: Ctx, g: Gen, inner: Ctx)
    requires CtxOk(env, types, ctx, g)
    requires inner.seen == ctx.seen
    requires forall x :: x in inner.vars ==> x in ctx.vars && inner.vars[x] == ctx.vars[x]
    requires forall a :: a in inner.arrs ==> a in ctx.arrs && inner.arrs[a] == ctx.arrs[a]
    ensures CtxOk(env, types, inner, g)
  {
  }

  // The outer block's names are still right after the tables have grown inside an inner block.
  lemma CtxWiden(env: Env, types: Types, outer: Ctx, g: Gen, inner: Ctx, g': Gen)
    requires CtxOk(env, types, outer, g) && CtxOk(env, types, inner, g') && Grows(g, g')
    ensures CtxOk(env, types, Ctx(outer.vars, outer.arrs, inner.seen), g')
  {
    hide End;
    forall x | x in outer.vars
      ensures FindLocal(g'.locals, x) == FindLocal(g.locals, x)
    {
      FindLocalStable(g.locals, g'.locals, x);
    }
    forall a | a in outer.arrs
      ensures FindArr(g'.arrays, a) == FindArr(g.arrays, a)
    {
      FindArrStable(g.arrays, g'.arrays, a);
    }
  }

  // What a typed expression says of its parts.
  lemma PartsTyped(env: Env, depth: nat, ctx: Ctx, e: Expr)
    requires TypeOf(env, depth, ctx, e).Some?
    ensures e.Binary? ==> TypeOf(env, depth, ctx, e.left).Some? && TypeOf(env, depth, ctx, e.right).Some?
    ensures e.Index? ==> |e.indices| == 1 && TypeOf(env, depth, ctx, e.indices[0]).Some?
    ensures e.Name? && FindConst(env.consts, e.name).Some? ==>
              depth > 0 && TypeOf(env, depth - 1, Ctx(map[], map[], ctx.seen), FindConst(env.consts, e.name).value).Some?
  {
    hide NoFail, TypeBin, OperandsOk, TypeLit;
  }

  lemma NameKeepsTables(env: Env, depth: nat, types: Types, ctx: Ctx, g: Gen, e: Expr)
    requires CtxOk(env, types, ctx, g) && e.Name? && FindConst(env.consts, e.name).None? && TypeOf(env, depth, ctx, e).Some?
    ensures ExprCode(env, depth, g, e).g == g
  {
  }

  // A supported expression mentions only what is in the tables already.
  lemma {:induction false} ExprKeepsTables(env: Env, depth: nat, types: Types, ctx: Ctx, g: Gen, e: Expr)
    requires CtxOk(env, types, ctx, g) && TypeOf(env, depth, ctx, e).Some?
    ensures ExprCode(env, depth, g, e).g == g
    decreases depth, e
  {
    PartsTyped(env, depth, ctx, e);
    hide TypeOf, CtxOk;
    match e
    case Name(nm, ty) =>
      if FindConst(env.consts, nm).Some? {
        var closed := Ctx(map[], map[], ctx.seen);
        CtxNarrow(env, types, ctx, g, closed);
        ExprKeepsTables(env, depth - 1, types, closed, g, FindConst(env.consts, nm).value);
      } else {
        NameKeepsTables(env, depth, types, ctx, g, e);
      }
    case Binary(op, l, r, _) =>
      ExprKeepsTables(env, depth, types, ctx, g, l);
      ExprKeepsTables(env, depth, types, ctx, g, r);
    case Index(base, indices, _) =>
      ExprKeepsTables(env, depth, types, ctx, g, indices[0]);
    case _ =>
  }

  lemma {:induction false} ElementsKeepTables(env: Env, depth: nat, types: Types, ctx: Ctx, g: Gen, a: Arr, e: ETy,
                                              elements: seq<Expr>, k: nat)
    requires CtxOk(env, types, ctx, g) && ElementsOk(env, depth, ctx, e, elements)
    ensures ElementsCode(env, depth, g, a, elements, k).g == g
    decreases |elements|
  {
    if elements != [] && k < a.total {
      ExprKeepsTables(env, depth, types, ctx, g, elements[0]);
      ElementsKeepTables(env, depth, types, ctx, g, a, e, elements[1..], k + 1);
    }
  }

  // Declaring an array of a supported type.
  lemma DeclareShape(g: Gen, name: string, t: HType)
    requires ArrayTy(t).Some? && |g.arrays| < MAX_ARRAYS
    ensures var d := DeclareArr(g, name, t);
            var at := ArrayTy(t).value;
            && d.0.Some? && Matches(d.0.value, ATy(at.0, at.1)) && d.0.value.name == name
            && d.0.value.base == g.cursor && d.1.cursor == End(d.0.value) >= g.cursor
            && d.1 == Gen(g.locals, g.arrays + [d.0.value], End(d.0.value), g.strings)
            && d.0.value.size in {1, 2, 4, 8}
  {
    var a := DeclareArr(g, name, t).0.value;
    assert TotalElems(t.elem) == 1;
    assert ElemBase(t) == t.elem;
    ProductPositive(a.total, a.size);
  }

  lemma LayoutExtends(g: Gen, a: Arr)
    requires LayoutOk(g) && a.base == g.cursor <= End(a) && a.size in {1, 2, 4, 8}
    ensures LayoutOk(Gen(g.locals, g.arrays + [a], End(a), g.strings))
  {
  }

  lemma ArrsExtend(arrs: map<string, ATy>, seen: set<string>, arrays: seq<Arr>, a: Arr, t: ATy)
    requires ArrsOk(arrs, arrays) && SeenOk(seen, arrays) && a.name !in seen && Matches(a, t)
    ensures ArrsOk(arrs[a.name := t], arrays + [a]) && ArrsOk(arrs, arrays + [a])
    ensures SeenOk(seen + {a.name}, arrays + [a])
    ensures FindArr(arrays + [a], a.name) == Some(a)
  {
    FindArrNew(arrays, a);
    forall b | b in arrs
      ensures b != a.name && FindArr(arrays + [a], b) == FindArr(arrays, b)
    {
      assert FindArr(arrays, b).value in arrays;
      FindArrStable(arrays, arrays + [a], b);
    }
  }

  lemma DeclareOk(env: Env, types: Types, ctx: Ctx, g: Gen, name: string, t: HType)
    requires CtxOk(env, types, ctx, g) && ArrayTy(t).Some?
    requires name !in ctx.seen && |ctx.seen| < MAX_ARRAYS
    ensures var d := DeclareArr(g, name, t);
            var at := ArrayTy(t).value;
            && d.0.Some? && Matches(d.0.value, ATy(at.0, at.1)) && FindArr(d.1.arrays, name) == d.0
            && d.0.value.base == g.cursor && d.1.cursor == End(d.0.value)
            && CtxOk(env, types, Ctx(ctx.vars, ctx.arrs[name := ATy(at.0, at.1)], ctx.seen + {name}), d.1)
            && CtxOk(env, types, Ctx(ctx.vars, ctx.arrs, ctx.seen + {name}), d.1)
  {
    var d := DeclareArr(g, name, t);
    var at := ArrayTy(t).value;
    DeclareShape(g, name, t);
    LayoutExtends(g, d.0.value);
    ArrsExtend(ctx.arrs, ctx.seen, g.arrays, d.0.value, ATy(at.0, at.1));
  }

  lemma BindScalarOk(env: Env, types: Types, ctx: Ctx, g: Gen, name: string, wt: ValType)
    requires CtxOk(env, types, ctx, g)
    requires name in types && wt == WTy(types[name]) && FindConst(env.consts, name).None?
    ensures CtxOk(env, types, Ctx(ctx.vars[name := types[name]], ctx.arrs, ctx.seen), LocalIndex(g, name, wt).1)
    ensures var p := LocalIndex(g, name, wt); FindLocal(p.1.locals, name) == Some(p.0)
  {
    hide ArrsOk, SeenOk;
    var p := LocalIndex(g, name, wt);
    if FindLocal(g.locals, name).None? {
      FindLocalNew(g.locals, Local(name, wt));
    }
    forall x | x in ctx.vars
      ensures FindLocal(p.1.locals, x) == FindLocal(g.locals, x)
    {
      FindLocalStable(g.locals, p.1.locals, x);
    }
  }

  lemma BindKeepsCtx(env: Env, depth: nat, types: Types, ctx: Ctx, g: Gen, inLoop: bool, name: string,
                     declared: Option<HType>, value: Option<Expr>)
    requires CtxOk(env, types, ctx, g)
    requires OkBind(env, depth, types, ctx, inLoop, name, declared, value).Some?
    ensures CtxOk(env, types, OkBind(env, depth, types, ctx, inLoop, name, declared, value).value,
                  BindCode(env, depth, g, name, declared, value).g)
  {
    hide End;
    match BindArrayType(declared, value)
    case Some(t) =>
      DeclareOk(env, types, ctx, g, name, t);
      var d := DeclareArr(g, name, t);
      if value.Some? {
        var bare := Ctx(ctx.vars, ctx.arrs, ctx.seen + {name});
        ElementsTyped(env, depth, ctx, bare, ArrayTy(t).value.0, value.value.elements);
        ElementsKeepTables(env, depth, types, bare, d.1, d.0.value, ArrayTy(t).value.0, value.value.elements, 0);
      }
    case None =>
      if value.Some? {
        ExprKeepsTables(env, depth, types, ctx, g, value.value);
      }
      BindScalarOk(env, types, ctx, g, name, WTy(types[name]));
  }

  // Typing does not look at the set of declared arrays.
  lemma {:induction false} TypeIgnoresSeen(env: Env, depth: nat, ctx: Ctx, seen: set<string>, e: Expr)
    ensures TypeOf(env, depth, Ctx(ctx.vars, ctx.arrs, seen), e) == TypeOf(env, depth, ctx, e)
    decreases depth, e
  {
    match e
    case Name(nm, _) =>
      if FindConst(env.consts, nm).Some? && depth > 0 {
        TypeIgnoresSeen(env, depth - 1, Ctx(map[], map[], ctx.seen), seen, FindConst(env.consts, nm).value);
      }
    case Binary(op, l, r, _) =>
      TypeIgnoresSeen(env, depth, ctx, seen, l);
      TypeIgnoresSeen(env, depth, ctx, seen, r);
    case Index(base, indices, _) =>
      if |indices| == 1 {
        TypeIgnoresSeen(env, depth, ctx, seen, indices[0]);
      }
    case _ =>
  }

  lemma ElementsTyped(env: Env, depth: nat, ctx: Ctx, bare: Ctx, e: ETy, elements: seq<Expr>)
    requires ElementsOk(env, depth, ctx, e, elements)
    requires bare.vars == ctx.vars && bare.arrs == ctx.arrs
    ensures ElementsOk(env, depth, bare, e, elements)
  {
    forall i | 0 <= i < |elements|
      ensures TypeOf(env, depth, bare, elements[i]) == TypeOf(env, depth, ctx, elements[i])
    {
      TypeIgnoresSeen(env, depth, ctx, bare.seen, elements[i]);
    }
  }

  lemma KnownName(env: Env, types: Types, ctx: Ctx, g: Gen)
    requires CtxOk(env, types, ctx, g)
    ensures forall x :: x in ctx.vars ==> FindLocal(g.locals, x).Some?
  {
  }

  lemma AssignKeepsTables(env: Env, depth: nat, types: Types, ctx: Ctx, g: Gen, target: Expr, rhs: Expr, op: Option<Op>)
    requires CtxOk(env, types, ctx, g) && OkAssign(env, depth, ctx, target, rhs, op)
    ensures AssignCode(env, depth, g, target, rhs, op).g == g
  {
    hide CtxOk, TypeOf;
    ExprKeepsTables(env, depth, types, ctx, g, rhs);
    KnownName(env, types, ctx, g);
    match target
    case Index(base, indices, _) => ExprKeepsTables(env, depth, types, ctx, g, indices[0]);
    case _ =>
  }

  // Strings enter the pool; nothing else changes.
  predicate PoolOnly(g: Gen, g': Gen) {
    g' == g.(strings := g'.strings) && g.strings <= g'.strings
  }

  lemma CtxPool(env: Env, types: Types, ctx: Ctx, g: Gen, g': Gen)
    requires CtxOk(env, types, ctx, g) && PoolOnly(g, g')
    ensures CtxOk(env, types, ctx, g')
  {
  }

  lemma ArgKeepsTables(env: Env, depth: nat, types: Types, ctx: Ctx, g: Gen, a: Expr, j: nat)
    requires CtxOk(env, types, ctx, g) && ArgKindOf(env, depth, ctx, a).Some?
    ensures PoolOnly(g, ArgCode(env, depth, g, a, j).g)
  {
    if !a.Str? && !a.ty.TCharArray? {
      ExprKeepsTables(env, depth, types, ctx, g, a);
    }
  }

  lemma {:induction false} ArgsKeepTables(env: Env, depth: nat, types: Types, ctx: Ctx, g: Gen, args: seq<Expr>, j: nat)
    requires CtxOk(env, types, ctx, g)
    requires forall k :: 0 <= k < |args| ==> ArgKindOf(env, depth, ctx, args[k]).Some?
    ensures PoolOnly(g, ArgsCode(env, depth, g, args, j).g)
    decreases |args|
  {
    if args != [] {
      var a := ArgCode(env, depth, g, args[0], j);
      ArgKeepsTables(env, depth, types, ctx, g, args[0], j);
      CtxPool(env, types, ctx, g, a.g);
      ArgsKeepTables(env, depth, types, ctx, a.g, args[1..], j + 1);
    }
  }

  lemma {:induction false} OptKeepsCtx(env: Env, depth: nat, types: Types, ctx: Ctx, g: Gen, inLoop: bool, s: Option<Stmt>)
    requires CtxOk(env, types, ctx, g) && OkOpt(env, depth, types, ctx, inLoop, s).Some?
    ensures CtxOk(env, types, OkOpt(env, depth, types, ctx, inLoop, s).value, OptStmtCode(env, depth, g, s).g)
    decreases s, 3
  {
    hide End;
    if s.Some? {
      StmtKeepsCtx(env, depth, types, ctx, g, inLoop, s.value);
    }
  }

  lemma ExitKeepsTables(env: Env, depth: nat, types: Types, ctx: Ctx, g: Gen, cond: Option<Expr>)
    requires CtxOk(env, types, ctx, g) && CondOk(env, depth, ctx, cond)
    ensures ExitCode(env, depth, g, cond).g == g
  {
    if cond.Some? {
      ExprKeepsTables(env, depth, types, ctx, g, cond.value);
    }
  }

  // Inside a loop no array is declared.
  lemma {:induction false} LoopDeclaresNothing(env: Env, depth: nat, types: Types, ctx: Ctx, s: Stmt)
    requires OkStmt(env, depth, types, ctx, true, s).Some?
    ensures OkStmt(env, depth, types, ctx, true, s).value.seen == ctx.seen
    decreases s, 0
  {
    match s
    case For(_, init, cond, incr, body) =>
      if init.Some? {
        LoopDeclaresNothing(env, depth, types, ctx, init.value);
      }
    case Cond(test, thn, els) =>
      LoopDeclaresNothingAll(env, depth, types, ctx, thn);
      LoopDeclaresNothingAll(env, depth, types, ctx, els);
    case _ =>
  }

  lemma {:induction false} LoopDeclaresNothingAll(env: Env, depth: nat, types: Types, ctx: Ctx, ss: seq<Stmt>)
    requires OkStmts(env, depth, types, ctx, true, ss).Some?
    ensures OkStmts(env, depth, types, ctx, true, ss).value.seen == ctx.seen
    decreases ss, 0
  {
    if ss != [] {
      LoopDeclaresNothing(env, depth, types, ctx, ss[0]);
      LoopDeclaresNothingAll(env, depth, types, OkStmt(env, depth, types, ctx, true, ss[0]).value, ss[1..]);
    }
  }

  lemma {:induction false} StmtKeepsCtx(env: Env, depth: nat, types: Types, ctx: Ctx, g: Gen, inLoop: bool, s: Stmt)
    requires CtxOk(env, types, ctx, g) && OkStmt(env, depth, types, ctx, inLoop, s).Some?
    ensures CtxOk(env, types, OkStmt(env, depth, types, ctx, inLoop, s).value, StmtCode(env, depth, g, s).g)
    decreases s, 2
  {
    hide End, CtxOk, BindCode, AssignCode, OkBind, OkAssign, ExprCode;
    match s
    case Bind(name, declared, value) => BindKeepsCtx(env, depth, types, ctx, g, inLoop, name, declared, value);
    case Assign(target, rhs, op) => AssignKeepsTables(env, depth, types, ctx, g, target, rhs, op);
    case For(_, init, cond, incr, body) => ForKeepsCtx(env, depth, types, ctx, g, inLoop, s);
    case Cond(test, thn, els) =>
      var c1 := OkStmts(env, depth, types, ctx, inLoop, thn).value;
      var mid := Ctx(ctx.vars, ctx.arrs, c1.seen);
      var c2 := OkStmts(env, depth, types, mid, inLoop, els).value;
      var t := StmtsCode(env, depth, g, thn);
      ExprKeepsTables(env, depth, types, ctx, g, test);
      StmtsKeepCtx(env, depth, types, ctx, g, inLoop, thn);
      StmtsGrow(env, depth, g, thn);
      CtxWiden(env, types, ctx, g, c1, t.g);
      StmtsKeepCtx(env, depth, types, mid, t.g, inLoop, els);
      StmtsGrow(env, depth, t.g, els);
      CtxWiden(env, types, mid, t.g, c2, StmtsCode(env, depth, t.g, els).g);
    case Eff(expr) =>
      var e := Unwrap(expr);
      if |e.args| > 1 {
        var g1 := Intern(g, e.args[0].text).2;
        CtxPool(env, types, ctx, g, g1);
        ArgsKeepTables(env, depth, types, ctx, g1, e.args[1..], 0);
      }
      CtxPool(env, types, ctx, g, StmtCode(env, depth, g, s).g);
    case Skip =>
  }

  lemma {:induction false} ForKeepsCtx(env: Env, depth: nat, types: Types, ctx: Ctx, g: Gen, inLoop: bool, s: Stmt)
    requires s.For? && CtxOk(env, types, ctx, g) && OkStmt(env, depth, types, ctx, inLoop, s).Some?
    ensures CtxOk(env, types, OkStmt(env, depth, types, ctx, inLoop, s).value, StmtCode(env, depth, g, s).g)
    decreases s, 1
  {
    hide End, CtxOk, OkStmts, OkOpt, StmtsCode, OptStmtCode, ExitCode, CondOk;
    var c1 := OkOpt(env, depth, types, ctx, inLoop, s.init).value;
    var g1 := OptStmtCode(env, depth, g, s.init).g;
    OptKeepsCtx(env, depth, types, ctx, g, inLoop, s.init);
    OptGrows(env, depth, g, s.init);
    ExitKeepsTables(env, depth, types, c1, g1, s.cond);
    LoopTables(env, depth, types, c1, g1, s);
    var g2 := StmtsCode(env, depth, g1, s.body).g;
    var g3 := OptStmtCode(env, depth, g2, s.incr).g;
    CtxWiden(env, types, ctx, g, c1, g3);
  }

  // Body and increment are generated in turn over the loop's own context.
  lemma {:induction false} LoopTables(env: Env, depth: nat, types: Types, c1: Ctx, g1: Gen, s: Stmt)
    requires s.For? && CtxOk(env, types, c1, g1)
    requires OkStmts(env, depth, types, c1, true, s.body).Some? && OkOpt(env, depth, types, c1, true, s.incr).Some?
    ensures var g2 := StmtsCode(env, depth, g1, s.body).g;
            var g3 := OptStmtCode(env, depth, g2, s.incr).g;
            Grows(g1, g2) && Grows(g2, g3) && CtxOk(env, types, c1, g2) && CtxOk(env, types, c1, g3)
    decreases s, 0
  {
    hide End;
    var g2 := StmtsCode(env, depth, g1, s.body).g;
    var g3 := OptStmtCode(env, depth, g2, s.incr).g;
    var cb := OkStmts(env, depth, types, c1, true, s.body).value;
    StmtsKeepCtx(env, depth, types, c1, g1, true, s.body);
    StmtsGrow(env, depth, g1, s.body);
    LoopDeclaresNothingAll(env, depth, types, c1, s.body);
    CtxWiden(env, types, c1, g1, cb, g2);
    OptKeepsCtx(env, depth, types, c1, g2, true, s.incr);
    OptGrows(env, depth, g2, s.incr);
    if s.incr.Some? {
      LoopDeclaresNothing(env, depth, types, c1, s.incr.value);
    }
    CtxWiden(env, types, c1, g2, OkOpt(env, depth, types, c1, true, s.incr).value, g3);
  }

  lemma {:induction false} StmtsKeepCtx(env: Env, depth: nat, types: Types, ctx: Ctx, g: Gen, inLoop: bool, ss: seq<Stmt>)
    requires CtxOk(env, types, ctx, g) && OkStmts(env, depth, types, ctx, inLoop, ss).Some?
    ensures CtxOk(env, types, OkStmts(env, depth, types, ctx, inLoop, ss).value, StmtsCode(env, depth, g, ss).g)
    decreases ss, 0
  {
    hide End;
    if ss != [] {
      StmtKeepsCtx(env, depth, types, ctx, g, inLoop, ss[0]);
      StmtsKeepCtx(env, depth, types, OkStmt(env, depth, types, ctx, inLoop, ss[0]).value,
                   StmtCode(env, depth, g, ss[0]).g, inLoop, ss[1..]);
    }
  }
}

// The programs the direct wasm backend supports: a static check that follows its tables and knows what it cannot
// compile.
module Fragment {
  import opened Bytes
  import opened WasmInstr
  import opened Values
  import opened IntLiterals
  import opened Hir
  import opened WasmText
  import opened WasmGen
  import opened HirSem

  datatype STy = SInt | SBool | SChar | SFloat

  datatype ATy = ATy(elem: ETy, total: nat)

  // Visible scalars and arrays, and every array declared so far (in scope or not).
  datatype Ctx = Ctx(vars: map<string, STy>, arrs: map<string, ATy>, seen: set<string>)

  // Each scalar name has one type throughout the program.
  type Types = map<string, STy>

  predicate IntLike(t: STy) { t != SFloat }

  function WTy(t: STy): ValType { if t == SFloat then F64 else I32 }

  function ElemSTy(e: ETy): STy {
    match e case EInt(_, _) => SInt case EChar => SChar case EBool => SBool case EFloat => SFloat
  }

  // A scalar of this type is a 32-bit signed int, a float, a char or a truth value.
  predicate TyAgrees(ty: HType, t: STy) {
    match t
    case SInt => ty.TInt? && Width32(ty)
    case SBool => !ty.TFloat? && !ty.TChar? && Width32(ty)
    case SChar => ty.TChar?
    case SFloat => ty.TFloat?
  }

  // An element read has its array's element type.
  predicate ElemTyAgrees(ty: HType, e: ETy) {
    match e
    case EInt(w, s) => ty.TInt? && ty.isSigned == s && (ty.width == w || (w == 32 && ty.width == 0))
    case EChar => ty.TChar?
    case EBool => !ty.TFloat? && !ty.TChar? && Width32(ty)
    case EFloat => ty.TFloat?
  }

  // A literal of a narrow type fits it.
  predicate LitFits(lx: string, ty: HType) {
    || Width32(ty)
    || ((ty.width == 8 || ty.width == 16)
        && match IntLit(lx)
           case None => false
           case Some(n) =>
             if ty.isSigned then -(Pow2(ty.width - 1) as int) <= n < Pow2(ty.width - 1) else 0 <= n < Pow2(ty.width))
  }

  // Operands that are never negative: unsigned elements, chars, literals without a sign.
  predicate NonNegative(e: Expr) {
    match e
    case Literal(lx, ty) =>
      !ty.TFloat? && (ty.TChar? || lx == "true" || lx == "false" || match IntLit(lx) case Some(n) => n >= 0 case None => false)
    case Index(_, _, ty) => ty.TChar? || (ty.TInt? && !ty.isSigned)
    case _ => false
  }

  // The backend's signed 32-bit opcode does what the language's rules of width and sign ask for.
  predicate OperandsOk(op: Op, l: Expr, r: Expr) {
    || l.ty.TFloat? || r.ty.TFloat?
    || (OpWidth(l, r) == 32 && (!Sensitive(op) || OpSigned(l, r) || (NonNegative(l) && NonNegative(r))))
  }

  // An integer token of at most 79 significant characters below 2^31, or the decimal text of a folded constant.
  predicate IntOk(lx: string) {
    || (IsIntLexeme(lx) && LexemeValue(lx) < I32_LIMIT && |Strip(lx)| <= 79)
    || (match IntLit(lx) case Some(n) => InI32(n) && lx == PrintD(n) case None => false)
  }

  // An ASCII char token other than '\0', which the backend reads as zero and the lexer as the digit.
  predicate CharOk(lx: string) {
    CharLit(lx).Some? && CharLit(lx).value < 128 && !(|lx| == 4 && lx[2] == '0')
  }

  function TypeLit(lx: string, ty: HType): Option<STy> {
    if ty.TFloat? then Some(SFloat)
    else if ty.TChar? then (if CharOk(lx) then Some(SChar) else None)
    else if lx == "true" || lx == "false" then Some(SBool)
    else if IntOk(lx) && LitFits(lx, ty) then Some(SInt)
    else None
  }

  // The type of a binary expression from its operands' types; && and || also need a right operand that cannot
  // fail, because the backend evaluates it even when the left one decides.
  function TypeBin(op: Op, tl: STy, tr: STy, rightSafe: bool): Option<STy> {
    var isf := tl == SFloat || tr == SFloat;
    if op == And || op == Or then (if tl == SBool && tr == SBool && rightSafe then Some(SBool) else None)
    else if Compare(op) then Some(SBool)
    else if Arith(op) then (if isf then (if op == Mod then None else Some(SFloat)) else Some(SInt))
    else None
  }

  function TypeOf(env: Env, depth: nat, ctx: Ctx, e: Expr): (t: Option<STy>)
    ensures t.Some? ==> WType(e.ty) == WTy(t.value)
    decreases depth, e
  {
    var t := match e
      case Literal(lx, ty) => TypeLit(lx, ty)
      case Name(nm, ty) =>
        (match FindConst(env.consts, nm)
         case Some(v) => if depth == 0 then None else TypeOf(env, depth - 1, Ctx(map[], map[], ctx.seen), v)
         case None => if nm in ctx.vars && TyAgrees(ty, ctx.vars[nm]) then Some(ctx.vars[nm]) else None)
      case Binary(op, l, r, _) =>
        (match TypeOf(env, depth, ctx, l)
         case None => None
         case Some(tl) =>
           match TypeOf(env, depth, ctx, r)
           case None => None
           case Some(tr) => if OperandsOk(op, l, r) then TypeBin(op, tl, tr, NoFail(env, depth, r)) else None)
      case Index(base, indices, ty) =>
        if base.Name? && base.name in ctx.arrs && |indices| == 1 && ElemTyAgrees(ty, ctx.arrs[base.name].elem) then
          (match TypeOf(env, depth, ctx, indices[0])
           case None => None
           case Some(ti) => if IntLike(ti) then Some(ElemSTy(ctx.arrs[base.name].elem)) else None)
        else None
      case Field(base, f, _) =>
        if base.Name? && base.name in ctx.arrs && f == "length" && ctx.arrs[base.name].total < I32_LIMIT
        then Some(SInt) else None
      case _ => None;
    if t.Some? && WType(e.ty) == WTy(t.value) then t else None
  }

  // No integer division and no indexing anywhere inside.
  predicate NoFail(env: Env, depth: nat, e: Expr)
    decreases depth, e
  {
    match e
    case Literal(_, _) => true
    case Name(nm, _) =>
      (match FindConst(env.consts, nm) case Some(v) => depth > 0 && NoFail(env, depth - 1, v) case None => true)
    case Binary(op, l, r, _) =>
      && NoFail(env, depth, l) && NoFail(env, depth, r)
      && ((op != Div && op != Mod) || WType(l.ty) == F64 || WType(r.ty) == F64)
    case Field(_, _, _) => true
    case _ => false
  }

  // ---- statements ----

  predicate Assignable(from: STy, to: STy) { from == to || (to == SInt && IntLike(from)) }

  predicate Storable(e: ETy, t: STy) {
    match e case EFloat => true case EBool => t == SBool case _ => IntLike(t)
  }

  // Compound assignment in the type of the target.
  predicate CompoundOk(target: STy, t: STy, op: Op) {
    Arith(op) && if target == SFloat then op != Mod else target == SInt && IntLike(t)
  }

  predicate CompoundElemOk(e: ETy, t: STy, op: Op) {
    Arith(op) && match e
                 case EFloat => op != Mod
                 case EBool => false
                 case EInt(w, s) => IntLike(t) && ((w == 32 && s) || !Sensitive(op))
                 case EChar => IntLike(t) && !Sensitive(op)
  }

  predicate ElementsOk(env: Env, depth: nat, ctx: Ctx, e: ETy, elements: seq<Expr>) {
    forall i :: 0 <= i < |elements| ==>
      TypeOf(env, depth, ctx, elements[i]).Some? && Storable(e, TypeOf(env, depth, ctx, elements[i]).value)
  }

  function OkBind(env: Env, depth: nat, types: Types, ctx: Ctx, inLoop: bool, name: string,
                  declared: Option<HType>, value: Option<Expr>): Option<Ctx>
  {
    match BindArrayType(declared, value)
    case Some(t) =>
      (match ArrayTy(t)
       case None => None
       case Some(at) =>
         if !inLoop && name !in ctx.seen && |ctx.seen| < MAX_ARRAYS
            && (value.Some? ==> value.value.ArrayLit? && |value.value.elements| <= at.1
                                && ElementsOk(env, depth, ctx, at.0, value.value.elements))
         then Some(Ctx(ctx.vars, ctx.arrs[name := ATy(at.0, at.1)], ctx.seen + {name}))
         else None)
    case None =>
      if FindConst(env.consts, name).Some? || name in ctx.vars || name !in types then None
      else if declared.Some? && !TyAgrees(declared.value, types[name]) then None
      else
        var ok := match value
          case None => IntLike(types[name])
          case Some(e) =>
            (match TypeOf(env, depth, ctx, e) case None => false case Some(t) => Assignable(t, types[name]));
        if ok then Some(Ctx(ctx.vars[name := types[name]], ctx.arrs, ctx.seen)) else None
  }

  predicate OkAssign(env: Env, depth: nat, ctx: Ctx, target: Expr, rhs: Expr, op: Option<Op>) {
    match TypeOf(env, depth, ctx, rhs)
    case None => false
    case Some(t) =>
      if op.Some? && WidthOf(rhs) > 32 then false
      else match target
      case Name(nm, ty) =>
        && FindConst(env.consts, nm).None? && nm in ctx.vars && WType(ty) == WTy(ctx.vars[nm]) && TyAgrees(ty, ctx.vars[nm])
        && (match op case None => Assignable(t, ctx.vars[nm]) case Some(o) => CompoundOk(ctx.vars[nm], t, o))
      case Index(base, indices, _) =>
        && base.Name? && base.name in ctx.arrs && |indices| == 1
        && (match TypeOf(env, depth, ctx, indices[0]) case None => false case Some(ti) => IntLike(ti))
        && (match op
            case None => Storable(ctx.arrs[base.name].elem, t)
            case Some(o) => CompoundElemOk(ctx.arrs[base.name].elem, t, o))
      case _ => false
  }

  function ArgKindOf(env: Env, depth: nat, ctx: Ctx, a: Expr): Option<ArgKind> {
    if a.Str? then (if NoEscape(a.text) then Some(KStr) else None)
    else if a.ty.TCharArray? then
      (if a.Name? && a.name in ctx.arrs && ctx.arrs[a.name].elem == EChar then Some(KStr) else None)
    else match TypeOf(env, depth, ctx, a)
      case None => None
      case Some(t) => Some(if t == SFloat then KFloat else KInt)
  }

  // Texts with nothing left to be resolved; at most 64 arguments, of the kinds the format asks the host to read.
  predicate OkPrint(env: Env, depth: nat, ctx: Ctx, args: seq<Expr>) {
    && args != [] && args[0].Str? && NoEscape(args[0].text)
    && |args| <= 65
    && (|args| > 1 ==>
          && (forall j :: 1 <= j < |args| ==> ArgKindOf(env, depth, ctx, args[j]).Some?)
          && env.host.kinds(args[0].text) ==
             seq(|args| - 1, j requires 0 <= j < |args| - 1 => ArgKindOf(env, depth, ctx, args[j + 1]).value))
  }

  // The context after the statement, or None if the backend does not support it.
  function OkStmt(env: Env, depth: nat, types: Types, ctx: Ctx, inLoop: bool, s: Stmt): Option<Ctx>
    decreases s, 0
  {
    match s
    case Bind(name, declared, value) => OkBind(env, depth, types, ctx, inLoop, name, declared, value)
    case Assign(target, rhs, op) => if OkAssign(env, depth, ctx, target, rhs, op) then Some(ctx) else None
    case For(iterable, init, cond, incr, body) =>
      if iterable.Some? then None
      else
        (match OkOpt(env, depth, types, ctx, inLoop, init)
         case None => None
         case Some(c1) =>
           if !CondOk(env, depth, c1, cond) then None
           else if OkStmts(env, depth, types, c1, true, body).None? || OkOpt(env, depth, types, c1, true, incr).None?
           then None
           else Some(Ctx(ctx.vars, ctx.arrs, c1.seen)))
    case Cond(test, thn, els) =>
      if !CondOk(env, depth, ctx, Some(test)) then None
      else
        (match OkStmts(env, depth, types, ctx, inLoop, thn)
         case None => None
         case Some(c1) =>
           match OkStmts(env, depth, types, Ctx(ctx.vars, ctx.arrs, c1.seen), inLoop, els)
           case None => None
           case Some(c2) => Some(Ctx(ctx.vars, ctx.arrs, c2.seen)))
    case Eff(expr) =>
      var e := Unwrap(expr);
      if IsPrintCall(e) && OkPrint(env, depth, ctx, e.args) then Some(ctx) else None
    case Skip => None
  }

  predicate CondOk(env: Env, depth: nat, ctx: Ctx, cond: Option<Expr>) {
    match cond
    case None => true
    case Some(e) => match TypeOf(env, depth, ctx, e) case None => false case Some(t) => IntLike(t)
  }

  function OkOpt(env: Env, depth: nat, types: Types, ctx: Ctx, inLoop: bool, s: Option<Stmt>): Option<Ctx>
    decreases s, 1
  {
    match s case None => Some(ctx) case Some(t) => OkStmt(env, depth, types, ctx, inLoop, t)
  }

  function OkStmts(env: Env, depth: nat, types: Types, ctx: Ctx, inLoop: bool, ss: seq<Stmt>): Option<Ctx>
    decreases ss, 0
  {
    if ss == [] then Some(ctx)
    else match OkStmt(env, depth, types, ctx, inLoop, ss[0])
      case None => None
      case Some(c) => OkStmts(env, depth, types, c, inLoop, ss[1..])
  }

  // The finished tables fit the fixed memory map: locals, string pool below the arrays, arrays below 256 KiB.
  predicate Fits(g: Gen) {
    && |g.locals| <= 256
    && |g.strings| <= ARRAYS_BASE - STRINGS_BASE
    && g.cursor <= MEM_BYTES
  }

  const START: Gen := Gen([], [], ARRAYS_BASE, [])
  const NOTHING: Ctx := Ctx(map[], map[], {})
}

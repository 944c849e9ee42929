// Meaning of the HIR, independent of any backend: block scopes, 32-bit arithmetic by the language's sign rule,
// short-circuiting logic, integer division by zero aborting the program, arrays indexed within their bounds.
module HirSem {
  import opened Bytes
  import opened Values
  import opened IntLiterals
  import opened Hir

  // Element types of one-dimensional arrays.
  datatype ETy = EInt(width: nat, isSigned: bool) | EChar | EBool | EFloat

  datatype AVal = AVal(ety: ETy, vals: seq<Val>)

  datatype State = State(vars: map<string, Val>, arrs: map<string, AVal>, trace: seq<Event>)

  // Wild: the language or this model gives the run no meaning (an index out of bounds, an unrepresentable
  // quotient, an unsupported construct, a scalar of another integer type than the 32-bit signed one, an operation of
  // another width than 32 bits), so nothing is promised about it.
  datatype EvalRes = EV(v: Val) | EAbort | EWild

  datatype ExecRes = Done(st: State) | Abort(trace: seq<Event>) | Wild | Timeout

  function ElemTy(t: HType): Option<ETy> {
    match t
    case TInt(w, s) => if w == 8 || w == 16 || (w == 32 && s) then Some(EInt(w, s)) else None
    case TChar => Some(EChar)
    case TFloat => Some(EFloat)
    case TNamed(n) => if n == "bool" then Some(EBool) else None
    case _ => None
  }

  // An array of n >= 1 scalars.
  function ArrayTy(t: HType): Option<(ETy, nat)> {
    match t
    case TShaped(e, n) =>
      if n >= 1 then (match ElemTy(e) case Some(x) => Some((x, n)) case None => None) else None
    case _ => None
  }

  // An int narrowed to the element type it is stored into.
  function Narrow(e: ETy, v: int): int {
    match e
    case EInt(w, s) => var u := v % Pow2(w); if s then ToSigned(u, Pow2(w)) else u
    case EChar => v % 256
    case _ => v
  }

  // The sign rule of a compound assignment to an element.
  predicate ElemSigned(e: ETy) { e.EInt? ==> e.isSigned }

  function ZeroOf(e: ETy): Val { if e.EFloat? then VF(ZERO_BITS) else VI(0) }

  // The value a char token carries.
  function CharLit(lx: string): Option<int> {
    if |lx| == 3 && lx[0] == '\'' && lx[1] != '\\' && lx[1] != '\'' && lx[2] == '\'' then Some(lx[1] as int)
    else if |lx| == 4 && lx[0] == '\'' && lx[1] == '\\' && lx[3] == '\'' then
      Some(if lx[2] == 'n' then 10 else if lx[2] == 't' then 9 else if lx[2] == 'r' then 13 else lx[2] as int)
    else None
  }

  // ---- operators ----

  function ToFloat(h: Host, v: Val): F64Bits { if v.VF? then v.f else h.ofInt(v.i) }

  function SignedOp(op: Op, a: int, b: int): EvalRes {
    match op
    case Add => EV(VI(Wrap32(a + b)))
    case Sub => EV(VI(Wrap32(a - b)))
    case Mul => EV(VI(Wrap32(a * b)))
    case Div => if b == 0 then EAbort else if InI32(TruncDiv(a, b)) then EV(VI(TruncDiv(a, b))) else EWild
    case Mod => if b == 0 then EAbort else EV(VI(TruncRem(a, b)))
    case Eq => EV(VI(Bit(a == b)))
    case Neq => EV(VI(Bit(a != b)))
    case Lt => EV(VI(Bit(a < b)))
    case Gt => EV(VI(Bit(b < a)))
    case Lte => EV(VI(Bit(a <= b)))
    case Gte => EV(VI(Bit(b <= a)))
    case _ => EWild
  }

  // Division, remainder and order of the 32-bit patterns as unsigned numbers.
  function UnsignedOp(op: Op, a: int, b: int): EvalRes {
    var x, y := Unsigned32(a), Unsigned32(b);
    match op
    case Div => if y == 0 then EAbort else EV(VI(Wrap32(x / y)))
    case Mod => if y == 0 then EAbort else EV(VI(Wrap32(x % y)))
    case Lt => EV(VI(Bit(x < y)))
    case Gt => EV(VI(Bit(y < x)))
    case Lte => EV(VI(Bit(x <= y)))
    case Gte => EV(VI(Bit(y <= x)))
    case _ => EWild
  }

  function IntOp(op: Op, sgn: bool, a: int, b: int): EvalRes {
    if sgn || !Sensitive(op) then SignedOp(op, a, b) else UnsignedOp(op, a, b)
  }

  function FloatOp(h: Host, op: Op, a: F64Bits, b: F64Bits): EvalRes {
    match op
    case Add => EV(VF(h.add(a, b)))
    case Sub => EV(VF(h.sub(a, b)))
    case Mul => EV(VF(h.mul(a, b)))
    case Div => EV(VF(h.div(a, b)))
    case Eq => EV(VI(Bit(h.eq(a, b))))
    case Neq => EV(VI(Bit(!h.eq(a, b))))
    case Lt => EV(VI(Bit(h.lt(a, b))))
    case Gt => EV(VI(Bit(h.lt(b, a))))
    case Lte => EV(VI(Bit(h.le(a, b))))
    case Gte => EV(VI(Bit(h.le(b, a))))
    case _ => EWild
  }

  // Mixed operands are promoted to float.
  function BinVal(h: Host, op: Op, sgn: bool, a: Val, b: Val): EvalRes {
    if a.VF? || b.VF? then FloatOp(h, op, ToFloat(h, a), ToFloat(h, b)) else IntOp(op, sgn, a.i, b.i)
  }

  // An operation on values of these operand expressions: its sign rule is theirs, and its width has to be 32 bits.
  function OpVal(h: Host, op: Op, l: Expr, r: Expr, a: Val, b: Val): EvalRes {
    if a.VI? && b.VI? && OpWidth(l, r) != 32 then EWild else BinVal(h, op, OpSigned(l, r), a, b)
  }

  // ---- expressions ----

  const NO_LOCALS: State := State(map[], map[], [])

  function LitVal(h: Host, lx: string, ty: HType): EvalRes {
    if ty.TFloat? then EV(VF(h.parse(lx)))
    else if ty.TChar? then (match CharLit(lx) case Some(n) => EV(VI(n)) case None => EWild)
    else if lx == "true" then EV(VI(1))
    else if lx == "false" then EV(VI(0))
    else match IntLit(lx)
      case Some(n) => if InI32(n) then EV(VI(n)) else EWild
      case None => EWild
  }

  function Eval(env: Env, depth: nat, st: State, e: Expr): EvalRes
    decreases depth, e
  {
    match e
    case Literal(lx, ty) => LitVal(env.host, lx, ty)
    case Name(nm, ty) =>
      (match FindConst(env.consts, nm)
       case Some(v) => if depth == 0 then EWild else Eval(env, depth - 1, NO_LOCALS, v)
       case None => if nm in st.vars && Width32(ty) then EV(st.vars[nm]) else EWild)
    case Binary(op, l, r, _) =>
      (match Eval(env, depth, st, l)
       case EV(a) =>
         if (op == And || op == Or) && a.VI? && (a.i != 0) == (op == Or) then EV(VI(Bit(op == Or)))
         else
           (match Eval(env, depth, st, r)
            case EV(b) =>
              if op == And || op == Or then (if b.VI? then EV(VI(Bit(b.i != 0))) else EWild)
              else OpVal(env.host, op, l, r, a, b)
            case x => x)
       case x => x)
    case Index(base, indices, _) =>
      if base.Name? && base.name in st.arrs && |indices| == 1 then
        (match Eval(env, depth, st, indices[0])
         case EV(k) =>
           var a := st.arrs[base.name];
           if k.VI? && 0 <= k.i < |a.vals| then EV(a.vals[k.i]) else EWild
         case x => x)
      else EWild
    case Field(base, f, _) =>
      if base.Name? && base.name in st.arrs && f == "length" then EV(VI(|st.arrs[base.name].vals|)) else EWild
    case _ => EWild
  }

  // ---- statements ----

  // Leaving a block: what it declared goes out of scope.
  function Leave(outer: State, st: State): State {
    State(map x | x in st.vars && x in outer.vars :: st.vars[x],
          map a | a in st.arrs && a in outer.arrs :: st.arrs[a],
          st.trace)
  }

  function LeaveRes(outer: State, r: ExecRes): ExecRes {
    match r case Done(st) => Done(Leave(outer, st)) case _ => r
  }

  function SetVar(st: State, name: string, v: Val): State { st.(vars := st.vars[name := v]) }

  function SetElem(st: State, name: string, k: int, v: Val): State
    requires name in st.arrs && 0 <= k < |st.arrs[name].vals|
  {
    var a := st.arrs[name];
    st.(arrs := st.arrs[name := AVal(a.ety, a.vals[k := v])])
  }

  // The value as the element type stores it.
  function Stored(h: Host, e: ETy, v: Val): Val {
    if e.EFloat? then VF(ToFloat(h, v)) else if v.VI? then VI(Narrow(e, v.i)) else v
  }

  // An array literal's elements are evaluated and stored one after the other.
  function InitElems(env: Env, depth: nat, st: State, name: string, elements: seq<Expr>, k: nat): ExecRes
    decreases |elements|
  {
    if elements == [] then Done(st)
    else match Eval(env, depth, st, elements[0])
      case EAbort => Abort(st.trace)
      case EWild => Wild
      case EV(v) =>
        if name in st.arrs && k < |st.arrs[name].vals| then
          InitElems(env, depth, SetElem(st, name, k, Stored(env.host, st.arrs[name].ety, v)), name, elements[1..], k + 1)
        else Wild
  }

  function ExecBind(env: Env, depth: nat, st: State, name: string, declared: Option<HType>, value: Option<Expr>): ExecRes {
    match BindArrayType(declared, value)
    case Some(t) =>
      (match ArrayTy(t)
       case None => Wild
       case Some(at) =>
         var zeroed := st.(arrs := st.arrs[name := AVal(at.0, seq(at.1, i => ZeroOf(at.0)))]);
         if value.None? then Done(zeroed)
         else if value.value.ArrayLit? then InitElems(env, depth, zeroed, name, value.value.elements, 0)
         else Wild)
    case None =>
      if declared.Some? && !Width32(declared.value) then Wild
      else match (if value.Some? then Eval(env, depth, st, value.value) else EV(VI(0)))
      case EV(v) => Done(SetVar(st, name, v))
      case EAbort => Abort(st.trace)
      case EWild => Wild
  }

  function ExecAssign(env: Env, depth: nat, st: State, target: Expr, rhs: Expr, op: Option<Op>): ExecRes {
    if op.Some? && WidthOf(rhs) > 32 then Wild
    else match target
    case Name(nm, ty) =>
      if nm !in st.vars || !Width32(ty) then Wild
      else
        (match Eval(env, depth, st, rhs)
         case EV(v) =>
           (match (if op.Some? then BinVal(env.host, op.value, true, st.vars[nm], v) else EV(v))
            case EV(w) => Done(SetVar(st, nm, w))
            case EAbort => Abort(st.trace)
            case EWild => Wild)
         case EAbort => Abort(st.trace)
         case EWild => Wild)
    case Index(base, indices, _) =>
      if !(base.Name? && base.name in st.arrs && |indices| == 1) then Wild
      else
        (match Eval(env, depth, st, indices[0])
         case EV(k) =>
           var a := st.arrs[base.name];
           if !(k.VI? && 0 <= k.i < |a.vals|) then Wild
           else
             (match Eval(env, depth, st, rhs)
              case EV(v) =>
                (match (if op.Some? then BinVal(env.host, op.value, ElemSigned(a.ety), a.vals[k.i], v) else EV(v))
                 case EV(w) => Done(SetElem(st, base.name, k.i, Stored(env.host, a.ety, w)))
                 case EAbort => Abort(st.trace)
                 case EWild => Wild)
              case EAbort => Abort(st.trace)
              case EWild => Wild)
         case EAbort => Abort(st.trace)
         case EWild => Wild)
    case _ => Wild
  }

  datatype ArgsRes = Args(vs: seq<Arg>) | ArgsAbort | ArgsWild

  function CharBytes(vals: seq<Val>): (r: seq<byte>)
    ensures |r| == |vals|
  {
    seq(|vals|, i requires 0 <= i < |vals| => if vals[i].VI? && 0 <= vals[i].i < 256 then vals[i].i else 0)
  }

  function EvalArg(env: Env, depth: nat, st: State, a: Expr): ArgsRes {
    if a.Str? then Args([AStr(a.text)])
    else if a.ty.TCharArray? then
      (if a.Name? && a.name in st.arrs then Args([AStr(CharBytes(st.arrs[a.name].vals))]) else ArgsWild)
    else match Eval(env, depth, st, a)
      case EV(v) => Args([if v.VI? then AInt(v.i) else AFloat(v.f)])
      case EAbort => ArgsAbort
      case EWild => ArgsWild
  }

  function EvalArgs(env: Env, depth: nat, st: State, args: seq<Expr>): ArgsRes
    decreases |args|
  {
    if args == [] then Args([])
    else match EvalArg(env, depth, st, args[0])
      case Args(a) => (match EvalArgs(env, depth, st, args[1..]) case Args(r) => Args(a + r) case x => x)
      case x => x
  }

  // A print call hands its text, or its format and arguments, to the host.
  function ExecPrint(env: Env, depth: nat, st: State, args: seq<Expr>): ExecRes {
    if args == [] || !args[0].Str? then Wild
    else
      var fmt := args[0].text;
      if |args| == 1 then Done(st.(trace := st.trace + [PrintEv(fmt)]))
      else match EvalArgs(env, depth, st, args[1..])
        case Args(vs) => Done(st.(trace := st.trace + [PrintfEv(fmt, vs)]))
        case ArgsAbort => Abort(st.trace)
        case ArgsWild => Wild
  }

  function ExecOpt(env: Env, depth: nat, st: State, s: Option<Stmt>, fuel: nat): ExecRes
    decreases fuel, s, 1
  {
    match s case None => Done(st) case Some(t) => Exec(env, depth, st, t, fuel)
  }

  function TestVal(env: Env, depth: nat, st: State, cond: Option<Expr>): EvalRes {
    match cond case None => EV(VI(1)) case Some(e) => Eval(env, depth, st, e)
  }

  function Exec(env: Env, depth: nat, st: State, s: Stmt, fuel: nat): ExecRes
    decreases fuel, s, 2
  {
    match s
    case Bind(name, declared, value) => ExecBind(env, depth, st, name, declared, value)
    case Assign(target, rhs, op) => ExecAssign(env, depth, st, target, rhs, op)
    case For(iterable, init, cond, incr, body) =>
      if iterable.Some? then Wild
      else
        (match ExecOpt(env, depth, st, init, fuel)
         case Done(st1) => LeaveRes(st, ExecLoop(env, depth, st1, cond, incr, body, fuel))
         case r => r)
    case Cond(test, thn, els) =>
      (match Eval(env, depth, st, test)
       case EV(v) =>
         if !v.VI? then Wild
         else if v.i != 0 then LeaveRes(st, ExecAll(env, depth, st, thn, fuel))
         else LeaveRes(st, ExecAll(env, depth, st, els, fuel))
       case EAbort => Abort(st.trace)
       case EWild => Wild)
    case Eff(expr) =>
      var e := Unwrap(expr);
      if IsPrintCall(e) then ExecPrint(env, depth, st, e.args) else Wild
    case Skip => Wild
  }

  // One test, then body and increment, then again; fuel bounds the number of iterations.
  function ExecLoop(env: Env, depth: nat, st: State, cond: Option<Expr>, incr: Option<Stmt>, body: seq<Stmt>, fuel: nat): ExecRes
    decreases fuel, body, 0
  {
    if fuel == 0 then Timeout
    else match TestVal(env, depth, st, cond)
      case EV(v) =>
        if !v.VI? then Wild
        else if v.i == 0 then Done(st)
        else
          (match LeaveRes(st, ExecAll(env, depth, st, body, fuel - 1))
           case Done(st2) =>
             (match LeaveRes(st2, ExecOpt(env, depth, st2, incr, fuel - 1))
              case Done(st3) => ExecLoop(env, depth, st3, cond, incr, body, fuel - 1)
              case r => r)
           case r => r)
      case EAbort => Abort(st.trace)
      case EWild => Wild
  }

  function ExecAll(env: Env, depth: nat, st: State, ss: seq<Stmt>, fuel: nat): ExecRes
    decreases fuel, ss, 0
  {
    if ss == [] then Done(st)
    else match Exec(env, depth, st, ss[0], fuel)
      case Done(st') => ExecAll(env, depth, st', ss[1..], fuel)
      case r => r
  }
}

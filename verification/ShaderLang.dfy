// Both ends of the shader emitter: the body of a map as the compiler's CPU loop runs it on one row, and the GLSL it
// is turned into, with the text of that GLSL and how the text is read.
module ShaderLang {
  import opened Bytes
  import opened Values
  import opened IntLiterals
  import H = Hir

  // ---- values of a shader's one element type ----

  datatype Kind = FloatKind | IntKind | UintKind

  // A 32-bit float is its stored bits; arithmetic on it is left to the platform and shared by CPU and GPU.
  datatype V = N(n: int) | R(bits: nat)

  // Float arithmetic and the conversion of integers, and the remainder the GPU's `%` computes on signed integers, which
  // GLSL leaves open for negative operands.
  datatype Driver = Driver(
    parse: string -> nat,
    ofInt: int -> nat,
    add: (nat, nat) -> nat,
    sub: (nat, nat) -> nat,
    mul: (nat, nat) -> nat,
    div: (nat, nat) -> nat,
    neg: nat -> nat,
    sqrt: nat -> nat,
    eq: (nat, nat) -> bool,
    lt: (nat, nat) -> bool,
    le: (nat, nat) -> bool,
    rem: (int, int) -> int)

  // A 32-bit integer is kept in the range of the element type; in a float map in the signed range.
  function Norm(kind: Kind, n: int): int { if kind == UintKind then n % U32_LIMIT else Wrap32(n) }

  predicate Compares(op: H.Op) {
    op == H.Eq || op == H.Neq || op == H.Lt || op == H.Gt || op == H.Lte || op == H.Gte
  }

  predicate HasGlslOp(op: H.Op) {
    op == H.Add || op == H.Sub || op == H.Mul || op == H.Div || op == H.Mod || Compares(op)
  }

  function IntCompare(op: H.Op, a: int, b: int): Option<bool> {
    match op
    case Eq => Some(a == b) case Neq => Some(a != b)
    case Lt => Some(a < b) case Gt => Some(a > b)
    case Lte => Some(a <= b) case Gte => Some(a >= b)
    case _ => None
  }

  function FloatArith(d: Driver, op: H.Op, a: nat, b: nat): Option<V> {
    match op
    case Add => Some(R(d.add(a, b)))
    case Sub => Some(R(d.sub(a, b)))
    case Mul => Some(R(d.mul(a, b)))
    case Div => Some(R(d.div(a, b)))
    case _ => None
  }

  // A row: one value of each column. Locals: what `:=` has bound so far.
  type Row = map<string, V>
  type Scope = map<string, V>

  // ---- the body of a map ----

  datatype UnaryOp = Neg | Not | Move | Duplicate

  datatype KExpr =
    | KName(name: string)
    | KLit(lexeme: string)
    | KUnary(uop: UnaryOp, operand: KExpr)
    | KBinary(op: H.Op, left: KExpr, right: KExpr)
    | KCall(fn: string, args: seq<KExpr>)
    | KOther

  // An assignment's target is None unless it is a plain name.
  datatype KStmt =
    | KAssign(target: Option<string>, aop: Option<H.Op>, value: KExpr)
    | KBlock(stmts: seq<KStmt>)
    | KBind(names: seq<string>, init: Option<KExpr>)
    | KIf(cond: KExpr, thn: seq<KStmt>, els: seq<KStmt>)
    | KOtherStmt

  // The map's columns, the program's constants (with their lexeme if they are literals), the element type; and whether
  // the body is assignments only, so that the compiler fuses it into one loop over the columns.
  datatype Kernel = Kernel(cols: seq<string>, consts: seq<(string, Option<string>)>, kind: Kind, fused: bool)

  predicate Flat(s: KStmt) {
    match s
    case KAssign(_, _, _) => true
    case KBlock(ss) => forall i :: 0 <= i < |ss| ==> Flat(ss[i])
    case _ => false
  }

  predicate FlatBody(ss: seq<KStmt>) { forall i :: 0 <= i < |ss| ==> Flat(ss[i]) }

  // The first constant of that name, if it is a literal.
  function ConstLexeme(cs: seq<(string, Option<string>)>, name: string): Option<string> {
    if cs == [] then None else if cs[0].0 == name then cs[0].1 else ConstLexeme(cs[1..], name)
  }

  predicate Fractional(lx: string) { '.' in lx || 'e' in lx || 'E' in lx }

  // ---- types on the CPU ----

  // A literal is a signed int or a float by its text alone, whatever the element type.
  datatype Ty = FloatTy | IntTy(isSigned: bool)
  type Types = map<string, Ty>

  function LitTy(lx: string): Ty { if IntLit(lx).None? && Fractional(lx) then FloatTy else IntTy(true) }

  function ElemTy(kind: Kind): Ty {
    match kind case FloatKind => FloatTy case IntKind => IntTy(true) case UintKind => IntTy(false)
  }

  // The type an expression is given before code is generated, which is that of a variable bound to it. Arithmetic on
  // integers is int.
  function SemTy(k: Kernel, types: Types, e: KExpr): Ty {
    match e
    case KName(n) =>
      if n in k.cols then ElemTy(k.kind) else if n in types then types[n]
      else (match ConstLexeme(k.consts, n) case None => IntTy(true) case Some(lx) => LitTy(lx))
    case KLit(lx) => LitTy(lx)
    case KUnary(op, x) => if op == Not then IntTy(true) else SemTy(k, types, x)
    case KBinary(op, l, r) =>
      if !Compares(op) && (SemTy(k, types, l).FloatTy? || SemTy(k, types, r).FloatTy?) then FloatTy else IntTy(true)
    case KCall(fn, args) =>
      if fn == "select" && |args| == 3 then SemTy(k, types, args[1])
      else if fn == "sqrt" && |args| == 1 then SemTy(k, types, args[0]) else IntTy(true)
    case KOther => IntTy(true)
  }

  // The type it has while code is generated: integer arithmetic has taken the sign of its first operand.
  function GenTy(k: Kernel, types: Types, e: KExpr): Ty {
    match e
    case KBinary(op, l, r) =>
      if !Compares(op) && SemTy(k, types, e).IntTy? then GenTy(k, types, l) else SemTy(k, types, e)
    case _ => SemTy(k, types, e)
  }

  // Unsigned integers occur in unsigned maps only.
  predicate Signed(kind: Kind, t: Ty) { kind == UintKind && t.IntTy? ==> t.isSigned }

  // ---- the body on the CPU ----

  function ReadAs(sgn: bool, n: int): int { if sgn then Wrap32(n) else Unsigned32(n) }

  // Two 32-bit integers under an operator, signed or not; None where the result is undefined.
  function IntArith(kind: Kind, sgn: bool, op: H.Op, a: int, b: int): Option<V> {
    var x, y := ReadAs(sgn, a), ReadAs(sgn, b);
    match op
    case Add => Some(N(Norm(kind, a + b)))
    case Sub => Some(N(Norm(kind, a - b)))
    case Mul => Some(N(Norm(kind, a * b)))
    case Div => if y == 0 || (sgn && !InI32(TruncDiv(x, y))) then None else Some(N(Norm(kind, TruncDiv(x, y))))
    case Mod => if y == 0 || (sgn && !InI32(TruncDiv(x, y))) then None else Some(N(Norm(kind, TruncRem(x, y))))
    case _ => None
  }

  // Floats are compared ordered: with a NaN even `!=` is false.
  function FloatCompare(d: Driver, op: H.Op, a: nat, b: nat): Option<bool> {
    match op
    case Eq => Some(d.eq(a, b)) case Neq => Some(d.lt(a, b) || d.lt(b, a))
    case Lt => Some(d.lt(a, b)) case Gt => Some(d.lt(b, a))
    case Lte => Some(d.le(a, b)) case Gte => Some(d.le(b, a))
    case _ => None
  }

  // An int beside a float is converted.
  function Promoted(d: Driver, v: V): nat { if v.R? then v.bits else d.ofInt(Wrap32(v.n)) }

  function Operate(kind: Kind, d: Driver, sgn: bool, op: H.Op, a: V, b: V): Option<V> {
    var float := a.R? || b.R?;
    if Compares(op) then
      (match (if float then FloatCompare(d, op, Promoted(d, a), Promoted(d, b)) else IntCompare(op, ReadAs(sgn, a.n), ReadAs(sgn, b.n)))
       case None => None case Some(t) => Some(N(Bit(t))))
    else if float then FloatArith(d, op, Promoted(d, a), Promoted(d, b))
    else IntArith(kind, sgn, op, a.n, b.n)
  }

  // A literal's value. The text of a constant is put into the code as it is, where a float needs its point.
  function LitV(kind: Kind, d: Driver, lx: string): Option<V> {
    match IntLit(lx)
    case Some(n) =>
      if kind == UintKind then (if -I32_LIMIT <= n < U32_LIMIT then Some(N(n % U32_LIMIT)) else None)
      else if InI32(n) then Some(N(n)) else None
    case None => if Fractional(lx) then Some(R(d.parse(lx))) else None
  }

  function ConstV(kind: Kind, d: Driver, lx: string): Option<V> {
    if IntLit(lx).None? && '.' !in lx then None else LitV(kind, d, lx)
  }

  // A minus sign before a float subtracts from zero.
  function Unary(kind: Kind, d: Driver, op: UnaryOp, v: V): Option<V> {
    match op
    case Neg => Some(if v.R? then R(d.sub(d.ofInt(0), v.bits)) else N(Norm(kind, -v.n)))
    case Not => if v.N? then Some(N(Bit(v.n == 0))) else None
    case _ => Some(v)
  }

  // One row's data, the variables bound so far, their types.
  datatype Frame = Frame(row: Row, locals: Scope, types: Types)

  // What one row's expression is worth; None where no code can be generated or its value is undefined. A constant is
  // looked for before columns and variables are. Both branches of a select are evaluated.
  function Eval(k: Kernel, d: Driver, f: Frame, e: KExpr): Option<V> {
    match e
    case KName(n) =>
      (match ConstLexeme(k.consts, n)
       case Some(lx) => ConstV(k.kind, d, lx)
       case None =>
         if n in k.cols then (if n in f.row then Some(f.row[n]) else None)
         else if n in f.locals then Some(f.locals[n]) else None)
    case KLit(lx) => LitV(k.kind, d, lx)
    case KUnary(op, x) => (match Eval(k, d, f, x) case None => None case Some(v) => Unary(k.kind, d, op, v))
    case KBinary(op, l, r) =>
      (match (Eval(k, d, f, l), Eval(k, d, f, r))
       case (Some(a), Some(b)) => Operate(k.kind, d, Signed(k.kind, GenTy(k, f.types, l)), op, a, b)
       case _ => None)
    case KCall(fn, args) =>
      if fn == "select" && |args| == 3 then
        (match (Eval(k, d, f, args[0]), Eval(k, d, f, args[1]), Eval(k, d, f, args[2]))
         case (Some(N(c)), Some(a), Some(b)) => if a.R? != b.R? then None else Some(if c != 0 then a else b)
         case _ => None)
      else if fn == "sqrt" && |args| == 1 then
        (match Eval(k, d, f, args[0])
         case Some(R(x)) => Some(R(d.sqrt(x)))
         case _ => None)
      else None
    case KOther => None
  }

  // What is stored. In a fused loop a compound assignment converts an int to a float column and takes the column's sign;
  // elsewhere it converts nothing and is signed.
  function Assigned(k: Kernel, d: Driver, op: Option<H.Op>, cur: V, v: V): Option<V> {
    match op
    case None => if v.R? == (k.kind == FloatKind) then Some(v) else None
    case Some(o) =>
      if k.kind == FloatKind then
        (if cur.N? || (v.N? && !k.fused) then None else FloatArith(d, o, cur.bits, Promoted(d, v)))
      else if cur.R? || v.R? then None
      else IntArith(k.kind, !k.fused || k.kind != UintKind, o, cur.n, v.n)
  }

  function Exec(k: Kernel, d: Driver, f: Frame, s: KStmt): Option<Frame>
    decreases s, 0
  {
    match s
    case KAssign(t, op, value) =>
      if t.None? || t.value !in k.cols || t.value !in f.row then None
      else
        (match Eval(k, d, f, value)
         case None => None
         case Some(v) =>
           match Assigned(k, d, op, f.row[t.value], v)
           case None => None
           case Some(w) => Some(f.(row := f.row[t.value := w])))
    case KBlock(ss) =>
      (match ExecAll(k, d, f, ss) case None => None case Some(g) => Some(f.(row := g.row)))
    case KBind(names, init) =>
      if |names| != 1 || init.None? then None
      else
        (match Eval(k, d, f, init.value)
         case None => None
         case Some(v) =>
           Some(Frame(f.row, f.locals[names[0] := v], f.types[names[0] := SemTy(k, f.types, init.value)])))
    case KIf(c, t, e) =>
      (match Eval(k, d, f, c)
       case Some(N(n)) =>
         (match (if n != 0 then ExecAll(k, d, f, t) else ExecAll(k, d, f, e))
          case None => None
          case Some(g) => Some(f.(row := g.row)))
       case _ => None)
    case KOtherStmt => None
  }

  function ExecAll(k: Kernel, d: Driver, f: Frame, ss: seq<KStmt>): Option<Frame>
    decreases ss, 0
  {
    if ss == [] then Some(f)
    else match Exec(k, d, f, ss[0]) case None => None case Some(g) => ExecAll(k, d, g, ss[1..])
  }

  // A body starts on a row with no variables.
  function Start(row: Row): Frame { Frame(row, map[], map[]) }

  // ---- GLSL ----

  datatype GExpr =
    | GCol(col: string)
    | GVar(name: string)
    | GLit(text: string)
    | GNeg(e: GExpr)
    | GBin(op: H.Op, l: GExpr, r: GExpr)
    | GCast(e: GExpr)
    | GSel(c: GExpr, a: GExpr, b: GExpr)
    | GSqrt(e: GExpr)

  // An assignment `c[i] = e` or, with an operator, `c[i] = c[i] op (e)`. `hasElse` is whether the text has an else.
  datatype GStmt =
    | GAssign(col: string, gop: Option<H.Op>, value: GExpr)
    | GDecl(name: string, init: GExpr)
    | GIf(cond: GExpr, thn: seq<GStmt>, hasElse: bool, els: seq<GStmt>)

  function Rhs(c: string, op: Option<H.Op>, e: GExpr): GExpr { if op.Some? then GBin(op.value, GCol(c), e) else e }

  // GLSL integer literals: 0x hexadecimal, a leading 0 octal, else decimal, in 32 bits; a minus sign in front is the
  // operator.
  function CBase(s: string): (nat, string) {
    if |s| >= 2 && s[0] == '0' && (s[1] == 'x' || s[1] == 'X') then (16, s[2..])
    else if |s| >= 2 && s[0] == '0' then (8, s[1..])
    else (10, s)
  }

  function GlslNat(s: string): Option<nat> {
    var p := CBase(s);
    if p.1 != [] && AllDigits(p.1, p.0) && Positional(p.1, p.0) < U32_LIMIT then Some(Positional(p.1, p.0)) else None
  }

  function GlslInt(s: string): Option<int> {
    if s != [] && s[0] == '-' then (match GlslNat(s[1..]) case None => None case Some(n) => Some(-(n as int)))
    else match GlslNat(s) case None => None case Some(n) => Some(n)
  }

  // In a float shader an integer literal is converted.
  function GLitV(kind: Kind, d: Driver, text: string): Option<V> {
    match GlslInt(text)
    case None => if kind == FloatKind then Some(R(d.parse(text))) else None
    case Some(n) => Some(if kind == FloatKind then R(d.ofInt(n)) else N(Norm(kind, n)))
  }

  // The shape of a GLSL float literal, with a minus sign or without.
  predicate FloatText(s: string) {
    && s != [] && s[0] != '+' && ('.' in s || 'e' in s || 'E' in s)
    && forall i :: 0 <= i < |s| ==> IsDigit(s[i], 10) || s[i] == '.' || s[i] == 'e' || s[i] == 'E' || s[i] == '+' || s[i] == '-'
  }

  function Compare(d: Driver, op: H.Op, a: V, b: V): Option<bool> {
    if a.N? && b.N? then IntCompare(op, a.n, b.n)
    else if a.R? && b.R? then (if op == H.Neq then Some(!d.eq(a.bits, b.bits)) else FloatCompare(d, op, a.bits, b.bits))
    else None
  }

  // Two numbers of the element type; None where GLSL leaves the result undefined.
  function Arith(kind: Kind, d: Driver, op: H.Op, a: V, b: V): Option<V> {
    if a.N? && b.N? && kind != FloatKind then
      match op
      case Add => Some(N(Norm(kind, a.n + b.n)))
      case Sub => Some(N(Norm(kind, a.n - b.n)))
      case Mul => Some(N(Norm(kind, a.n * b.n)))
      case Div =>
        if b.n == 0 then None
        else if kind == UintKind then Some(N(a.n / b.n))
        else if InI32(TruncDiv(a.n, b.n)) then Some(N(TruncDiv(a.n, b.n))) else None
      case Mod => if b.n == 0 then None else Some(N(if kind == UintKind then a.n % b.n else d.rem(a.n, b.n)))
      case _ => None
    else if a.R? && b.R? && kind == FloatKind then FloatArith(d, op, a.bits, b.bits)
    else None
  }

  function ShaderOp(kind: Kind, d: Driver, op: H.Op, a: V, b: V): Option<G> {
    if Compares(op) then (match Compare(d, op, a, b) case None => None case Some(t) => Some(GB(t)))
    else (match Arith(kind, d, op, a, b) case None => None case Some(v) => Some(GV(v)))
  }

  function Negated(kind: Kind, d: Driver, v: V): V { if v.R? then R(d.neg(v.bits)) else N(Norm(kind, -v.n)) }

  // A comparison as a number of the element type.
  function Truth(kind: Kind, d: Driver, b: bool): V { if kind == FloatKind then R(d.ofInt(Bit(b))) else N(Bit(b)) }

  // The variables are the row's and those declared so far.
  datatype Effect = Effect(row: Row, locals: Scope)

  datatype G = GV(v: V) | GB(b: bool)

  // The invocation's row index; columns are read and written as name[i].
  const INDEX: string := "i"

  // A variable of the body's own called `i` hides the row index: what is then read or written is not this row.
  function GEval(kind: Kind, d: Driver, row: Row, vars: Scope, g: GExpr): Option<G> {
    match g
    case GCol(c) => if c in row && INDEX !in vars then Some(GV(row[c])) else None
    case GVar(x) => if x in vars then Some(GV(vars[x])) else None
    case GLit(t) => (match GLitV(kind, d, t) case None => None case Some(v) => Some(GV(v)))
    case GNeg(e) => (match GEval(kind, d, row, vars, e) case Some(GV(v)) => Some(GV(Negated(kind, d, v))) case _ => None)
    case GBin(op, l, r) =>
      (match (GEval(kind, d, row, vars, l), GEval(kind, d, row, vars, r))
       case (Some(GV(a)), Some(GV(b))) => ShaderOp(kind, d, op, a, b)
       case _ => None)
    case GCast(e) => (match GEval(kind, d, row, vars, e) case Some(GB(b)) => Some(GV(Truth(kind, d, b))) case _ => None)
    case GSel(c, a, b) =>
      (match GEval(kind, d, row, vars, c)
       case Some(GB(t)) => if t then GEval(kind, d, row, vars, a) else GEval(kind, d, row, vars, b)
       case _ => None)
    case GSqrt(e) => (match GEval(kind, d, row, vars, e) case Some(GV(R(x))) => Some(GV(R(d.sqrt(x)))) case _ => None)
  }

  function GExec(kind: Kind, d: Driver, f: Effect, s: GStmt): Option<Effect>
    decreases s, 0
  {
    match s
    case GAssign(c, op, e) =>
      (match GEval(kind, d, f.row, f.locals, Rhs(c, op, e))
       case Some(GV(v)) => if c in f.row && INDEX !in f.locals then Some(f.(row := f.row[c := v])) else None
       case _ => None)
    case GDecl(x, e) =>
      (match GEval(kind, d, f.row, f.locals, e)
       case Some(GV(v)) => Some(f.(locals := f.locals[x := v]))
       case _ => None)
    case GIf(c, t, _, e) =>
      (match GEval(kind, d, f.row, f.locals, c)
       case Some(GB(b)) =>
         (match (if b then GExecAll(kind, d, f, t) else GExecAll(kind, d, f, e))
          case None => None
          case Some(g) => Some(Effect(g.row, f.locals)))
       case _ => None)
  }

  function GExecAll(kind: Kind, d: Driver, f: Effect, ss: seq<GStmt>): Option<Effect>
    decreases ss, 0
  {
    if ss == [] then Some(f)
    else match GExec(kind, d, f, ss[0]) case None => None case Some(g) => GExecAll(kind, d, g, ss[1..])
  }

  // ---- what the GLSL compiler accepts ----

  datatype GTy = TyVal | TyBool

  // A column is an array unless a variable hides it, and an index must be an integer.
  predicate ColOk(kind: Kind, vars: set<string>, c: string) { c !in vars && (INDEX in vars ==> kind != FloatKind) }

  // Types and declared names; an integer literal must be one.
  function GType(kind: Kind, vars: set<string>, g: GExpr): Option<GTy> {
    match g
    case GCol(c) => if ColOk(kind, vars, c) then Some(TyVal) else None
    case GVar(x) => if x in vars then Some(TyVal) else None
    case GLit(t) => if GlslInt(t).Some? || (kind == FloatKind && FloatText(t)) then Some(TyVal) else None
    case GNeg(e) => if GType(kind, vars, e) == Some(TyVal) then Some(TyVal) else None
    case GBin(op, l, r) =>
      if GType(kind, vars, l) == Some(TyVal) && GType(kind, vars, r) == Some(TyVal)
      then Some(if Compares(op) then TyBool else TyVal) else None
    case GCast(e) => if GType(kind, vars, e) == Some(TyBool) then Some(TyVal) else None
    case GSel(c, a, b) =>
      if GType(kind, vars, c) == Some(TyBool) && GType(kind, vars, a) == Some(TyVal) && GType(kind, vars, b) == Some(TyVal)
      then Some(TyVal) else None
    case GSqrt(e) => if kind == FloatKind && GType(kind, vars, e) == Some(TyVal) then Some(TyVal) else None
  }

  // The names declared in the current block after the statement; a block declares a name once, and may hide those
  // around it.
  function GCheck(kind: Kind, outer: set<string>, here: set<string>, s: GStmt): Option<set<string>>
    decreases s, 0
  {
    match s
    case GAssign(c, op, e) =>
      if ColOk(kind, outer + here, c) && GType(kind, outer + here, Rhs(c, op, e)) == Some(TyVal) then Some(here) else None
    case GDecl(x, e) =>
      if x !in here && GType(kind, outer + here, e) == Some(TyVal) then Some(here + {x}) else None
    case GIf(c, t, _, e) =>
      if GType(kind, outer + here, c) == Some(TyBool)
         && GCheckAll(kind, outer + here, {}, t).Some? && GCheckAll(kind, outer + here, {}, e).Some?
      then Some(here) else None
  }

  function GCheckAll(kind: Kind, outer: set<string>, here: set<string>, ss: seq<GStmt>): Option<set<string>>
    decreases ss, 0
  {
    if ss == [] then Some(here)
    else match GCheck(kind, outer, here, ss[0]) case None => None case Some(h) => GCheckAll(kind, outer, h, ss[1..])
  }

  // The body stands in the block that declares the row index: at its top level that name is taken.
  predicate Compiles(kind: Kind, code: seq<GStmt>) {
    match GCheckAll(kind, {}, {}, code) case None => false case Some(h) => INDEX !in h
  }
}

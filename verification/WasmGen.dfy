// What the direct wasm backend generates: each construct's instructions, and the generator's tables afterwards.
module WasmGen {
  import opened Bytes
  import opened WasmInstr
  import opened Values
  import opened IntLiterals
  import opened Hir
  import opened WasmText

  const ARGS_BASE: int := 512
  const STRINGS_BASE: int := 1024
  const ARRAYS_BASE: int := 16384
  const MEM_BYTES: int := 262144
  const MAX_ARRAYS: nat := 128

  datatype Local = Local(name: string, wt: ValType)
  datatype Arr = Arr(name: string, base: int, size: int, wt: ValType, isSigned: bool, total: int)
  datatype Gen = Gen(locals: seq<Local>, arrays: seq<Arr>, cursor: int, strings: seq<byte>)

  datatype Out = Out(code: seq<Instr>, g: Gen)

  // ---- types ----

  function WType(t: HType): ValType { if t.TFloat? then F64 else I32 }

  function ElemBase(t: HType): HType {
    if t.TShaped? || t.TArray? then ElemBase(t.elem) else t
  }

  function TotalElems(t: HType): int {
    match t
    case TShaped(e, rank) => (if rank > 0 then rank else 1) * TotalElems(e)
    case TArray(e) => TotalElems(e)
    case _ => 1
  }

  function ScalarSize(t: HType): int {
    match t
    case TFloat => 8
    case TChar => 1
    case TCharArray => 1
    case TInt(w, _) => if w >= 8 then w / 8 else 4
    case _ => 4
  }

  // ---- tables ----

  function FindLocal(ls: seq<Local>, name: string): (r: Option<nat>)
    ensures r.Some? ==> r.value < |ls| && ls[r.value].name == name
  {
    if ls == [] then None
    else if ls[0].name == name then Some(0)
    else match FindLocal(ls[1..], name) case None => None case Some(i) => Some(i + 1)
  }

  // The index of a local, entering it with its first-seen type if it is new.
  function LocalIndex(g: Gen, name: string, wt: ValType): (nat, Gen) {
    match FindLocal(g.locals, name)
    case Some(i) => (i, g)
    case None => (|g.locals|, g.(locals := g.locals + [Local(name, wt)]))
  }

  function FindArr(arrs: seq<Arr>, name: string): (r: Option<Arr>)
    ensures r.Some? ==> r.value in arrs && r.value.name == name
  {
    if arrs == [] then None else if arrs[0].name == name then Some(arrs[0]) else FindArr(arrs[1..], name)
  }

  // A new array sits at the bump pointer; when the table is full nothing is declared.
  function DeclareArr(g: Gen, name: string, t: HType): (Option<Arr>, Gen) {
    if |g.arrays| >= MAX_ARRAYS then (None, g)
    else
      var b := ElemBase(t);
      var a := Arr(name, g.cursor, ScalarSize(b), WType(b), b.TInt? && b.isSigned, TotalElems(t));
      (Some(a), g.(arrays := g.arrays + [a], cursor := g.cursor + a.total * a.size))
  }

  // ---- opcodes ----

  function BinopI(op: Op): byte {
    match op
    case Add => 0x6a case Sub => 0x6b case Mul => 0x6c case Div => 0x6d case Mod => 0x6f
    case Eq => 0x46 case Neq => 0x47 case Lt => 0x48 case Gt => 0x4a case Lte => 0x4c case Gte => 0x4e
    case And => 0x71 case Or => 0x72 case Fmap => 0
  }

  function BinopF(op: Op): byte {
    match op
    case Add => 0xa0 case Sub => 0xa1 case Mul => 0xa2 case Div => 0xa3
    case Eq => 0x61 case Neq => 0x62 case Lt => 0x63 case Gt => 0x64 case Lte => 0x65 case Gte => 0x66
    case _ => 0
  }

  function LoadOf(a: Arr): Instr {
    if a.wt == F64 then Load(0x2b, 3, 0)
    else if a.size == 1 then Load(if a.isSigned then 0x2c else 0x2d, 0, 0)
    else if a.size == 2 then Load(if a.isSigned then 0x2e else 0x2f, 1, 0)
    else Load(0x28, 2, 0)
  }

  function StoreOf(a: Arr): Instr {
    if a.wt == F64 then Store(0x39, 3, 0)
    else if a.size == 1 then Store(0x3a, 0, 0)
    else if a.size == 2 then Store(0x3b, 1, 0)
    else Store(0x36, 2, 0)
  }

  // ---- literals ----

  function ParseChar(lx: string): int {
    var p := if lx != [] && lx[0] == '\'' then lx[1..] else lx;
    if p != [] && p[0] == '\\' then
      (if |p| < 2 then 0
       else if p[1] == 'n' then 10
       else if p[1] == 't' then 9
       else if p[1] == 'r' then 13
       else if p[1] == '0' then 0
       else ToSigned(p[1] as int % 256, 256))
    else if p == [] then 0
    else p[0] as int % 256
  }

  function LiteralCode(h: Host, lx: string, ty: HType): Instr {
    if WType(ty) == F64 then FConst(h.parse(lx))
    else if ty.TChar? then Const(ParseChar(lx))
    else if lx == "true" then Const(1)
    else if lx == "false" then Const(0)
    else Const(WgParseInt(lx))
  }

  function Intern(g: Gen, raw: seq<byte>): (int, int, Gen) {
    var t := Unescape(raw);
    (STRINGS_BASE + |g.strings|, |t|, g.(strings := g.strings + t))
  }

  // ---- expressions ----

  // The array an index or length expression names, if any.
  function ArrOf(g: Gen, base: Expr): Option<Arr> {
    if base.Name? then FindArr(g.arrays, base.name) else None
  }

  // `depth` bounds how many constants are unfolded inside one another.
  function ExprCode(env: Env, depth: nat, g: Gen, e: Expr): Out
    decreases depth, e, 0
  {
    match e
    case Literal(lx, ty) => Out([LiteralCode(env.host, lx, ty)], g)
    case Name(nm, ty) =>
      (match FindConst(env.consts, nm)
       case Some(v) => if depth == 0 then Out([], g) else ExprCode(env, depth - 1, g, v)
       case None => var p := LocalIndex(g, nm, WType(ty)); Out([LocalGet(p.0)], p.1))
    case Binary(op, l, r, _) =>
      var isf := WType(l.ty) == F64 || WType(r.ty) == F64;
      var opc := if isf then BinopF(op) else BinopI(op);
      if opc == 0 then Out([Const(0)], g)
      else
        var lo := if isf then FloatCode(env, depth, g, l) else ExprCode(env, depth, g, l);
        var ro := if isf then FloatCode(env, depth, lo.g, r) else ExprCode(env, depth, lo.g, r);
        Out(lo.code + ro.code + [Num(opc)], ro.g)
    case Index(base, indices, _) =>
      (match ArrOf(g, base)
       case Some(a) =>
         if |indices| == 1 then
           var ao := AddrCode(env, depth, g, a, indices[0]);
           Out(ao.code + [LoadOf(a)], ao.g)
         else Out([Const(0)], g)
       case None => Out([Const(0)], g))
    case Field(base, f, _) =>
      (match ArrOf(g, base)
       case Some(a) => Out([Const(if f == "length" then a.total else 0)], g)
       case None => Out([Const(0)], g))
    case _ => Out([Const(0)], g)
  }

  // The address base + index * size.
  function AddrCode(env: Env, depth: nat, g: Gen, a: Arr, idx: Expr): Out
    decreases depth, idx, 1
  {
    var io := ExprCode(env, depth, g, idx);
    Out([Const(a.base)] + io.code + (if a.size != 1 then [Const(a.size), Num(0x6c)] else []) + [Num(0x6a)], io.g)
  }

  // The value, converted to f64 unless it is one already.
  function FloatCode(env: Env, depth: nat, g: Gen, e: Expr): Out
    decreases depth, e, 1
  {
    var o := ExprCode(env, depth, g, e);
    if WType(e.ty) != F64 then Out(o.code + [Num(0xb7)], o.g) else o
  }

  // The value in the element type of an array or the type of a variable.
  function ValueCode(env: Env, depth: nat, g: Gen, wt: ValType, e: Expr): Out {
    if wt == F64 then FloatCode(env, depth, g, e) else ExprCode(env, depth, g, e)
  }

  // ---- printf ----

  const StoreI32: Instr := Store(0x36, 2, 0)
  const StoreF64: Instr := Store(0x39, 3, 0)

  // Argument j into its slot: a string as pointer and length, anything else by value.
  function ArgCode(env: Env, depth: nat, g: Gen, a: Expr, j: nat): Out {
    var slot := ARGS_BASE + j * 8;
    if a.Str? || a.ty.TCharArray? then
      var t := StringArg(g, a);
      Out([Const(slot), Const(t.0), StoreI32, Const(slot + 4), Const(t.1), StoreI32], t.2)
    else
      var o := ExprCode(env, depth, g, a);
      Out([Const(slot)] + o.code + [if WType(a.ty) == F64 then StoreF64 else StoreI32], o.g)
  }

  // Address and length of a string argument; nothing known about it means 0, 0.
  function StringArg(g: Gen, a: Expr): (int, int, Gen) {
    if a.Str? then Intern(g, a.text)
    else match ArrOf(g, a)
      case Some(arr) => (arr.base, arr.total, g)
      case None => (0, 0, g)
  }

  function ArgsCode(env: Env, depth: nat, g: Gen, args: seq<Expr>, j: nat): Out
    decreases |args|
  {
    if args == [] then Out([], g)
    else
      var a := ArgCode(env, depth, g, args[0], j);
      var r := ArgsCode(env, depth, a.g, args[1..], j + 1);
      Out(a.code + r.code, r.g)
  }

  function PrintCode(env: Env, depth: nat, g: Gen, args: seq<Expr>): Out {
    if args == [] || !args[0].Str? then Out([], g)
    else
      var t := Intern(g, args[0].text);
      if |args| == 1 then Out([Const(t.0), Const(t.1), Instr.Call(env.fPrint)], t.2)
      else
        var r := ArgsCode(env, depth, t.2, args[1..], 0);
        Out(r.code + [Const(t.0), Const(t.1), Const(ARGS_BASE), Const(|args| - 1), Instr.Call(env.fPrintf)], r.g)
  }

  // ---- statements ----

  function ElementsCode(env: Env, depth: nat, g: Gen, a: Arr, elements: seq<Expr>, k: nat): Out
    decreases |elements|
  {
    if elements == [] || k >= a.total then Out([], g)
    else
      var v := ValueCode(env, depth, g, a.wt, elements[0]);
      var r := ElementsCode(env, depth, v.g, a, elements[1..], k + 1);
      Out([Const(a.base + k * a.size)] + v.code + [StoreOf(a)] + r.code, r.g)
  }

  function BindCode(env: Env, depth: nat, g: Gen, name: string, declared: Option<HType>, value: Option<Expr>): Out {
    match BindArrayType(declared, value)
    case Some(t) =>
      var d := DeclareArr(g, name, t);
      if d.0.Some? && value.Some? && value.value.ArrayLit?
      then ElementsCode(env, depth, d.1, d.0.value, value.value.elements, 0)
      else Out([], d.1)
    case None =>
      var wt := if value.Some? then WType(value.value.ty) else I32;
      var v := if value.Some? then ExprCode(env, depth, g, value.value) else Out([Const(0)], g);
      var p := LocalIndex(v.g, name, wt);
      Out(v.code + [LocalSet(p.0)], p.1)
  }

  function OpCode(wt: ValType, op: Op): seq<Instr> {
    var b := if wt == F64 then BinopF(op) else BinopI(op);
    if b != 0 then [Num(b)] else []
  }

  function AssignCode(env: Env, depth: nat, g: Gen, target: Expr, rhs: Expr, op: Option<Op>): Out {
    match target
    case Index(base, indices, _) =>
      (match ArrOf(g, base)
       case Some(a) =>
         if |indices| == 1 then
           var ao := AddrCode(env, depth, g, a, indices[0]);
           (match op
            case None =>
              var v := ValueCode(env, depth, ao.g, a.wt, rhs);
              Out(ao.code + v.code + [StoreOf(a)], v.g)
            case Some(o) =>
              var ao2 := AddrCode(env, depth, ao.g, a, indices[0]);
              var v := ValueCode(env, depth, ao2.g, a.wt, rhs);
              Out(ao.code + ao2.code + [LoadOf(a)] + v.code + OpCode(a.wt, o) + [StoreOf(a)], v.g))
         else Out([], g)
       case None => Out([], g))
    case Name(nm, ty) =>
      var wt := WType(ty);
      var p := LocalIndex(g, nm, wt);
      (match op
       case None =>
         var v := ExprCode(env, depth, p.1, rhs);
         Out(v.code + [LocalSet(p.0)], v.g)
       case Some(o) =>
         var v := ValueCode(env, depth, p.1, wt, rhs);
         Out([LocalGet(p.0)] + v.code + OpCode(wt, o) + [LocalSet(p.0)], v.g))
    case _ => Out([], g)
  }

  function OptStmtCode(env: Env, depth: nat, g: Gen, s: Option<Stmt>): Out
    decreases s, 1
  {
    match s case None => Out([], g) case Some(t) => StmtCode(env, depth, g, t)
  }

  // Leave the loop when the condition is zero; no condition means never.
  function ExitCode(env: Env, depth: nat, g: Gen, cond: Option<Expr>): Out {
    match cond
    case None => Out([], g)
    case Some(e) => var o := ExprCode(env, depth, g, e); Out(o.code + [Num(0x45), BrIf(1)], o.g)
  }

  function StmtCode(env: Env, depth: nat, g: Gen, s: Stmt): Out
    decreases s, 0
  {
    match s
    case Bind(name, declared, value) => BindCode(env, depth, g, name, declared, value)
    case Assign(target, rhs, op) => AssignCode(env, depth, g, target, rhs, op)
    case For(_, init, cond, incr, body) =>
      var i := OptStmtCode(env, depth, g, init);
      var x := ExitCode(env, depth, i.g, cond);
      var b := StmtsCode(env, depth, x.g, body);
      var n := OptStmtCode(env, depth, b.g, incr);
      Out(i.code + [Block([Loop(x.code + b.code + n.code + [Br(0)])])], n.g)
    case Cond(test, thn, els) =>
      var c := ExprCode(env, depth, g, test);
      var t := StmtsCode(env, depth, c.g, thn);
      var e := StmtsCode(env, depth, t.g, els);
      Out(c.code + [If(t.code, els != [], e.code)], e.g)
    case Eff(expr) =>
      var e := Unwrap(expr);
      if IsPrintCall(e) then PrintCode(env, depth, g, e.args) else Out([], g)
    case Skip => Out([], g)
  }

  function StmtsCode(env: Env, depth: nat, g: Gen, ss: seq<Stmt>): Out
    decreases ss, 0
  {
    if ss == [] then Out([], g)
    else
      var a := StmtCode(env, depth, g, ss[0]);
      var r := StmtsCode(env, depth, a.g, ss[1..]);
      Out(a.code + r.code, r.g)
  }

  // ---- storage, and what gets no code ----

  // An array type of these dimensions, the outermost first.
  function Shape(dims: seq<nat>, t: HType): HType { if dims == [] then t else TShaped(Shape(dims[1..], t), dims[0]) }

  function Cells(dims: seq<nat>): nat { if dims == [] then 1 else Cells(dims[..|dims| - 1]) * dims[|dims| - 1] }

  lemma {:induction false} CellsFirst(dims: seq<nat>)
    requires dims != []
    ensures Cells(dims) == dims[0] * Cells(dims[1..])
    decreases |dims|
  {
    var n := |dims| - 1;
    if n > 0 {
      CellsFirst(dims[..n]);
      assert dims[..n][1..] == dims[1..][..n - 1];
      assert Cells(dims) == dims[0] * Cells(dims[1..][..n - 1]) * dims[n];
      assert dims[0] * Cells(dims[1..][..n - 1]) * dims[n] == dims[0] * (Cells(dims[1..][..n - 1]) * dims[n]);
    } else {
      assert dims[..0] == [] && dims[1..] == [];
    }
  }

  // An array of any positive dimensions holds their product of elements, of eight bytes for a float, one for a char, four
  // for a truth value and the default integer, and as many as its bits take for another integer.
  lemma {:induction false} StorageExact(dims: seq<nat>, t: HType)
    requires !t.TShaped? && !t.TArray? && forall i :: 0 <= i < |dims| ==> dims[i] > 0
    ensures ElemBase(Shape(dims, t)) == t && TotalElems(Shape(dims, t)) == Cells(dims)
    ensures t == TFloat ==> ScalarSize(t) == 8
    ensures t == TChar || t == TCharArray ==> ScalarSize(t) == 1
    ensures t.TInt? && t.width in {8, 16, 32, 64} ==> 8 * ScalarSize(t) == t.width
    ensures t.TNamed? || (t.TInt? && t.width == 0) ==> ScalarSize(t) == 4
    decreases |dims|
  {
    if dims != [] {
      StorageExact(dims[1..], t);
      CellsFirst(dims);
    }
  }

  // A zero stands for every call, array, text and expression the backend does not know, and for an operator without opcode.
  lemma ZeroEmitted(env: Env, depth: nat, g: Gen, e: Expr)
    requires e.Call? || e.ArrayLit? || e.Str? || e.Opaque? || (e.Binary? && (e.op == Fmap || (e.op in {And, Or, Mod} && e.left.ty.TFloat?)))
    ensures ExprCode(env, depth, g, e) == Out([Const(0)], g)
  {
  }

  // Nothing stands for a statement it does not know, an effect that is no print call, a print whose format is no text, and an
  // assignment to anything but a name or an element.
  lemma NothingEmitted(env: Env, depth: nat, g: Gen, s: Stmt)
    requires s.Skip? || (s.Assign? && !s.target.Name? && !s.target.Index?)
             || (s.Eff? && (!IsPrintCall(Unwrap(s.expr)) || Unwrap(s.expr).args == [] || !Unwrap(s.expr).args[0].Str?))
    ensures StmtCode(env, depth, g, s) == Out([], g)
  {
  }
}

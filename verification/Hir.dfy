// The part of the HIR the wasm backend looks at: types, expressions, statements and top-level constants.
module Hir {
  import opened Bytes
  import opened Values

  datatype HType =
    | TInt(width: nat, isSigned: bool)
    | TFloat
    | TChar
    | TCharArray
    | TNamed(tname: string)
    | TShaped(elem: HType, rank: int)
    | TArray(elem: HType)
    | TOther

  datatype Op = Add | Sub | Mul | Div | Mod | Eq | Neq | Lt | Gt | Lte | Gte | And | Or | Fmap

  // A `Str` holds its bytes, escapes resolved. `Opaque` stands for the expression kinds the backend does not look into (slices, unary operators, allocations,
  // entity literals, a missing callee).
  datatype Expr =
    | Literal(lexeme: string, ty: HType)
    | Name(name: string, ty: HType)
    | Field(base: Expr, field: string, ty: HType)
    | Index(base: Expr, indices: seq<Expr>, ty: HType)
    | Binary(op: Op, left: Expr, right: Expr, ty: HType)
    | Call(callee: Expr, args: seq<Expr>, ty: HType)
    | ArrayLit(elements: seq<Expr>, ty: HType)
    | Str(text: seq<byte>, ty: HType)
    | Opaque(ty: HType)

  // `op` of an assignment is None for `=`. `Skip` stands for the statement kinds the backend emits nothing for.
  datatype Stmt =
    | Bind(name: string, declared: Option<HType>, value: Option<Expr>)
    | Assign(target: Expr, rhs: Expr, op: Option<Op>)
    | For(iterable: Option<Expr>, init: Option<Stmt>, cond: Option<Expr>, incr: Option<Stmt>, body: seq<Stmt>)
    | Cond(test: Expr, thn: seq<Stmt>, els: seq<Stmt>)
    | Eff(expr: Expr)
    | Skip

  // Top-level constants: the first one with the name is the one that counts.
  type Consts = seq<(string, Expr)>

  function FindConst(cs: Consts, name: string): Option<Expr> {
    if cs == [] then None else if cs[0].0 == name then Some(cs[0].1) else FindConst(cs[1..], name)
  }

  predicate IsArrayType(t: HType) { t.TShaped? || t.TArray? || t.TCharArray? }

  // `f(...)(_:)` denotes the call f(...).
  function Unwrap(e: Expr): Expr {
    if e.Call? && e.callee.Call? then Unwrap(e.callee) else e
  }

  predicate Contains(s: string, sub: string) {
    |sub| <= |s| && (s[..|sub|] == sub || (s != [] && Contains(s[1..], sub)))
  }

  // A call whose callee is named print, or has printf in its name.
  predicate IsPrintCall(e: Expr) {
    && e.Call?
    && ((e.callee.Name? && IsPrintName(e.callee.name)) || (e.callee.Field? && IsPrintName(e.callee.field)))
  }

  predicate IsPrintName(n: string) { Contains(n, "printf") || n == "print" }

  predicate StandsAt(s: string, sub: string, i: nat) { i + |sub| <= |s| && s[i..i + |sub|] == sub }

  lemma {:induction false} ContainsExact(s: string, sub: string)
    ensures Contains(s, sub) <==> exists i: nat :: StandsAt(s, sub, i)
    decreases |s|
  {
    if |sub| <= |s| && s[..|sub|] == sub {
      assert StandsAt(s, sub, 0);
    } else if s != [] {
      ContainsExact(s[1..], sub);
      if Contains(s[1..], sub) {
        var i: nat :| StandsAt(s[1..], sub, i);
        assert s[i + 1..i + 1 + |sub|] == s[1..][i..i + |sub|];
        assert StandsAt(s, sub, i + 1);
      }
      if exists i: nat :: StandsAt(s, sub, i) {
        var i: nat :| StandsAt(s, sub, i);
        assert i > 0;
        assert s[1..][i - 1..i - 1 + |sub|] == s[i..i + |sub|];
        assert StandsAt(s[1..], sub, i - 1);
      }
    }
  }

  // A call prints if and only if its callee, plain or behind a dot, is named print or has printf somewhere in its name.
  lemma PrintCallExact(n: string, base: Expr, args: seq<Expr>, t: HType, u: HType)
    ensures var prints := n == "print" || exists i: nat :: StandsAt(n, "printf", i);
            && (IsPrintCall(Call(Name(n, t), args, u)) <==> prints)
            && (IsPrintCall(Call(Field(base, n, t), args, u)) <==> prints)
  {
    ContainsExact(n, "printf");
    hide Contains, StandsAt;
  }

  // An effect applied to a call, once or more, is the call.
  lemma EffectIsCall(f: Expr, e: Expr, more: seq<Expr>, u: HType)
    requires f.Call? && !f.callee.Call? && e.Call? && Unwrap(e) == f
    ensures Unwrap(f) == f && Unwrap(Call(e, more, u)) == f
  {
  }

  // The array type a binding declares, if it declares one.
  function BindArrayType(declared: Option<HType>, value: Option<Expr>): Option<HType> {
    if declared.Some? && IsArrayType(declared.value) then declared
    else if value.Some? && IsArrayType(value.value.ty) then Some(value.value.ty)
    else None
  }

  // What does not change over a program: its constants, the host's arithmetic, the numbers of its two print functions.
  datatype Env = Env(consts: Consts, host: Host, fPrint: nat, fPrintf: nat)

  // ---- integer types ----

  // No integer type, or the 32-bit signed one; width 0 stands for the default.
  predicate Width32(t: HType) { t.TInt? ==> (t.width == 32 || t.width == 0) && t.isSigned }

  predicate Arith(op: Op) { op == Add || op == Sub || op == Mul || op == Div || op == Mod }

  predicate Compare(op: Op) { op == Eq || op == Neq || op == Lt || op == Gt || op == Lte || op == Gte }

  // The operators whose result depends on the sign rule.
  predicate Sensitive(op: Op) { op == Div || op == Mod || op == Lt || op == Gt || op == Lte || op == Gte }

  // The first integer operand decides; without one the operation is signed.
  function SignedOf(a: Option<bool>, b: Option<bool>): bool {
    match a case Some(s) => s case None => match b case Some(s) => s case None => true
  }

  // The sign of an expression's integer type: arithmetic takes it from its operands.
  function SignOf(e: Expr): Option<bool> {
    if e.Binary? && Arith(e.op) then
      (if e.left.ty.TFloat? || e.right.ty.TFloat? then None else Some(SignedOf(SignOf(e.left), SignOf(e.right))))
    else if e.ty.TInt? then Some(e.ty.isSigned) else None
  }

  predicate OpSigned(l: Expr, r: Expr) { SignedOf(SignOf(l), SignOf(r)) }

  // An operation is done in the width of its wider integer operand; without one in 32 bits.
  function WiderOf(a: nat, b: nat): nat { if a == 0 && b == 0 then 32 else if a > b then a else b }

  // The width of an expression's integer type, 0 if it has none: elements of narrow arrays are widened when they are
  // loaded, arithmetic has the width of its operands.
  function WidthOf(e: Expr): nat {
    if e.Binary? && Arith(e.op) then
      (if e.left.ty.TFloat? || e.right.ty.TFloat? then 0 else WiderOf(WidthOf(e.left), WidthOf(e.right)))
    else if e.Index? && e.ty.TInt? && e.ty.width < 32 then 32
    else if e.ty.TInt? then e.ty.width else 0
  }

  function OpWidth(l: Expr, r: Expr): nat { WiderOf(WidthOf(l), WidthOf(r)) }
}

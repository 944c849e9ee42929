// Where the shader and the CPU's loop differ: inputs, and for each of them the exact condition.
module ShaderExact {
  import opened Bytes
  import opened Values
  import opened IntLiterals
  import opened ShaderLang
  import opened ShaderFits
  import opened ShaderLower
  import opened ShaderMeans
  import opened ShaderSafe
  import opened ShaderGrid
  import opened ShaderLaws
  import H = Hir

  // ---- the test of a text is exact for one operation ----

  // A column or an integer literal, in a float map one that is an exact float.
  predicate Atom(k: Kernel, e: KExpr) {
    match e
    case KName(n) => n in k.cols
    case KLit(lx) => IntLit(lx).Some? && (k.kind == FloatKind ==> Exact(IntLit(lx).value))
    case _ => false
  }

  const NOTHING: Known := Known(map[], map[])

  // The expression has a value on the CPU on this row.
  predicate Defined(k: Kernel, d: Driver, row: Row, e: KExpr) { RowHolds(k.kind, row) && Eval(k, d, Start(row), e).Some? }

  // The shader's value on this row is the CPU's, wherever that has one.
  predicate AgreesOn(k: Kernel, d: Driver, e: KExpr, bools: bool, row: Row) {
    Defined(k, d, row, e) ==> Agrees(k, d, [], Start(row), Effect(row, map[]), e, bools)
  }

  // A row with the same value in every column.
  function Everywhere(k: Kernel, v: V): Row { map c | c in k.cols :: v }

  // An accepted operation on two atoms.
  ghost predicate OneOperation(k: Kernel, d: Driver, op: H.Op, a: KExpr, b: KExpr, bools: bool) {
    var e := KBinary(op, a, b);
    && DriverOk(d) && PlainConsts(k) && PlainExpr(k.kind, e) && Atom(k, a) && Atom(k, b)
    && LowerExpr(k, [], e, bools).Some? && GType(k.kind, {}, LowerExpr(k, [], e, bools).value).Some?
  }

  lemma RowReady(k: Kernel, d: Driver, op: H.Op, a: KExpr, b: KExpr, bools: bool, row: Row)
    requires OneOperation(k, d, op, a, b, bools) && Defined(k, d, row, KBinary(op, a, b))
    ensures Ready(k, d, [], Start(row), Effect(row, map[]), KBinary(op, a, b), bools)
    ensures Atom(k, a) && Atom(k, b) && PlainConsts(k) && RowHolds(k.kind, row)
  {
    hide DriverOk, PlainConsts, PlainExpr, LowerExpr, GType, Eval, Atom, RowHolds;
    var vars: Scope := map[];
    assert vars.Keys == {};
  }

  // On one row, agreeing is fitting.
  lemma RowAgrees(k: Kernel, d: Driver, op: H.Op, a: KExpr, b: KExpr, bools: bool, row: Row)
    requires OneOperation(k, d, op, a, b, bools) && Defined(k, d, row, KBinary(op, a, b))
    ensures var f := Start(row);
            && Eval(k, d, f, a).Some? && Eval(k, d, f, b).Some?
            && (Agrees(k, d, [], f, Effect(row, map[]), KBinary(op, a, b), bools) <==>
                  OpFits(k.kind, d, SignOf(k, f, a), op, Eval(k, d, f, a).value, Eval(k, d, f, b).value))
  {
    var f, g, e := Start(row), Effect(row, map[]), KBinary(op, a, b);
    RowReady(k, d, op, a, b, bools, row);
    BinaryReady(k, d, [], f, g, op, a, b, bools);
    assert Eval(k, d, f, a).Some? && Eval(k, d, f, b).Some?;
    assert (a.KName? || a.KLit?) && (b.KName? || b.KLit?);
    hide OneOperation, Ready, Agrees, OpFits, Eval, Decided, RowHolds, PlainConsts, Atom;
    AtomSettled(k, d, f, a, b);
    ExprExact(k, d, [], f, g, e, bools);
    AtomAgrees(k, d, f, g, a);
    AtomAgrees(k, d, f, g, b);
  }

  lemma AtomSettled(k: Kernel, d: Driver, f: Frame, a: KExpr, b: KExpr)
    requires Atom(k, a) && Atom(k, b) && Eval(k, d, f, a).Some? && Eval(k, d, f, b).Some? && PlainConsts(k) && RowHolds(k.kind, f.row)
    ensures Settled(k, d, f, a) && Settled(k, d, f, b) && Fits(k, d, f, a) && Fits(k, d, f, b)
    ensures Decided(k.kind, Eval(k, d, f, a).value, Eval(k, d, f, b).value)
  {
  }

  lemma AtomAgrees(k: Kernel, d: Driver, f: Frame, g: Effect, a: KExpr)
    requires (a.KName? || a.KLit?) && Ready(k, d, [], f, g, a, false)
    ensures Lock(k, d, [], f, g, a, false)
  {
    hide Ready;
    if a.KName? {
      NameMeans(k, d, [], f, g, a.name, false);
    } else {
      LitAgrees(k, d, [], f, g, a.lexeme, false);
    }
  }

  function Operand(k: Kernel, d: Driver, row: Row, e: KExpr): Option<V> { Eval(k, d, Start(row), e) }

  predicate FitsOn(k: Kernel, d: Driver, op: H.Op, a: KExpr, b: KExpr, row: Row) {
    match (Operand(k, d, row, a), Operand(k, d, row, b))
    case (Some(u), Some(v)) => OpFits(k.kind, d, SignOf(k, Start(row), a), op, u, v)
    case _ => false
  }

  lemma LitOperand(k: Kernel, d: Driver, row: Row, lx: string)
    requires Atom(k, KLit(lx)) && Operand(k, d, row, KLit(lx)).Some?
    ensures var m := Operand(k, d, row, KLit(lx)).value.n;
            && Operand(k, d, row, KLit(lx)) == Some(N(m)) && RangeOf(k, NOTHING, KLit(lx)) == Ints(m, m) && InRange(k.kind, m)
            && forall other :: Operand(k, d, other, KLit(lx)) == Some(N(m))
  {
  }

  lemma ColumnOperand(k: Kernel, d: Driver, n: string, v: V)
    requires Atom(k, KName(n)) && PlainConsts(k)
    ensures Operand(k, d, Everywhere(k, v), KName(n)) == Some(v)
    ensures ConstLexeme(k.consts, n).None?
  {
  }

  // A comparison for inequality with a float column does not fit where the column holds a NaN.
  lemma UnfitFloat(k: Kernel, d: Driver, op: H.Op, a: KExpr, b: KExpr, bools: bool, r0: Row, x: nat)
    requires k.kind == FloatKind && OneOperation(k, d, op, a, b, bools) && Defined(k, d, r0, KBinary(op, a, b)) && !Number(d, x)
    requires !OpSafe(k.kind, SignOf(k, Start(r0), a), op, RangeOf(k, NOTHING, a), RangeOf(k, NOTHING, b))
    requires a.KName? || b.KName?
    ensures var row := Everywhere(k, R(x)); Defined(k, d, row, KBinary(op, a, b)) && !FitsOn(k, d, op, a, b, row)
  {
    var row := Everywhere(k, R(x));
    assert Atom(k, a) && Atom(k, b) && PlainConsts(k);
    assert Operand(k, d, r0, a).Some? && Operand(k, d, r0, b).Some?;
    assert RowHolds(k.kind, row);
    hide OneOperation, IntSafe, Number;
    if a.KLit? {
      LitOperand(k, d, r0, a.lexeme);
    } else {
      ColumnOperand(k, d, a.name, R(x));
    }
    if b.KLit? {
      LitOperand(k, d, r0, b.lexeme);
    } else {
      ColumnOperand(k, d, b.name, R(x));
    }
    hide PlainConsts;
    assert op == H.Neq by { hide Eval; }
    var s := SignOf(k, Start(row), a);
    var u, v := Operand(k, d, row, a).value, Operand(k, d, row, b).value;
    assert u == R(x) || v == R(x);
    assert Eval(k, d, Start(row), KBinary(op, a, b)) == Operate(FloatKind, d, s, op, u, v);
  }

  // A signed comparison of an unsigned column with a literal does not fit where their sign bits differ.
  lemma UnfitUnsigned(k: Kernel, d: Driver, op: H.Op, a: KExpr, b: KExpr, bools: bool, r0: Row)
    requires k.kind == UintKind && OneOperation(k, d, op, a, b, bools) && Defined(k, d, r0, KBinary(op, a, b))
    requires !OpSafe(k.kind, SignOf(k, Start(r0), a), op, RangeOf(k, NOTHING, a), RangeOf(k, NOTHING, b))
    requires a.KName? || b.KName?
    ensures var row := Everywhere(k, N(if Operand(k, d, r0, a).value.n < SIGN_BIT then U32_LIMIT - 1 else 0));
            && Operand(k, d, r0, a).value.N? && Defined(k, d, row, KBinary(op, a, b)) && !FitsOn(k, d, op, a, b, row)
  {
    assert Atom(k, a) && Atom(k, b) && PlainConsts(k) && OpAllowed(k, op, b);
    assert Operand(k, d, r0, a).Some? && Operand(k, d, r0, b).Some?;
    hide OneOperation, SignSafe;
    assert a.KLit?;
    LitOperand(k, d, r0, a.lexeme);
    var w := N(if Operand(k, d, r0, a).value.n < SIGN_BIT then U32_LIMIT - 1 else 0);
    var row := Everywhere(k, w);
    ColumnOperand(k, d, b.name, w);
    assert RowHolds(k.kind, row);
    hide PlainConsts;
    var s := SignOf(k, Start(row), a);
    var u := Operand(k, d, r0, a).value;
    assert Eval(k, d, Start(row), KBinary(op, a, b)) == Operate(UintKind, d, s, op, u, w);
    assert H.Sensitive(op) && Compares(op) by { UnsafeCompares(op, u.n); }
  }

  lemma UnsafeCompares(op: H.Op, n: int)
    requires !SignSafe(op, Ints(n, n), Whole(UintKind)) && HasGlslOp(op) && op != H.Div && op != H.Mod
    ensures H.Sensitive(op) && Compares(op)
  {
  }

  // Two literals have the same values on every row.
  lemma UnfitLiterals(k: Kernel, d: Driver, op: H.Op, a: KExpr, b: KExpr, bools: bool, row: Row)
    requires OneOperation(k, d, op, a, b, bools) && Defined(k, d, row, KBinary(op, a, b)) && a.KLit? && b.KLit?
    requires !OpSafe(k.kind, SignOf(k, Start(row), a), op, RangeOf(k, NOTHING, a), RangeOf(k, NOTHING, b))
    ensures !FitsOn(k, d, op, a, b, row)
  {
    assert Atom(k, a) && Atom(k, b) && OpAllowed(k, op, b);
    assert Operand(k, d, row, a).Some? && Operand(k, d, row, b).Some?;
    hide OneOperation, OpAllowed, OpSafe, OpFits, Operate;
    LitOperand(k, d, row, a.lexeme);
    LitOperand(k, d, row, b.lexeme);
    assert HasGlslOp(op) by { Allowed(k, op, b); }
    UnsafeNumbers(k.kind, d, SignOf(k, Start(row), a), op, Operand(k, d, row, a).value.n, Operand(k, d, row, b).value.n);
  }

  lemma UnsafeNumbers(kind: Kind, d: Driver, sgn: bool, op: H.Op, m: int, n: int)
    requires InRange(kind, m) && InRange(kind, n) && HasGlslOp(op) && Operate(kind, d, sgn, op, N(m), N(n)).Some?
    requires !OpSafe(kind, sgn, op, Ints(m, m), Ints(n, n))
    ensures !OpFits(kind, d, sgn, op, N(m), N(n))
  {
    NoZeroDivisor(kind, d, sgn, op, N(m), N(n));
    hide SignSafe, SignFits, IntSafe, IntFits, Operate;
    if kind == UintKind && SignFits(op, m, n) {
      Applied(op, Ints(m, m), Ints(n, n));
    } else if kind == FloatKind && IntFits(op, m, n) {
      IntFitsSafe(op, Ints(m, m), Ints(n, n));
    }
  }

  // A row of numbers of the element type for all columns.
  predicate RowTyped(k: Kernel, row: Row) { RowHolds(k.kind, row) && forall i :: 0 <= i < |k.cols| ==> k.cols[i] in row }

  lemma EverywhereTyped(k: Kernel, v: V)
    requires InColumn(k.kind, v)
    ensures RowTyped(k, Everywhere(k, v))
  {
  }

  // A row on which one operation differs.
  lemma UnfitRow(k: Kernel, d: Driver, op: H.Op, a: KExpr, b: KExpr, bools: bool, r0: Row, x: nat) returns (row: Row)
    requires OneOperation(k, d, op, a, b, bools) && Defined(k, d, r0, KBinary(op, a, b)) && !Number(d, x)
    requires !SafeExpr(k, NOTHING, KBinary(op, a, b))
    ensures Defined(k, d, row, KBinary(op, a, b)) && !Agrees(k, d, [], Start(row), Effect(row, map[]), KBinary(op, a, b), bools)
    ensures RowTyped(k, r0) ==> RowTyped(k, row)
  {
    AtomsSafe(k, d, op, a, b, bools);
    row := r0;
    if a.KLit? && b.KLit? {
      UnfitLiterals(k, d, op, a, b, bools, r0);
    } else if k.kind == FloatKind {
      UnfitFloat(k, d, op, a, b, bools, r0, x);
      row := Everywhere(k, R(x));
      EverywhereTyped(k, R(x));
    } else {
      UnfitUnsigned(k, d, op, a, b, bools, r0);
      var v := N(if Operand(k, d, r0, a).value.n < SIGN_BIT then U32_LIMIT - 1 else 0);
      row := Everywhere(k, v);
      EverywhereTyped(k, v);
    }
    hide OneOperation, OpFits;
    RowAgrees(k, d, op, a, b, bools, row);
  }

  // For every operator and all columns and integer literals it is used on: the shader's value is the CPU's on every row
  // where that has one if and only if the text passes the test.
  lemma OneOperationExact(k: Kernel, d: Driver, op: H.Op, a: KExpr, b: KExpr, bools: bool)
    requires OneOperation(k, d, op, a, b, bools)
    requires (exists row :: Defined(k, d, row, KBinary(op, a, b))) && exists x :: !Number(d, x)
    ensures SafeExpr(k, NOTHING, KBinary(op, a, b)) <==> forall row :: AgreesOn(k, d, KBinary(op, a, b), bools, row)
  {
    var e := KBinary(op, a, b);
    if SafeExpr(k, NOTHING, e) {
      forall row
        ensures AgreesOn(k, d, e, bools, row)
      {
        if Defined(k, d, row, e) {
          assert Knows(k, d, NOTHING, Start(row));
          hide OneOperation, Knows;
          RowAgrees(k, d, op, a, b, bools, row);
          DriverIs(k, d, op, a, b, bools);
          BinaryFits(k, d, NOTHING, Start(row), op, a, b);
        }
      }
    } else {
      var r0 :| Defined(k, d, r0, e);
      var x :| !Number(d, x);
      var row := UnfitRow(k, d, op, a, b, bools, r0, x);
      assert !AgreesOn(k, d, e, bools, row);
    }
  }

  lemma DriverIs(k: Kernel, d: Driver, op: H.Op, a: KExpr, b: KExpr, bools: bool)
    requires OneOperation(k, d, op, a, b, bools)
    ensures DriverOk(d)
  {
  }

  lemma AtomsSafe(k: Kernel, d: Driver, op: H.Op, a: KExpr, b: KExpr, bools: bool)
    requires OneOperation(k, d, op, a, b, bools) && !SafeExpr(k, NOTHING, KBinary(op, a, b))
    ensures forall row :: !OpSafe(k.kind, SignOf(k, Start(row), a), op, RangeOf(k, NOTHING, a), RangeOf(k, NOTHING, b))
    ensures (a.KLit? || a.KName?) && (b.KLit? || b.KName?) && k.kind != IntKind
  {
    hide DriverOk, IntSafe, SignSafe;
  }

  // ---- and for a whole right-hand side ----

  // Every operation passes the test or is one on columns and literals; the arms of a select pass it.
  predicate Tame(k: Kernel, e: KExpr) {
    match e
    case KUnary(op, x) => Tame(k, x) && (op == Neg ==> NegSafe(k.kind, RangeOf(k, NOTHING, x)) || Atom(k, x))
    case KBinary(op, l, r) => Tame(k, l) && Tame(k, r) && (BinarySafe(k, op, l, r) || (Atom(k, l) && Atom(k, r)))
    case KCall(fn, args) =>
      forall i :: 0 <= i < |args| ==>
        Tame(k, args[i]) && (fn == "select" && |args| == 3 && i > 0 ==> SafeExpr(k, NOTHING, args[i]))
    case _ => true
  }

  predicate BinarySafe(k: Kernel, op: H.Op, l: KExpr, r: KExpr) {
    SafeExpr(k, NOTHING, l) && SafeExpr(k, NOTHING, r) ==> SafeExpr(k, NOTHING, KBinary(op, l, r))
  }

  // It has a value on every row.
  ghost predicate Total(k: Kernel, d: Driver, e: KExpr) {
    forall row :: RowTyped(k, row) ==> Defined(k, d, row, e)
  }

  // The shader is in step with it on this row.
  predicate InStep(k: Kernel, d: Driver, e: KExpr, bools: bool, row: Row) {
    Lock(k, d, [], Start(row), Effect(row, map[]), e, bools)
  }

  ghost predicate Accepted(k: Kernel, d: Driver, e: KExpr, bools: bool) {
    && DriverOk(d) && PlainConsts(k) && PlainExpr(k.kind, e)
    && LowerExpr(k, [], e, bools).Some? && GType(k.kind, {}, LowerExpr(k, [], e, bools).value).Some?
    && Total(k, d, e)
  }

  lemma AcceptedReady(k: Kernel, d: Driver, e: KExpr, bools: bool, row: Row)
    requires Accepted(k, d, e, bools) && RowTyped(k, row)
    ensures Ready(k, d, [], Start(row), Effect(row, map[]), e, bools)
  {
    hide DriverOk, PlainConsts, PlainExpr, LowerExpr, GType, Eval, RowHolds;
    var vars: Scope := map[];
    assert vars.Keys == {};
    assert Defined(k, d, row, e);
  }

  lemma BinaryAccepted(k: Kernel, d: Driver, op: H.Op, l: KExpr, r: KExpr, bools: bool)
    requires Accepted(k, d, KBinary(op, l, r), bools)
    ensures Accepted(k, d, l, false) && Accepted(k, d, r, false)
  {
    var v := if k.kind == FloatKind then R(0) else N(0);
    EverywhereTyped(k, v);
    forall row | RowTyped(k, row)
      ensures Defined(k, d, row, l) && Defined(k, d, row, r)
      ensures Ready(k, d, [], Start(row), Effect(row, map[]), l, false) && Ready(k, d, [], Start(row), Effect(row, map[]), r, false)
    {
      AcceptedReady(k, d, KBinary(op, l, r), bools, row);
      BinaryReady(k, d, [], Start(row), Effect(row, map[]), op, l, r, bools);
    }
    hide DriverOk, PlainConsts, PlainExpr, LowerExpr, GType, Eval, RowTyped;
    var row := Everywhere(k, v);
    assert Ready(k, d, [], Start(row), Effect(row, map[]), l, false) && Ready(k, d, [], Start(row), Effect(row, map[]), r, false);
    var vars: Scope := map[];
    assert vars.Keys == {};
  }

  lemma PartAccepted(k: Kernel, d: Driver, e: KExpr, bools: bool, x: KExpr, inner: bool)
    requires Accepted(k, d, e, bools)
    requires match e case KUnary(_, y) => x == y && !inner
                     case KCall(fn, args) => args != [] && x == args[0] && inner == (fn == "select" && |args| == 3)
                     case _ => false
    ensures Accepted(k, d, x, inner)
    ensures e.KCall? ==> (e.fn == "select" && |e.args| == 3) || (e.fn == "sqrt" && |e.args| == 1)
  {
    hide DriverOk, PlainConsts;
    forall row | RowTyped(k, row)
      ensures Defined(k, d, row, x)
    {
      assert Defined(k, d, row, e);
    }
  }

  // An operation that does not pass the test is out of step on some row, wherever in the expression it is.
  lemma {:induction false} TameDiffers(k: Kernel, d: Driver, e: KExpr, bools: bool, x: nat) returns (row: Row)
    requires Accepted(k, d, e, bools) && Tame(k, e) && !SafeExpr(k, NOTHING, e) && !Number(d, x)
    ensures RowTyped(k, row) && !InStep(k, d, e, bools, row)
    decreases e
  {
    hide Accepted, Agrees, Number, Atom, RangeOf, OpSafe, NegSafe;
    match e
    case KBinary(op, l, r) =>
      BinaryAccepted(k, d, op, l, r, bools);
      if !SafeExpr(k, NOTHING, l) {
        row := TameDiffers(k, d, l, false, x);
      } else if !SafeExpr(k, NOTHING, r) {
        row := TameDiffers(k, d, r, false, x);
      } else {
        row := AtomsDiffer(k, d, op, l, r, bools, x);
      }
    case KUnary(op, y) =>
      PartAccepted(k, d, e, bools, y, false);
      if !SafeExpr(k, NOTHING, y) {
        row := TameDiffers(k, d, y, false, x);
      } else {
        row := MinusDiffers(k, d, y, bools);
      }
    case KCall(fn, args) =>
      var inner := fn == "select" && |args| == 3;
      PartAccepted(k, d, e, bools, args[0], inner);
      row := TameDiffers(k, d, args[0], inner, x);
  }

  lemma AtomsDiffer(k: Kernel, d: Driver, op: H.Op, l: KExpr, r: KExpr, bools: bool, x: nat) returns (row: Row)
    requires Accepted(k, d, KBinary(op, l, r), bools) && Atom(k, l) && Atom(k, r) && !Number(d, x)
    requires !SafeExpr(k, NOTHING, KBinary(op, l, r))
    ensures RowTyped(k, row) && !InStep(k, d, KBinary(op, l, r), bools, row)
  {
    var v := if k.kind == FloatKind then R(0) else N(0);
    EverywhereTyped(k, v);
    assert Defined(k, d, Everywhere(k, v), KBinary(op, l, r));
    hide DriverOk, PlainConsts, PlainExpr, LowerExpr, GType, Eval, RowTyped, SafeExpr, Atom, Agrees;
    row := UnfitRow(k, d, op, l, r, bools, Everywhere(k, v), x);
  }

  // A minus before zero.
  lemma MinusDiffers(k: Kernel, d: Driver, y: KExpr, bools: bool) returns (row: Row)
    requires Accepted(k, d, KUnary(Neg, y), bools) && Atom(k, y) && !NegSafe(k.kind, RangeOf(k, NOTHING, y))
    ensures RowTyped(k, row) && !InStep(k, d, KUnary(Neg, y), bools, row)
  {
    var e := KUnary(Neg, y);
    row := Everywhere(k, R(d.ofInt(0)));
    EverywhereTyped(k, R(d.ofInt(0)));
    AcceptedReady(k, d, e, bools, row);
    assert DriverOk(d) && PlainConsts(k) && Defined(k, d, row, e);
    assert PairOk(d, 0, 0);
    var f := Start(row);
    if y.KName? {
      ColumnOperand(k, d, y.name, R(d.ofInt(0)));
    } else {
      LitOperand(k, d, row, y.lexeme);
    }
    assert !NegFits(k.kind, d, Eval(k, d, f, y).value) && NegDecided(k.kind, d, Eval(k, d, f, y).value) by { hide DriverOk, IntLit; }
    assert Settled(k, d, f, y);
    hide Eval, NegFits, NegDecided;
    assert Settled(k, d, f, e) && !Fits(k, d, f, e);
    hide DriverOk, Accepted, Ready, Settled, Fits, Lock;
    ExprExact(k, d, [], f, Effect(row, map[]), e, bools);
  }

  // For every accepted expression whose suspicious operations are on columns and literals: CPU and shader are in step on
  // every row if and only if its text passes the test.
  lemma TextExact(k: Kernel, d: Driver, e: KExpr, bools: bool)
    requires Accepted(k, d, e, bools) && Tame(k, e) && exists x :: !Number(d, x)
    ensures SafeExpr(k, NOTHING, e) <==> forall row :: RowTyped(k, row) ==> InStep(k, d, e, bools, row)
  {
    if SafeExpr(k, NOTHING, e) {
      forall row | RowTyped(k, row)
        ensures InStep(k, d, e, bools, row)
      {
        AcceptedReady(k, d, e, bools, row);
        assert Knows(k, d, NOTHING, Start(row)) && DriverOk(d) && Defined(k, d, row, e);
        hide DriverOk, Accepted, Ready, SafeExpr, Knows, Lock;
        SafeExprFits(k, d, NOTHING, Start(row), e);
        ExprExact(k, d, [], Start(row), Effect(row, map[]), e, bools);
      }
    } else {
      var x :| !Number(d, x);
      hide Accepted, Number, Tame, SafeExpr, Lock;
      var row := TameDiffers(k, d, e, bools, x);
    }
  }

  // ---- and for a body of one assignment ----

  // An accepted assignment, plain or compound, that runs on every row; the compiler fuses it.
  ghost predicate Assignment(k: Kernel, d: Driver, s: KStmt) {
    && s.KAssign? && k.fused && DriverOk(d) && PlainConsts(k) && PlainStmt(k, s)
    && LowerStmts(k, [], [s]).Some? && GCheckAll(k.kind, {}, {}, LowerStmts(k, [], [s]).value.code).Some?
    && forall row :: RowTyped(k, row) ==> ExecAll(k, d, Start(row), [s]).Some?
  }

  lemma OneStatement(k: Kernel, d: Driver, s: KStmt, f: Frame)
    ensures ExecAll(k, d, f, [s]) == Exec(k, d, f, s)
    ensures LowerStmts(k, [], [s]).Some? ==> LowerStmt(k, [], s) == LowerStmts(k, [], [s])
  {
    assert [s][1..] == [];
    if Exec(k, d, f, s).Some? {
      assert ExecAll(k, d, Exec(k, d, f, s).value, []) == Exec(k, d, f, s);
    }
    if LowerStmts(k, [], [s]).Some? {
      var l := LowerStmt(k, [], s).value;
      assert LowerStmts(k, l.names, []) == Some(Lowered([], l.names));
      assert l.code + [] == l.code;
    }
  }

  lemma AssignmentAccepted(k: Kernel, d: Driver, s: KStmt)
    requires Assignment(k, d, s)
    ensures Accepted(k, d, s.value, false)
  {
    forall row | RowTyped(k, row)
      ensures Defined(k, d, row, s.value)
    {
      OneStatement(k, d, s, Start(row));
    }
    OneStatement(k, d, s, Start(map[]));
    hide DriverOk, PlainConsts, PlainExpr, Eval, LowerExpr, RowTyped, OpAllowed;
    var code := LowerStmt(k, [], s).value.code;
    OneG(k.kind, d, Effect(map[], map[]), {}, {}, code[0]);
    var none: set<string> := {};
    assert none + none == none;
    assert GType(k.kind, none, LowerExpr(k, [], s.value, false).value).Some?;
  }

  // CPU and shader in step through the assignment, and the rows they leave the same.
  predicate BodyInStep(k: Kernel, d: Driver, s: KStmt, row: Row) { LockAll(k, d, [], Start(row), Effect(row, map[]), [s]) }

  // For every such body whose suspicious operations are on columns and literals: CPU and shader are in step on every row
  // and leave the same rows if and only if the body's text passes the test.
  lemma AssignmentExact(k: Kernel, d: Driver, s: KStmt)
    requires Assignment(k, d, s) && Tame(k, s.value) && exists x :: !Number(d, x)
    ensures Safe(k, [s]) <==> forall row :: RowTyped(k, row) ==> BodyInStep(k, d, s, row)
  {
    AssignmentAccepted(k, d, s);
    SafeOne(k, s);
    if Safe(k, [s]) {
      forall row | RowTyped(k, row)
        ensures BodyInStep(k, d, s, row)
      {
        AssignmentRuns(k, d, s, row);
      }
    } else {
      hide Assignment, Accepted, Tame, Number, SafeExpr;
      TextExact(k, d, s.value, false);
      var row :| RowTyped(k, row) && !InStep(k, d, s.value, false, row);
      if BodyInStep(k, d, s, row) {
        StepOfBody(k, d, s, row) by { AssignmentIs(k, d, s); }
      }
    }
  }

  lemma AssignmentIs(k: Kernel, d: Driver, s: KStmt)
    requires Assignment(k, d, s)
    ensures s.KAssign? && k.fused
  {
  }

  lemma SafeOne(k: Kernel, s: KStmt)
    requires s.KAssign? && k.fused
    ensures Safe(k, [s]) <==> SafeExpr(k, NOTHING, s.value)
  {
    hide SafeExpr;
    assert [s][1..] == [];
    assert SafeAll(k, NOTHING, []);
    assert SafeAll(k, NOTHING, [s]) <==> SafeStmt(k, NOTHING, s);
  }

  lemma StepOfBody(k: Kernel, d: Driver, s: KStmt, row: Row)
    requires s.KAssign? && BodyInStep(k, d, s, row)
    ensures InStep(k, d, s.value, false, row)
  {
    hide Lock;
    assert LockStmt(k, d, [], Start(row), Effect(row, map[]), [s][0]);
  }

  lemma AssignmentRuns(k: Kernel, d: Driver, s: KStmt, row: Row)
    requires Assignment(k, d, s) && Safe(k, [s]) && RowTyped(k, row)
    ensures BodyInStep(k, d, s, row)
  {
    OneStatement(k, d, s, Start(row));
    SafeFits(k, d, [s], row);
    hide DriverOk, PlainConsts, PlainStmt, Safe, FitsAll, SettledAll, LockAll, GCheckAll, ExecAll, LowerStmts;
    var vars: Scope := map[];
    assert vars.Keys == {} + {};
    assert AfterAll(k, [], [s]) == After(k, [], s) == [];
    RunExact(k, d, [], Start(row), Effect(row, map[]), [s], {}, {});
  }

  // ---- compound assignments ----

  lemma UpdateLowers(k: Kernel, c: string, op: H.Op, lx: string)
    requires LowerStmts(k, [], [KAssign(Some(c), Some(op), KLit(lx))]).Some?
    ensures var s := KAssign(Some(c), Some(op), KLit(lx));
            && LowerStmt(k, [], s).Some? && LowerStmts(k, [], [s]) == LowerStmt(k, [], s) && After(k, [], s) == []
            && HasGlslOp(op) && c in k.cols && LowerExpr(k, [], KLit(lx), false).Some? && !Compares(op)
  {
    var s := KAssign(Some(c), Some(op), KLit(lx));
    assert [s][1..] == [];
    var l := LowerStmt(k, [], s).value;
    assert LowerStmts(k, l.names, []) == Some(Lowered([], l.names));
    assert l.code + [] == l.code;
  }

  // Columns that are unsigned, `c op= n`, in a map that is compiled statement by statement because a variable or a
  // conditional occurs in it.
  ghost predicate Update(k: Kernel, d: Driver, c: string, op: H.Op, lx: string) {
    var ss := [KAssign(Some(c), Some(op), KLit(lx))];
    && DriverOk(d) && PlainConsts(k) && PlainText(k.kind, lx) && k.kind == UintKind && !k.fused
    && LowerStmts(k, [], ss).Some? && GCheckAll(k.kind, {}, {}, LowerStmts(k, [], ss).value.code).Some?
    && IntLit(lx).Some? && LitV(k.kind, d, lx).Some? && LitV(k.kind, d, lx).value.n != 0
  }

  lemma UpdateRuns(k: Kernel, d: Driver, c: string, op: H.Op, lx: string, row: Row)
    requires Update(k, d, c, op, lx) && RowHolds(k.kind, row) && Exec(k, d, Start(row), KAssign(Some(c), Some(op), KLit(lx))).Some?
    ensures var s, f, g := KAssign(Some(c), Some(op), KLit(lx)), Start(row), Effect(row, map[]);
            && Runs(k, d, [], f, g, s, {}, {}) && Lock(k, d, [], f, g, KLit(lx), false) && Fits(k, d, f, KLit(lx))
            && Holds(k.kind, Eval(k, d, f, KLit(lx)).value)
  {
    var s, f, g := KAssign(Some(c), Some(op), KLit(lx)), Start(row), Effect(row, map[]);
    UpdateLowers(k, c, op, lx);
    hide DriverOk, PlainConsts, PlainText, LowerStmts, LowerStmt, GCheckAll, LowerExpr, RowHolds, LitV;
    var vars: Scope := map[];
    assert vars.Keys == {} + {};
    assert Runs(k, d, [], f, g, s, {}, {});
    AssignReady(k, d, [], f, g, s, {}, {});
    LitAgrees(k, d, [], f, g, lx, false);
  }

  // On one row, ending alike is fitting.
  lemma UpdateRow(k: Kernel, d: Driver, c: string, op: H.Op, lx: string, row: Row)
    requires Update(k, d, c, op, lx) && RowHolds(k.kind, row) && Exec(k, d, Start(row), KAssign(Some(c), Some(op), KLit(lx))).Some?
    ensures var ss := [KAssign(Some(c), Some(op), KLit(lx))];
            && c in row && row[c].N?
            && (RowLike(k, d, ss, LowerStmts(k, [], ss).value.code, row) <==> SignFits(op, row[c].n, LitV(k.kind, d, lx).value.n))
  {
    var s, f, g := KAssign(Some(c), Some(op), KLit(lx)), Start(row), Effect(row, map[]);
    UpdateLowers(k, c, op, lx);
    UpdateRuns(k, d, c, op, lx, row);
    assert k.kind == UintKind && !k.fused && c in row && InColumn(k.kind, row[c]) && LitV(k.kind, d, lx).value.N?;
    assert [s][1..] == [] && ExecAll(k, d, f, [s]) == Exec(k, d, f, s) by {
      assert ExecAll(k, d, Exec(k, d, f, s).value, []) == Exec(k, d, f, s);
    }
    hide Update, Runs, Lock, SignFits, Exec, GExecAll, LowerStmt, LowerStmts, LitV, Fits;
    StoreExact(k, d, [], f, g, s, {}, {});
  }

  lemma UpdateFitsAll(op: H.Op, m: int)
    requires 0 < m < U32_LIMIT && HasGlslOp(op) && !Compares(op) && (op == H.Div || op == H.Mod ==> m == 1)
    ensures forall a :: 0 <= a < U32_LIMIT ==> SignFits(op, a, m)
  {
  }

  // A dividend whose sign bit makes the difference.
  lemma UpdateUnfit(d: Driver, op: H.Op, m: int)
    requires (op == H.Div || op == H.Mod) && 1 < m < U32_LIMIT
    ensures var a := if m == U32_LIMIT - 1 then SIGN_BIT + 1 else U32_LIMIT - 1;
            !SignFits(op, a, m) && IntArith(UintKind, true, op, a, m).Some?
  {
    var a := if m == U32_LIMIT - 1 then SIGN_BIT + 1 else U32_LIMIT - 1;
    HighRead(a);
    HighRead(m);
    var x, y := ReadAs(true, a), ReadAs(true, m);
    AtMost(Abs(x), Abs(y));
  }

  // For every operator and literal: such an assignment leaves every row as the shader does if and only if it is no
  // division or remainder, or the literal is one.
  lemma UpdateTextExact(k: Kernel, d: Driver, c: string, op: H.Op, lx: string)
    requires Update(k, d, c, op, lx)
    ensures var ss := [KAssign(Some(c), Some(op), KLit(lx))];
            RowsLike(k, d, ss, LowerStmts(k, [], ss).value.code) <==> (op == H.Div || op == H.Mod ==> IntLit(lx) == Some(1))
  {
    var s := KAssign(Some(c), Some(op), KLit(lx));
    var m := LitV(k.kind, d, lx).value.n;
    UpdateLowers(k, c, op, lx);
    assert m == 1 <==> IntLit(lx) == Some(1);
    hide LitV, IntLit, LowerStmts, RowsLike;
    if op == H.Div || op == H.Mod ==> m == 1 {
      UpdateSafeRows(k, d, c, op, lx);
    } else {
      UpdateDiffers(k, d, c, op, lx);
    }
  }

  lemma UpdateDiffers(k: Kernel, d: Driver, c: string, op: H.Op, lx: string)
    requires Update(k, d, c, op, lx) && (op == H.Div || op == H.Mod) && LitV(k.kind, d, lx).value.n != 1
    ensures var ss := [KAssign(Some(c), Some(op), KLit(lx))]; !RowsLike(k, d, ss, LowerStmts(k, [], ss).value.code)
  {
    var s := KAssign(Some(c), Some(op), KLit(lx));
    var m := LitV(k.kind, d, lx).value.n;
    UpdateLowers(k, c, op, lx);
    UpdateUnfit(d, op, m);
    var row := Everywhere(k, N(if m == U32_LIMIT - 1 then SIGN_BIT + 1 else U32_LIMIT - 1));
    assert RowHolds(k.kind, row) && c in row;
    assert Exec(k, d, Start(row), s).Some? by { hide IntLit, LowerStmts, LowerStmt; }
    hide Update, IntArith, LitV;
    UpdateRow(k, d, c, op, lx, row);
    assert !RowLike(k, d, [s], LowerStmts(k, [], [s]).value.code, row);
  }

  lemma UpdateSafeRows(k: Kernel, d: Driver, c: string, op: H.Op, lx: string)
    requires Update(k, d, c, op, lx) && (op == H.Div || op == H.Mod ==> LitV(k.kind, d, lx).value.n == 1)
    ensures var ss := [KAssign(Some(c), Some(op), KLit(lx))]; RowsLike(k, d, ss, LowerStmts(k, [], ss).value.code)
  {
    var s := KAssign(Some(c), Some(op), KLit(lx));
    var code := LowerStmts(k, [], [s]).value.code;
    var m := LitV(k.kind, d, lx).value.n;
    UpdateLowers(k, c, op, lx);
    assert !Compares(op) && 0 < m < U32_LIMIT by { hide IntLit; }
    UpdateFitsAll(op, m);
    hide Update, SignFits, LowerStmts, LitV;
    forall row
      ensures RowLike(k, d, [s], code, row)
    {
      if RowHolds(k.kind, row) && ExecAll(k, d, Start(row), [s]).Some? {
        assert [s][1..] == [];
        UpdateRow(k, d, c, op, lx, row);
        assert InColumn(k.kind, row[c]) by { ColumnTyped(k.kind, row, c); }
      }
    }
  }

  lemma ColumnTyped(kind: Kind, row: Row, c: string)
    requires RowHolds(kind, row) && c in row
    ensures InColumn(kind, row[c])
  {
  }
}

// The lowered body against the compiled one, on a row: the shader's values are the CPU's, step for step, if and only if
// every operation performed fits.
module ShaderMeans {
  import opened Bytes
  import opened Values
  import opened IntLiterals
  import opened ShaderLang
  import opened ShaderFits
  import opened ShaderLower
  import H = Hir

  // ---- what a body must keep to ----

  function Magnitude(lx: string): string { if lx != [] && lx[0] == '-' then lx[1..] else lx }

  // No integer is written with a leading zero; in a float map integers have at most eighteen digits, and zero no sign.
  predicate PlainText(kind: Kind, lx: string) {
    if kind == FloatKind then
      !Fractional(lx) ==> |Magnitude(lx)| <= 18 && (Magnitude(lx) != lx ==> IntLit(Magnitude(lx)) != Some(0))
    else !LeadingZero(Magnitude(lx))
  }

  // The only unary operator is negation.
  predicate PlainExpr(kind: Kind, e: KExpr) {
    match e
    case KLit(lx) => PlainText(kind, lx)
    case KUnary(op, x) => op == Neg && PlainExpr(kind, x)
    case KBinary(_, l, r) => PlainExpr(kind, l) && PlainExpr(kind, r)
    case KCall(_, args) => forall i :: 0 <= i < |args| ==> PlainExpr(kind, args[i])
    case _ => true
  }

  // And no column has the name of a literal constant, which the CPU would read instead.
  predicate PlainConsts(k: Kernel) {
    && (forall i :: 0 <= i < |k.consts| && k.consts[i].1.Some? ==> PlainText(k.kind, k.consts[i].1.value))
    && (forall i :: 0 <= i < |k.cols| ==> ConstLexeme(k.consts, k.cols[i]).None?)
  }

  // No variable takes a constant's name or the row index's.
  predicate NamesOk(k: Kernel, names: seq<string>) {
    forall i :: 0 <= i < |names| ==> names[i] != INDEX && !IsConst(k, names[i])
  }

  predicate PlainStmt(k: Kernel, s: KStmt) {
    match s
    case KAssign(_, _, v) => PlainExpr(k.kind, v)
    case KBlock(ss) => forall i :: 0 <= i < |ss| ==> PlainStmt(k, ss[i])
    case KBind(ns, init) => NamesOk(k, ns) && (init.Some? ==> PlainExpr(k.kind, init.value))
    case KIf(c, t, e) =>
      && PlainExpr(k.kind, c) && (forall i :: 0 <= i < |t| ==> PlainStmt(k, t[i]))
      && (forall i :: 0 <= i < |e| ==> PlainStmt(k, e[i]))
    case KOtherStmt => true
  }

  // ---- literals ----

  lemma {:induction false} BadDigit(s: string, base: nat, v: nat, any: bool, i: nat)
    requires i < |s| && s[i] != '_' && !IsDigit(s[i], base)
    ensures Accumulate(s, base, v, any).None?
    decreases |s|
  {
    if i > 0 {
      if s[0] == '_' {
        BadDigit(s[1..], base, v, any, i - 1);
      } else if IsDigit(s[0], base) {
        BadDigit(s[1..], base, (v * base + DigitVal(s[0]).value) % U64, true, i - 1);
      }
    }
  }

  // A float's text is no integer in either language.
  lemma FloatIsNoInt(lx: string)
    requires FloatText(lx)
    ensures IntLit(lx).None?
  {
    var u := Magnitude(lx);
    assert SplitBase(u) == (10, u);
    var i :| 0 <= i < |lx| && (lx[i] == '.' || lx[i] == 'e' || lx[i] == 'E');
    var j: int := if u == lx then i else i - 1;
    assert u[j] == lx[i] && !IsDigit(u[j], 10);
    BadDigit(u, 10, 0, false, j);
  }

  // A short decimal text of the language.
  lemma ShortDecimal(lx: string)
    requires AllDigits(Magnitude(lx), 10) && 0 < |Magnitude(lx)| <= 18
    ensures var n: int := Positional(Magnitude(lx), 10);
            IntLit(lx) == Some(if Magnitude(lx) == lx then n else -n) && IntLit(Magnitude(lx)) == Some(n)
  {
    var u := Magnitude(lx);
    hide Positional, Horner, Accumulate, Strip;
    EighteenDigits(u);
    NoSeparators(u, 10);
    StripNothing(u);
    HornerIsPositional(u, 10, 0);
    AccumulateIsHorner(u, 10, 0, false);
    assert IsDigit(u[0], 10);
    assert |u| >= 2 ==> IsDigit(u[1], 10);
    assert SplitBase(u) == (10, u);
  }

  // An integer text with .0 behind it that GLSL accepts is decimal.
  lemma IntegerDigits(lx: string)
    requires !Fractional(lx) && FloatText(lx + ".0") && IntLit(lx).Some?
    ensures Magnitude(lx) != [] && AllDigits(Magnitude(lx), 10)
  {
    var u := Magnitude(lx);
    var t := lx + ".0";
    assert forall i :: 0 <= i < |lx| ==> t[i] == lx[i];
    assert u != [] && SplitBase(u) == (10, u);
    forall i | 0 <= i < |u|
      ensures IsDigit(u[i], 10)
    {
      var j := i + |lx| - |u|;
      assert u[i] == lx[j] == t[j];
      if !IsDigit(u[i], 10) {
        BadDigit(u, 10, 0, false, i);
      }
    }
  }

  lemma FloatLitMeans(d: Driver, lx: string)
    requires Texts(d) && PlainText(FloatKind, lx) && LitV(FloatKind, d, lx).Some? && !Fractional(lx) && FloatText(lx + ".0")
    ensures GLitV(FloatKind, d, lx + ".0") == Some(Shown(FloatKind, d, LitV(FloatKind, d, lx).value))
  {
    var u := Magnitude(lx);
    IntegerDigits(lx);
    hide IntLit, FloatText, GlslInt, Positional, AllDigits;
    PointNoInt(lx);
    ShortDecimal(lx);
    assert TextOk(d, u);
    if u != lx {
      assert lx + ".0" == "-" + u + ".0";
    }
  }

  lemma PointNoInt(lx: string)
    ensures GlslInt(lx + ".0").None?
  {
    var t := lx + ".0";
    assert t[|lx|] == '.';
    if GlslInt(t).Some? {
      IntChars(t);
    }
  }

  // A literal the language accepts and the shader's compiler accepts.
  lemma LitMeans(k: Kernel, d: Driver, lx: string, vars: set<string>)
    requires DriverOk(d) && PlainText(k.kind, lx) && LowerLit(k, lx).Some?
    requires LitV(k.kind, d, lx).Some? && GType(k.kind, vars, LowerLit(k, lx).value).Some?
    ensures var v := LitV(k.kind, d, lx).value;
            Holds(k.kind, v) && GLitV(k.kind, d, LowerLit(k, lx).value.text) == Some(Shown(k.kind, d, v))
  {
    if k.kind != FloatKind {
      SignedLiteralReads(lx);
      if k.kind == IntKind {
        WrapIdentity(IntLit(lx).value);
      }
    } else if !Fractional(lx) {
      PointNoInt(lx);
      FloatLitMeans(d, lx);
    } else if GlslInt(lx).Some? {
      IntChars(lx);
      LiteralExact(lx);
    } else {
      FloatIsNoInt(lx);
    }
  }

  // The characters of a GLSL integer: with an e among them it is hexadecimal.
  lemma IntChars(s: string)
    requires GlslInt(s).Some?
    ensures forall i :: 0 <= i < |s| ==> s[i] == '-' || s[i] == 'x' || s[i] == 'X' || IsDigit(s[i], 16)
    ensures LeadingZero(Magnitude(s)) ==> forall i :: 0 <= i < |s| ==> s[i] == '-' || IsDigit(s[i], 8)
  {
    var p := CBase(Magnitude(s));
    forall i | 0 <= i < |s|
      ensures s[i] == '-' || s[i] == 'x' || s[i] == 'X' || IsDigit(s[i], 16)
      ensures LeadingZero(Magnitude(s)) ==> s[i] == '-' || IsDigit(s[i], 8)
    {
      var m: int := i - (|s| - |p.1|);
      if m >= 0 {
        assert p.1[m] == s[i];
      }
    }
  }

  // ---- expressions ----

  predicate RowHolds(kind: Kind, row: Row) { forall c :: c in row ==> InColumn(kind, row[c]) }

  // Every variable of the CPU's is one of the shader's, of the value shown there.
  predicate VarsOk(kind: Kind, d: Driver, locals: Scope, vars: Scope) {
    forall x :: x in locals ==> x in vars && Holds(kind, locals[x]) && vars[x] == Shown(kind, d, locals[x])
  }

  ghost predicate Within(k: Kernel, d: Driver, names: seq<string>, f: Frame, g: Effect) {
    && RowHolds(k.kind, f.row) && g.row == f.row && VarsOk(k.kind, d, f.locals, g.locals)
    && (forall x :: x in g.locals ==> x in names) && NamesOk(k, names)
  }

  function SignOf(k: Kernel, f: Frame, first: KExpr): bool { Signed(k.kind, GenTy(k, f.types, first)) }

  // Every operation of the expression fits its operands' values on the CPU; of a select, in the branch it takes.
  predicate Fits(k: Kernel, d: Driver, f: Frame, e: KExpr) {
    match e
    case KUnary(op, x) =>
      Fits(k, d, f, x) && (match Eval(k, d, f, x) case None => true case Some(v) => op == Neg ==> NegFits(k.kind, d, v))
    case KBinary(op, l, r) =>
      && Fits(k, d, f, l) && Fits(k, d, f, r)
      && (match (Eval(k, d, f, l), Eval(k, d, f, r))
          case (Some(a), Some(b)) => OpFits(k.kind, d, SignOf(k, f, l), op, a, b)
          case _ => true)
    case KCall(fn, args) =>
      if fn == "select" && |args| == 3 then
        && Fits(k, d, f, args[0])
        && (if Eval(k, d, f, args[0]) == Some(N(0)) then Fits(k, d, f, args[2]) else Fits(k, d, f, args[1]))
      else forall i :: 0 <= i < |args| ==> Fits(k, d, f, args[i])
    case _ => true
  }

  // Where that is decided: the integers a float map computes with are exact floats, and no NaN is negated.
  predicate Settled(k: Kernel, d: Driver, f: Frame, e: KExpr) {
    match e
    case KUnary(op, x) =>
      Settled(k, d, f, x) && (match Eval(k, d, f, x) case None => true case Some(v) => op == Neg ==> NegDecided(k.kind, d, v))
    case KBinary(op, l, r) =>
      && Settled(k, d, f, l) && Settled(k, d, f, r)
      && (match (Eval(k, d, f, l), Eval(k, d, f, r)) case (Some(a), Some(b)) => Decided(k.kind, a, b) case _ => true)
    case KCall(fn, args) =>
      if fn == "select" && |args| == 3 then
        && Settled(k, d, f, args[0])
        && (if Eval(k, d, f, args[0]) == Some(N(0)) then Settled(k, d, f, args[2]) else Settled(k, d, f, args[1]))
      else forall i :: 0 <= i < |args| ==> Settled(k, d, f, args[i])
    case _ => true
  }

  // The shader's value of the emitted expression is the CPU's.
  predicate Agrees(k: Kernel, d: Driver, names: seq<string>, f: Frame, g: Effect, e: KExpr, bools: bool) {
    var x, v := LowerExpr(k, names, e, bools), Eval(k, d, f, e);
    && x.Some? && v.Some? && GType(k.kind, g.locals.Keys, x.value).Some?
    && Same(k.kind, d, GType(k.kind, g.locals.Keys, x.value).value, GEval(k.kind, d, g.row, g.locals, x.value), v.value)
  }

  // And so are the values of its parts; of a select, those of the branch taken.
  predicate Lock(k: Kernel, d: Driver, names: seq<string>, f: Frame, g: Effect, e: KExpr, bools: bool)
    decreases e
  {
    && Agrees(k, d, names, f, g, e, bools)
    && match e
       case KUnary(_, x) => Lock(k, d, names, f, g, x, false)
       case KBinary(_, l, r) => Lock(k, d, names, f, g, l, false) && Lock(k, d, names, f, g, r, false)
       case KCall(fn, args) =>
         if fn == "select" && |args| == 3 then
           && Lock(k, d, names, f, g, args[0], true)
           && (if Eval(k, d, f, args[0]) == Some(N(0)) then Lock(k, d, names, f, g, args[2], false)
               else Lock(k, d, names, f, g, args[1], false))
         else forall i :: 0 <= i < |args| ==> Lock(k, d, names, f, g, args[i], false)
       case _ => true
  }

  // The body's expression has a value and its lowering is accepted.
  ghost predicate Ready(k: Kernel, d: Driver, names: seq<string>, f: Frame, g: Effect, e: KExpr, bools: bool) {
    && DriverOk(d) && PlainConsts(k) && Within(k, d, names, f, g) && PlainExpr(k.kind, e)
    && LowerExpr(k, names, e, bools).Some? && Eval(k, d, f, e).Some?
    && GType(k.kind, g.locals.Keys, LowerExpr(k, names, e, bools).value).Some?
  }

  lemma NameMeans(k: Kernel, d: Driver, names: seq<string>, f: Frame, g: Effect, n: string, bools: bool)
    requires Ready(k, d, names, f, g, KName(n), bools)
    ensures Holds(k.kind, Eval(k, d, f, KName(n)).value) && Agrees(k, d, names, f, g, KName(n), bools)
  {
    hide DriverOk, PlainText, LitV, GLitV, GlslInt, FloatText, IntLit;
    ConstIs(k.consts, n);
    var c := ConstLexeme(k.consts, n);
    if c.Some? {
      assert n !in k.cols && n !in names;
      LitMeans(k, d, c.value, g.locals.Keys);
      LitIsLit(k, c.value);
    }
  }

  lemma LitAgrees(k: Kernel, d: Driver, names: seq<string>, f: Frame, g: Effect, lx: string, bools: bool)
    requires Ready(k, d, names, f, g, KLit(lx), bools)
    ensures Holds(k.kind, Eval(k, d, f, KLit(lx)).value) && Agrees(k, d, names, f, g, KLit(lx), bools)
  {
    hide DriverOk, PlainText, LitV, GLitV, GlslInt, FloatText, IntLit, Within;
    LitMeans(k, d, lx, g.locals.Keys);
    LitIsLit(k, lx);
  }

  lemma BinaryReady(k: Kernel, d: Driver, names: seq<string>, f: Frame, g: Effect, op: H.Op, l: KExpr, r: KExpr, bools: bool)
    requires Ready(k, d, names, f, g, KBinary(op, l, r), bools)
    ensures Ready(k, d, names, f, g, l, false) && Ready(k, d, names, f, g, r, false)
    ensures GType(k.kind, g.locals.Keys, LowerExpr(k, names, l, false).value) == Some(TyVal)
    ensures GType(k.kind, g.locals.Keys, LowerExpr(k, names, r, false).value) == Some(TyVal)
    ensures OpAllowed(k, op, r)
  {
    hide DriverOk, Within, PlainConsts, Operate, OpAllowed, PlainText;
    var x := LowerExpr(k, names, KBinary(op, l, r), bools).value;
    var b := GBin(op, LowerExpr(k, names, l, false).value, LowerExpr(k, names, r, false).value);
    assert x == b || x == GCast(b);
    assert GType(k.kind, g.locals.Keys, b).Some?;
  }

  lemma CallReady(k: Kernel, d: Driver, names: seq<string>, f: Frame, g: Effect, fn: string, args: seq<KExpr>, bools: bool)
    requires Ready(k, d, names, f, g, KCall(fn, args), bools)
    ensures fn == "select" && |args| == 3 ==>
              Ready(k, d, names, f, g, args[0], true) && Ready(k, d, names, f, g, args[1], false) && Ready(k, d, names, f, g, args[2], false)
    ensures !(fn == "select" && |args| == 3) ==> fn == "sqrt" && |args| == 1 && Ready(k, d, names, f, g, args[0], false)
  {
    hide DriverOk, Within, PlainConsts, PlainText;
  }

  // A truth value is 0 or 1, and in a float shader these differ.
  lemma TruthExact(kind: Kind, d: Driver, b: bool, t: bool)
    requires DriverOk(d)
    ensures Truth(kind, d, b) == Shown(kind, d, N(Bit(t))) <==> b == t
  {
    assert PairOk(d, 0, 1) && PairOk(d, 0, 0);
  }

  lemma CompareBit(k: Kernel, d: Driver, f: Frame, op: H.Op, l: KExpr, r: KExpr)
    requires Compares(op) && Eval(k, d, f, KBinary(op, l, r)).Some?
    ensures exists t :: Eval(k, d, f, KBinary(op, l, r)).value == N(Bit(t))
  {
    var a, b := Eval(k, d, f, l).value, Eval(k, d, f, r).value;
    var s := SignOf(k, f, l);
    var t := if a.R? || b.R? then FloatCompare(d, op, Promoted(d, a), Promoted(d, b)) else IntCompare(op, ReadAs(s, a.n), ReadAs(s, b.n));
    assert Operate(k.kind, d, s, op, a, b) == Some(N(Bit(t.value)));
  }

  lemma BinaryShape(k: Kernel, d: Driver, names: seq<string>, f: Frame, g: Effect, op: H.Op, l: KExpr, r: KExpr, bools: bool)
    requires Ready(k, d, names, f, g, KBinary(op, l, r), bools)
    ensures LowerExpr(k, names, l, false).Some? && LowerExpr(k, names, r, false).Some?
    ensures var b := GBin(op, LowerExpr(k, names, l, false).value, LowerExpr(k, names, r, false).value);
            && LowerExpr(k, names, KBinary(op, l, r), bools) == Some(if Compares(op) && !bools then GCast(b) else b)
            && GType(k.kind, g.locals.Keys, b) == Some(OpGTy(op))
            && (Compares(op) ==> GType(k.kind, g.locals.Keys, GCast(b)) == Some(TyVal))
  {
    hide DriverOk, Within, PlainConsts, Operate, OpAllowed, PlainText, PlainExpr, Eval;
    var x := LowerExpr(k, names, KBinary(op, l, r), bools).value;
    var b := GBin(op, LowerExpr(k, names, l, false).value, LowerExpr(k, names, r, false).value);
    assert x == b || x == GCast(b);
  }

  lemma BinaryValue(k: Kernel, d: Driver, g: Effect, op: H.Op, a: GExpr, b: GExpr, u: V, v: V)
    requires GEval(k.kind, d, g.row, g.locals, a) == Some(GV(u)) && GEval(k.kind, d, g.row, g.locals, b) == Some(GV(v))
    ensures var o := ShaderOp(k.kind, d, op, u, v);
            && GEval(k.kind, d, g.row, g.locals, GBin(op, a, b)) == o
            && GEval(k.kind, d, g.row, g.locals, GCast(GBin(op, a, b))) ==
               (if o.Some? && o.value.GB? then Some(GV(Truth(k.kind, d, o.value.b))) else None)
  {
    hide ShaderOp;
    assert GEval(k.kind, d, g.row, g.locals, GBin(op, a, b)) == ShaderOp(k.kind, d, op, u, v);
  }

  // Where the operands agree, the results do if and only if the shader's operation does the CPU's.
  lemma BinaryAgrees(k: Kernel, d: Driver, names: seq<string>, f: Frame, g: Effect, op: H.Op, l: KExpr, r: KExpr, bools: bool)
    requires Ready(k, d, names, f, g, KBinary(op, l, r), bools)
    requires Agrees(k, d, names, f, g, l, false) && Agrees(k, d, names, f, g, r, false)
    ensures var a, b := Shown(k.kind, d, Eval(k, d, f, l).value), Shown(k.kind, d, Eval(k, d, f, r).value);
            Agrees(k, d, names, f, g, KBinary(op, l, r), bools) <==>
              Same(k.kind, d, OpGTy(op), ShaderOp(k.kind, d, op, a, b), Eval(k, d, f, KBinary(op, l, r)).value)
  {
    BinaryReady(k, d, names, f, g, op, l, r, bools);
    BinaryShape(k, d, names, f, g, op, l, r, bools);
    var e := KBinary(op, l, r);
    assert DriverOk(d) && Eval(k, d, f, e).Some?;
    var gl, gr := LowerExpr(k, names, l, false).value, LowerExpr(k, names, r, false).value;
    var u, v := Shown(k.kind, d, Eval(k, d, f, l).value), Shown(k.kind, d, Eval(k, d, f, r).value);
    hide DriverOk, Ready, Truth, Shown, Eval, LowerExpr, GType, GEval, Compare, Arith;
    BinaryValue(k, d, g, op, gl, gr, u, v);
    var o := ShaderOp(k.kind, d, op, u, v);
    if Compares(op) {
      CompareBit(k, d, f, op, l, r);
      var t :| Eval(k, d, f, e).value == N(Bit(t));
      if o.Some? {
        TruthExact(k.kind, d, o.value.b, t);
      }
    }
  }

  // For every accepted expression and on every row: the shader's values are the CPU's, part for part, if and only if
  // every operation fits.
  lemma {:induction false} ExprExact(k: Kernel, d: Driver, names: seq<string>, f: Frame, g: Effect, e: KExpr, bools: bool)
    requires Ready(k, d, names, f, g, e, bools) && Settled(k, d, f, e)
    ensures Holds(k.kind, Eval(k, d, f, e).value)
    ensures Fits(k, d, f, e) <==> Lock(k, d, names, f, g, e, bools)
    decreases e
  {
    if e.KCall? {
      CallReady(k, d, names, f, g, e.fn, e.args, bools);
    }
    assert !e.KOther?;
    hide DriverOk, Ready, Holds, Settled, Eval, Agrees, OpFits, NegFits, SignOf;
    match e
    case KName(n) =>
      NameMeans(k, d, names, f, g, n, bools);
    case KLit(lx) =>
      LitAgrees(k, d, names, f, g, lx, bools);
    case KUnary(_, _) => UnaryMeans(k, d, names, f, g, e, bools);
    case KBinary(_, _, _) => BinaryExact(k, d, names, f, g, e, bools);
    case KCall(fn, args) =>
      if fn == "select" && |args| == 3 {
        SelectExact(k, d, names, f, g, args, bools);
      } else {
        RootExact(k, d, names, f, g, args, bools);
      }
    case KOther =>
  }

  lemma {:induction false} UnaryMeans(k: Kernel, d: Driver, names: seq<string>, f: Frame, g: Effect, e: KExpr, bools: bool)
    requires e.KUnary? && Ready(k, d, names, f, g, e, bools) && Settled(k, d, f, e)
    ensures Holds(k.kind, Eval(k, d, f, e).value)
    ensures Fits(k, d, f, e) <==> Lock(k, d, names, f, g, e, bools)
    decreases e, 0
  {
    hide DriverOk, Within, PlainConsts, PlainText, Holds, NegFits, NegDecided, Shown, Negated;
    ExprExact(k, d, names, f, g, e.operand, false);
    NegExact(k.kind, d, Eval(k, d, f, e.operand).value);
  }

  lemma {:induction false} BinaryExact(k: Kernel, d: Driver, names: seq<string>, f: Frame, g: Effect, e: KExpr, bools: bool)
    requires e.KBinary? && Ready(k, d, names, f, g, e, bools) && Settled(k, d, f, e)
    ensures Holds(k.kind, Eval(k, d, f, e).value)
    ensures Fits(k, d, f, e) <==> Lock(k, d, names, f, g, e, bools)
    decreases e, 0
  {
    var op, l, r := e.op, e.left, e.right;
    BinaryReady(k, d, names, f, g, op, l, r, bools);
    assert DriverOk(d) && Eval(k, d, f, e).Some?;
    hide DriverOk, Ready, Holds, ShaderOp, Operate, OpFits, Decided, SignOf, Agrees, Same;
    ExprExact(k, d, names, f, g, l, false);
    ExprExact(k, d, names, f, g, r, false);
    OperateExact(k.kind, d, SignOf(k, f, l), op, Eval(k, d, f, l).value, Eval(k, d, f, r).value);
    if Lock(k, d, names, f, g, l, false) && Lock(k, d, names, f, g, r, false) {
      BinaryAgrees(k, d, names, f, g, op, l, r, bools);
    }
  }

  lemma {:induction false} SelectExact(k: Kernel, d: Driver, names: seq<string>, f: Frame, g: Effect, args: seq<KExpr>, bools: bool)
    requires |args| == 3 && Ready(k, d, names, f, g, KCall("select", args), bools) && Settled(k, d, f, KCall("select", args))
    ensures var e := KCall("select", args);
            && Holds(k.kind, Eval(k, d, f, e).value)
            && (Fits(k, d, f, e) <==> Lock(k, d, names, f, g, e, bools))
    decreases args
  {
    hide DriverOk, Within, PlainText, PlainConsts, LitV, GLitV, Holds;
    ExprExact(k, d, names, f, g, args[0], true);
    if Eval(k, d, f, args[0]) == Some(N(0)) {
      ExprExact(k, d, names, f, g, args[2], false);
    } else {
      ExprExact(k, d, names, f, g, args[1], false);
    }
  }

  lemma RootAgrees(k: Kernel, d: Driver, names: seq<string>, f: Frame, g: Effect, x: KExpr, bools: bool)
    requires Ready(k, d, names, f, g, KCall("sqrt", [x]), bools) && Agrees(k, d, names, f, g, x, false)
    ensures Agrees(k, d, names, f, g, KCall("sqrt", [x]), bools)
  {
    hide DriverOk, Within, PlainExpr, PlainConsts;
    var u := LowerExpr(k, names, x, false).value;
    assert LowerExpr(k, names, KCall("sqrt", [x]), bools) == Some(GSqrt(u));
    assert GEval(k.kind, d, g.row, g.locals, u) == Some(GV(Eval(k, d, f, x).value));
  }

  lemma {:induction false} RootExact(k: Kernel, d: Driver, names: seq<string>, f: Frame, g: Effect, args: seq<KExpr>, bools: bool)
    requires |args| == 1 && Ready(k, d, names, f, g, KCall("sqrt", args), bools) && Settled(k, d, f, KCall("sqrt", args))
    ensures var e := KCall("sqrt", args);
            && Holds(k.kind, Eval(k, d, f, e).value)
            && (Fits(k, d, f, e) <==> Lock(k, d, names, f, g, e, bools))
    decreases args
  {
    CallReady(k, d, names, f, g, "sqrt", args, bools);
    assert args == [args[0]];
    ExprExact(k, d, names, f, g, args[0], false);
    assert k.kind == FloatKind && Eval(k, d, f, KCall("sqrt", args)).value.R? by { hide DriverOk, Within, PlainExpr, PlainConsts; }
    hide DriverOk, Ready, Agrees, Eval;
    if Lock(k, d, names, f, g, args[0], false) {
      RootAgrees(k, d, names, f, g, args[0], bools);
    }
  }

  // ---- statements ----

  // Every operation performed by the statement fits.
  predicate FitsStmt(k: Kernel, d: Driver, f: Frame, s: KStmt)
    decreases s, 0
  {
    match s
    case KAssign(t, op, e) =>
      && Fits(k, d, f, e)
      && (match (t, op, Eval(k, d, f, e))
          case (Some(c), Some(o), Some(v)) => c in f.row ==> UpdateFits(k, o, f.row[c], v)
          case _ => true)
    case KBlock(ss) => FitsAll(k, d, f, ss)
    case KBind(_, init) => init.Some? ==> Fits(k, d, f, init.value)
    case KIf(c, t, e) =>
      Fits(k, d, f, c) && (if Eval(k, d, f, c) == Some(N(0)) then FitsAll(k, d, f, e) else FitsAll(k, d, f, t))
    case KOtherStmt => true
  }

  predicate FitsAll(k: Kernel, d: Driver, f: Frame, ss: seq<KStmt>)
    decreases ss, 0
  {
    ss == []
    || (FitsStmt(k, d, f, ss[0]) && match Exec(k, d, f, ss[0]) case None => true case Some(h) => FitsAll(k, d, h, ss[1..]))
  }

  predicate SettledStmt(k: Kernel, d: Driver, f: Frame, s: KStmt)
    decreases s, 0
  {
    match s
    case KAssign(_, _, e) => Settled(k, d, f, e)
    case KBlock(ss) => SettledAll(k, d, f, ss)
    case KBind(_, init) => init.Some? ==> Settled(k, d, f, init.value)
    case KIf(c, t, e) =>
      && Settled(k, d, f, c)
      && (if Eval(k, d, f, c) == Some(N(0)) then SettledAll(k, d, f, e) else SettledAll(k, d, f, t))
    case KOtherStmt => true
  }

  predicate SettledAll(k: Kernel, d: Driver, f: Frame, ss: seq<KStmt>)
    decreases ss, 0
  {
    ss == []
    || (SettledStmt(k, d, f, ss[0]) && match Exec(k, d, f, ss[0]) case None => true case Some(h) => SettledAll(k, d, h, ss[1..]))
  }

  // The shader's code for these statements.
  function Code(k: Kernel, names: seq<string>, s: KStmt): seq<GStmt> {
    match LowerStmt(k, names, s) case None => [] case Some(l) => l.code
  }

  function After(k: Kernel, names: seq<string>, s: KStmt): seq<string> {
    match LowerStmt(k, names, s) case None => names case Some(l) => l.names
  }

  // CPU and shader go through the statement in step: every value either computes, and every row they leave, is the same.
  predicate LockStmt(k: Kernel, d: Driver, names: seq<string>, f: Frame, g: Effect, s: KStmt)
    decreases s, 0
  {
    match s
    case KAssign(_, _, e) =>
      && Lock(k, d, names, f, g, e, false)
      && (match (Exec(k, d, f, s), GExecAll(k.kind, d, g, Code(k, names, s)))
          case (Some(h), Some(r)) => r.row == h.row
          case _ => false)
    case KBlock(ss) => LockAll(k, d, names, f, g, ss)
    case KBind(_, init) => init.Some? ==> Lock(k, d, names, f, g, init.value, false)
    case KIf(c, t, e) =>
      && Lock(k, d, names, f, g, c, true)
      && (if Eval(k, d, f, c) == Some(N(0)) then LockAll(k, d, AfterAll(k, names, t), f, g, e) else LockAll(k, d, names, f, g, t))
    case KOtherStmt => true
  }

  function AfterAll(k: Kernel, names: seq<string>, ss: seq<KStmt>): seq<string> {
    match LowerStmts(k, names, ss) case None => names case Some(l) => l.names
  }

  predicate LockAll(k: Kernel, d: Driver, names: seq<string>, f: Frame, g: Effect, ss: seq<KStmt>)
    decreases ss, 0
  {
    ss == []
    || (LockStmt(k, d, names, f, g, ss[0])
        && match (Exec(k, d, f, ss[0]), GExecAll(k.kind, d, g, Code(k, names, ss[0])))
           case (Some(h), Some(r)) => LockAll(k, d, After(k, names, ss[0]), h, r, ss[1..])
           case _ => false)
  }

  // The shader's state after statements that the body has run.
  ghost predicate Follows(k: Kernel, d: Driver, names: seq<string>, f: Frame, g: Effect, vars: set<string>) {
    g.locals.Keys == vars && Within(k, d, names, f, g)
  }

  // Each variable is bound once.
  predicate BoundOnce(names: seq<string>) { forall i, j :: 0 <= i < j < |names| ==> names[i] != names[j] }

  lemma {:induction false} RunSplit(kind: Kind, d: Driver, f: Effect, a: seq<GStmt>, b: seq<GStmt>)
    ensures GExecAll(kind, d, f, a + b) ==
            (match GExecAll(kind, d, f, a) case None => None case Some(g) => GExecAll(kind, d, g, b))
    decreases |a|
  {
    hide GExec;
    if a == [] {
      assert a + b == b;
    } else {
      assert (a + b)[0] == a[0] && (a + b)[1..] == a[1..] + b;
      if GExec(kind, d, f, a[0]).Some? {
        RunSplit(kind, d, GExec(kind, d, f, a[0]).value, a[1..], b);
      }
    }
  }

  lemma {:induction false} NamesGrow(k: Kernel, names: seq<string>, s: KStmt)
    requires NamesOk(k, names) && PlainStmt(k, s) && LowerStmt(k, names, s).Some?
    ensures names <= LowerStmt(k, names, s).value.names && NamesOk(k, LowerStmt(k, names, s).value.names)
    decreases s, 0
  {
    match s
    case KBlock(ss) => NamesGrowAll(k, names, ss);
    case KIf(c, t, e) =>
      NamesGrowAll(k, names, t);
      NamesGrowAll(k, LowerStmts(k, names, t).value.names, e);
    case _ =>
  }

  lemma {:induction false} NamesGrowAll(k: Kernel, names: seq<string>, ss: seq<KStmt>)
    requires NamesOk(k, names) && (forall i :: 0 <= i < |ss| ==> PlainStmt(k, ss[i])) && LowerStmts(k, names, ss).Some?
    ensures names <= LowerStmts(k, names, ss).value.names && NamesOk(k, LowerStmts(k, names, ss).value.names)
    decreases ss, 0
  {
    if ss != [] {
      NamesGrow(k, names, ss[0]);
      NamesGrowAll(k, LowerStmt(k, names, ss[0]).value.names, ss[1..]);
    }
  }

  // A variable that the statements do not bind keeps its value.
  lemma {:induction false} OthersKept(k: Kernel, d: Driver, names: seq<string>, g: Effect, s: KStmt, x: string)
    requires LowerStmt(k, names, s).Some? && GExecAll(k.kind, d, g, LowerStmt(k, names, s).value.code).Some?
    ensures var l := LowerStmt(k, names, s).value;
            var r := GExecAll(k.kind, d, g, l.code).value;
            && names <= l.names
            && (x !in l.names[|names|..] && x in g.locals ==> x in r.locals && r.locals[x] == g.locals[x])
    decreases s, 0
  {
    var l := LowerStmt(k, names, s).value;
    match s
    case KBlock(ss) => OthersKeptAll(k, d, names, g, ss, x);
    case KIf(c, t, e) =>
      NamesLonger(k, names, t);
      NamesLonger(k, LowerStmts(k, names, t).value.names, e);
      OneG(k.kind, d, g, {}, {}, l.code[0]);
    case _ =>
      OneG(k.kind, d, g, {}, {}, l.code[0]);
  }

  lemma {:induction false} OthersKeptAll(k: Kernel, d: Driver, names: seq<string>, g: Effect, ss: seq<KStmt>, x: string)
    requires LowerStmts(k, names, ss).Some? && GExecAll(k.kind, d, g, LowerStmts(k, names, ss).value.code).Some?
    ensures var l := LowerStmts(k, names, ss).value;
            var r := GExecAll(k.kind, d, g, l.code).value;
            && names <= l.names
            && (x !in l.names[|names|..] && x in g.locals ==> x in r.locals && r.locals[x] == g.locals[x])
    decreases ss, 0
  {
    hide LowerStmt;
    if ss != [] {
      var a := LowerStmt(k, names, ss[0]).value;
      var b := LowerStmts(k, a.names, ss[1..]).value;
      RunSplit(k.kind, d, g, a.code, b.code);
      OthersKept(k, d, names, g, ss[0], x);
      OthersKeptAll(k, d, a.names, GExecAll(k.kind, d, g, a.code).value, ss[1..], x);
      if x !in b.names[|names|..] {
        Suffixes(names, a.names, b.names, x);
      }
    }
  }

  lemma Suffixes(a: seq<string>, b: seq<string>, c: seq<string>, x: string)
    requires a <= b <= c && x !in c[|a|..]
    ensures x !in b[|a|..] && x !in c[|b|..]
  {
    forall i | 0 <= i < |b[|a|..]|
      ensures b[|a|..][i] != x
    {
      assert b[|a|..][i] == c[|a|..][i];
    }
    forall i | 0 <= i < |c[|b|..]|
      ensures c[|b|..][i] != x
    {
      assert c[|b|..][i] == c[|a|..][i + |b| - |a|];
    }
  }

  lemma OneG(kind: Kind, d: Driver, g: Effect, outer: set<string>, here: set<string>, s: GStmt)
    ensures GExecAll(kind, d, g, [s]) == GExec(kind, d, g, s) && GCheckAll(kind, outer, here, [s]) == GCheck(kind, outer, here, s)
  {
    assert [s][1..] == [];
    match GExec(kind, d, g, s)
    case Some(h) => assert GExecAll(kind, d, h, []) == Some(h);
    case None =>
  }


  // The body's statement runs, what it is lowered to is accepted, and every operation is decided.
  ghost predicate Runs(k: Kernel, d: Driver, names: seq<string>, f: Frame, g: Effect, s: KStmt, outer: set<string>, here: set<string>) {
    && DriverOk(d) && PlainConsts(k) && PlainStmt(k, s) && Follows(k, d, names, f, g, outer + here)
    && LowerStmt(k, names, s).Some? && BoundOnce(After(k, names, s))
    && Exec(k, d, f, s).Some? && SettledStmt(k, d, f, s)
    && GCheckAll(k.kind, outer, here, Code(k, names, s)).Some?
  }

  ghost predicate RunsAll(k: Kernel, d: Driver, names: seq<string>, f: Frame, g: Effect, ss: seq<KStmt>, outer: set<string>, here: set<string>) {
    && DriverOk(d) && PlainConsts(k) && (forall i :: 0 <= i < |ss| ==> PlainStmt(k, ss[i]))
    && Follows(k, d, names, f, g, outer + here)
    && LowerStmts(k, names, ss).Some? && BoundOnce(AfterAll(k, names, ss))
    && ExecAll(k, d, f, ss).Some? && SettledAll(k, d, f, ss)
    && GCheckAll(k.kind, outer, here, LowerStmts(k, names, ss).value.code).Some?
  }

  // The code runs and ends where the statement does.
  ghost predicate Ends(k: Kernel, d: Driver, names: seq<string>, f: Frame, g: Effect, s: KStmt, outer: set<string>, here: set<string>) {
    var r, h := GExecAll(k.kind, d, g, Code(k, names, s)), GCheckAll(k.kind, outer, here, Code(k, names, s));
    r.Some? && h.Some? && Exec(k, d, f, s).Some? && Follows(k, d, After(k, names, s), Exec(k, d, f, s).value, r.value, outer + h.value)
  }

  ghost predicate EndsAll(k: Kernel, d: Driver, names: seq<string>, f: Frame, g: Effect, ss: seq<KStmt>, outer: set<string>, here: set<string>) {
    var l := LowerStmts(k, names, ss);
    && l.Some? && ExecAll(k, d, f, ss).Some?
    && var r, h := GExecAll(k.kind, d, g, l.value.code), GCheckAll(k.kind, outer, here, l.value.code);
       r.Some? && h.Some? && Follows(k, d, l.value.names, ExecAll(k, d, f, ss).value, r.value, outer + h.value)
  }

  // Leaving a block drops the variables bound in it and keeps the row.
  lemma BlockLeaves(k: Kernel, d: Driver, names: seq<string>, f: Frame, g: Effect, ss: seq<KStmt>, outer: set<string>, here: set<string>)
    requires Follows(k, d, names, f, g, outer + here) && EndsAll(k, d, names, f, g, ss, outer, here)
    requires BoundOnce(LowerStmts(k, names, ss).value.names)
    ensures var l := LowerStmts(k, names, ss).value;
            Follows(k, d, l.names, f.(row := ExecAll(k, d, f, ss).value.row), GExecAll(k.kind, d, g, l.code).value,
                    outer + GCheckAll(k.kind, outer, here, l.code).value)
  {
    hide Exec, GExec, GCheckAll, LowerStmts, ExecAll, GExecAll;
    var l := LowerStmts(k, names, ss).value;
    var r := GExecAll(k.kind, d, g, l.code).value;
    forall x | x in f.locals
      ensures x in r.locals && r.locals[x] == Shown(k.kind, d, f.locals[x])
    {
      NamesLonger(k, names, ss);
      var i :| 0 <= i < |names| && names[i] == x;
      assert l.names[i] == x;
      assert forall j :: 0 <= j < |l.names[|names|..]| ==> l.names[|names|..][j] == l.names[|names| + j] != x;
      OthersKeptAll(k, d, names, g, ss, x);
    }
  }

  lemma AssignReady(k: Kernel, d: Driver, names: seq<string>, f: Frame, g: Effect, s: KStmt, outer: set<string>, here: set<string>)
    requires s.KAssign? && Runs(k, d, names, f, g, s, outer, here)
    ensures s.target.Some? && s.target.value in f.row && INDEX !in g.locals && After(k, names, s) == names
    ensures Ready(k, d, names, f, g, s.value, false)
    ensures var c, x := s.target.value, LowerExpr(k, names, s.value, false).value;
            && GType(k.kind, g.locals.Keys, x) == Some(TyVal) && Code(k, names, s) == [GAssign(c, s.aop, x)]
            && GCheckAll(k.kind, outer, here, Code(k, names, s)) == Some(here)
            && GExecAll(k.kind, d, g, Code(k, names, s)) == GExec(k.kind, d, g, GAssign(c, s.aop, x))
    ensures var w := Assigned(k, d, s.aop, f.row[s.target.value], Eval(k, d, f, s.value).value);
            w.Some? && Exec(k, d, f, s) == Some(f.(row := f.row[s.target.value := w.value]))
    ensures s.aop.Some? ==> OpAllowed(k, s.aop.value, s.value) && !Compares(s.aop.value)
  {
    hide DriverOk, PlainConsts, PlainExpr, Eval, LowerExpr, GExec, OpAllowed, Assigned;
    OneG(k.kind, d, g, outer, here, Code(k, names, s)[0]);
  }

  lemma StoreRuns(k: Kernel, d: Driver, g: Effect, c: string, op: Option<H.Op>, x: GExpr, u: V)
    requires GEval(k.kind, d, g.row, g.locals, x) == Some(GV(u)) && c in g.row && INDEX !in g.locals
    requires op.Some? ==> !Compares(op.value)
    ensures var w := if op.Some? then Arith(k.kind, d, op.value, g.row[c], u) else Some(u);
            GExec(k.kind, d, g, GAssign(c, op, x)) == (match w case None => None case Some(v) => Some(g.(row := g.row[c := v])))
  {
    hide Arith;
    assert GEval(k.kind, d, g.row, g.locals, GCol(c)) == Some(GV(g.row[c]));
    if op.Some? {
      assert GEval(k.kind, d, g.row, g.locals, GBin(op.value, GCol(c), x)) == ShaderOp(k.kind, d, op.value, g.row[c], u);
    }
  }

  lemma PlainStore(k: Kernel, d: Driver, cur: V, v: V)
    requires Holds(k.kind, v) && Assigned(k, d, None, cur, v).Some?
    ensures InColumn(k.kind, v) && Assigned(k, d, None, cur, v) == Some(v) && Shown(k.kind, d, v) == v
  {
  }

  // The stored value, where the right-hand sides agree.
  lemma StoreExact(k: Kernel, d: Driver, names: seq<string>, f: Frame, g: Effect, s: KStmt, outer: set<string>, here: set<string>)
    requires s.KAssign? && Runs(k, d, names, f, g, s, outer, here) && Lock(k, d, names, f, g, s.value, false)
    requires Holds(k.kind, Eval(k, d, f, s.value).value)
    ensures var r, w := GExecAll(k.kind, d, g, Code(k, names, s)), Exec(k, d, f, s).value.row[s.target.value];
            && InColumn(k.kind, w) && (r.Some? && r.value.row == Exec(k, d, f, s).value.row ==> r.value.locals == g.locals)
            && (FitsStmt(k, d, f, s) <==> Fits(k, d, f, s.value) && r.Some? && r.value.row == Exec(k, d, f, s).value.row)
  {
    AssignReady(k, d, names, f, g, s, outer, here);
    var c, op, e := s.target.value, s.aop, s.value;
    var cur, v := f.row[c], Eval(k, d, f, e).value;
    var x := LowerExpr(k, names, e, false).value;
    assert DriverOk(d) && g.row == f.row && InColumn(k.kind, cur);
    assert Agrees(k, d, names, f, g, e, false);
    assert GEval(k.kind, d, g.row, g.locals, x) == Some(GV(Shown(k.kind, d, v)));
    hide DriverOk, Runs, Ready, Lock, Agrees, GExec, Eval, LowerExpr, Fits, Assigned, Arith, UpdateFits, InColumn, Holds, Exec, OpAllowed;
    if op.Some? {
      Allowed(k, op.value, e);
      UpdateExact(k, d, op.value, cur, v);
    } else {
      PlainStore(k, d, cur, v);
    }
    StoreRuns(k, d, g, c, op, x, Shown(k.kind, d, v));
    var w := Assigned(k, d, op, cur, v).value;
    var r := GExec(k.kind, d, g, GAssign(c, op, x));
    if r.Some? && r.value.row == f.row[c := w] {
      assert r.value.row[c] == w;
    }
  }

  lemma Allowed(k: Kernel, op: H.Op, right: KExpr)
    requires OpAllowed(k, op, right)
    ensures HasGlslOp(op) && (k.kind == FloatKind ==> op != H.Mod)
  {
  }

  lemma AssignExact(k: Kernel, d: Driver, names: seq<string>, f: Frame, g: Effect, s: KStmt, outer: set<string>, here: set<string>)
    requires s.KAssign? && Runs(k, d, names, f, g, s, outer, here)
    ensures FitsStmt(k, d, f, s) <==> LockStmt(k, d, names, f, g, s)
    ensures FitsStmt(k, d, f, s) ==> Ends(k, d, names, f, g, s, outer, here)
  {
    AssignReady(k, d, names, f, g, s, outer, here);
    var c := s.target.value;
    assert Within(k, d, names, f, g) && g.locals.Keys == outer + here;
    assert Settled(k, d, f, s.value);
    ExprExact(k, d, names, f, g, s.value, false);
    if Lock(k, d, names, f, g, s.value, false) {
      StoreExact(k, d, names, f, g, s, outer, here);
    }
    hide Runs, Ready, Fits, Lock, Assigned, Eval, InColumn, Holds, Exec, GExecAll, UpdateFits, GCheckAll;
    var h := Exec(k, d, f, s).value;
    assert h.row.Keys == f.row.Keys && forall x :: x in f.row && x != c ==> h.row[x] == f.row[x];
  }

  lemma BindExact(k: Kernel, d: Driver, names: seq<string>, f: Frame, g: Effect, s: KStmt, outer: set<string>, here: set<string>)
    requires s.KBind? && Runs(k, d, names, f, g, s, outer, here)
    ensures FitsStmt(k, d, f, s) <==> LockStmt(k, d, names, f, g, s)
    ensures FitsStmt(k, d, f, s) ==> Ends(k, d, names, f, g, s, outer, here)
  {
    hide DriverOk, PlainConsts, PlainExpr, Eval, LowerExpr, GType, GEval, Settled, Fits, RowHolds, Holds, Shown, SemTy;
    var code := Code(k, names, s);
    OneG(k.kind, d, g, outer, here, code[0]);
    var e := s.init.value;
    assert Ready(k, d, names, f, g, e, false);
    ExprExact(k, d, names, f, g, e, false);
    if Fits(k, d, f, e) {
      assert Agrees(k, d, names, f, g, e, false);
      NamesGrow(k, names, s);
      assert s.names[0] in After(k, names, s);
    }
  }

  // Both take the same branch.
  lemma CondTakes(k: Kernel, d: Driver, names: seq<string>, f: Frame, g: Effect, s: KStmt, outer: set<string>, here: set<string>)
    requires s.KIf? && Runs(k, d, names, f, g, s, outer, here)
    ensures Ready(k, d, names, f, g, s.cond, true) && LowerStmts(k, names, s.thn).Some?
    ensures LowerStmts(k, LowerStmts(k, names, s.thn).value.names, s.els).Some?
    ensures Fits(k, d, f, s.cond) <==> Lock(k, d, names, f, g, s.cond, true)
    ensures var gt := LowerStmts(k, names, s.thn).value;
            var ge := LowerStmts(k, gt.names, s.els).value;
            var t := Eval(k, d, f, s.cond) != Some(N(0));
            var x := if t then ExecAll(k, d, f, s.thn) else ExecAll(k, d, f, s.els);
            var y := if t then GExecAll(k.kind, d, g, gt.code) else GExecAll(k.kind, d, g, ge.code);
            && x.Some? && Exec(k, d, f, s) == Some(f.(row := x.value.row)) && After(k, names, s) == ge.names
            && GCheckAll(k.kind, outer + here, {}, gt.code).Some? && GCheckAll(k.kind, outer + here, {}, ge.code).Some?
            && GCheckAll(k.kind, outer, here, Code(k, names, s)) == Some(here)
            && (Fits(k, d, f, s.cond) ==>
                  GExecAll(k.kind, d, g, Code(k, names, s)) == (match y case None => None case Some(h) => Some(Effect(h.row, g.locals))))
  {
    hide DriverOk, PlainConsts, PlainExpr, RowHolds, VarsOk, NamesOk, Settled, Fits, Eval, GEval, LowerExpr, ExecAll, GExecAll, LowerStmts, SettledAll, BoundOnce;
    var i := Code(k, names, s)[0];
    OneG(k.kind, d, g, outer, here, i);
    assert GType(k.kind, g.locals.Keys, i.cond) == Some(TyBool);
    ExprExact(k, d, names, f, g, s.cond, true);
    if Fits(k, d, f, s.cond) {
      assert Agrees(k, d, names, f, g, s.cond, true);
    }
  }

  lemma FollowsMore(k: Kernel, d: Driver, a: seq<string>, b: seq<string>, f: Frame, g: Effect, vars: set<string>)
    requires Follows(k, d, a, f, g, vars) && a <= b && NamesOk(k, b)
    ensures Follows(k, d, b, f, g, vars + {})
  {
    assert vars + {} == vars;
  }

  lemma BranchEnds(k: Kernel, d: Driver, names: seq<string>, more: seq<string>, f: Frame, g: Effect, f': Frame, g': Effect, vars: set<string>, vars': set<string>)
    requires Follows(k, d, names, f, g, vars) && Follows(k, d, more, f', g', vars')
    ensures Follows(k, d, names, f.(row := f'.row), Effect(g'.row, g.locals), vars)
  {
  }

  // The statements of a branch, run from the state around it.
  lemma {:induction false} BranchExact(k: Kernel, d: Driver, names: seq<string>, last: seq<string>, f: Frame, g: Effect, ss: seq<KStmt>, vars: set<string>)
    requires DriverOk(d) && PlainConsts(k) && (forall i :: 0 <= i < |ss| ==> PlainStmt(k, ss[i])) && SettledAll(k, d, f, ss)
    requires Follows(k, d, names, f, g, vars) && LowerStmts(k, names, ss).Some? && ExecAll(k, d, f, ss).Some?
    requires BoundOnce(last) && AfterAll(k, names, ss) <= last && NamesOk(k, last)
    requires GCheckAll(k.kind, vars, {}, LowerStmts(k, names, ss).value.code).Some?
    ensures FitsAll(k, d, f, ss) <==> LockAll(k, d, names, f, g, ss)
    ensures var r := GExecAll(k.kind, d, g, LowerStmts(k, names, ss).value.code);
            FitsAll(k, d, f, ss) ==>
              r.Some? && Follows(k, d, last, f.(row := ExecAll(k, d, f, ss).value.row), Effect(r.value.row, g.locals), vars)
    decreases ss, 1
  {
    NamesLonger(k, names, ss);
    FollowsMore(k, d, names, names, f, g, vars);
    hide DriverOk, PlainConsts, PlainStmt, SettledAll, Follows, FitsAll, LockAll, LowerStmts, ExecAll, GExecAll, GCheckAll;
    RunExact(k, d, names, f, g, ss, vars, {});
    if FitsAll(k, d, f, ss) {
      var l := LowerStmts(k, names, ss).value;
      FollowsMore(k, d, names, last, f, g, vars);
      BranchEnds(k, d, last, l.names, f, g, ExecAll(k, d, f, ss).value, GExecAll(k.kind, d, g, l.code).value, vars + {},
                 vars + GCheckAll(k.kind, vars, {}, l.code).value);
      assert vars + {} == vars;
    }
  }

  lemma {:induction false} IfExact(k: Kernel, d: Driver, names: seq<string>, f: Frame, g: Effect, s: KStmt, outer: set<string>, here: set<string>)
    requires s.KIf? && Runs(k, d, names, f, g, s, outer, here)
    ensures FitsStmt(k, d, f, s) <==> LockStmt(k, d, names, f, g, s)
    ensures FitsStmt(k, d, f, s) ==> Ends(k, d, names, f, g, s, outer, here)
    decreases s, 0
  {
    CondTakes(k, d, names, f, g, s, outer, here);
    var gt := LowerStmts(k, names, s.thn).value;
    var ge := LowerStmts(k, gt.names, s.els).value;
    hide DriverOk, PlainConsts, RowHolds, VarsOk, Within, Settled, Fits, Eval, LowerExpr, ExecAll, GExecAll, LowerStmts, GCheckAll, Exec, Lock;
    NamesGrowAll(k, names, s.thn);
    NamesGrowAll(k, gt.names, s.els);
    if Eval(k, d, f, s.cond) != Some(N(0)) {
      BranchExact(k, d, names, ge.names, f, g, s.thn, outer + here);
    } else {
      FollowsMore(k, d, names, gt.names, f, g, outer + here);
      assert outer + here + {} == outer + here;
      BranchExact(k, d, gt.names, ge.names, f, g, s.els, outer + here);
    }
  }

  lemma {:induction false} StmtExact(k: Kernel, d: Driver, names: seq<string>, f: Frame, g: Effect, s: KStmt, outer: set<string>, here: set<string>)
    requires Runs(k, d, names, f, g, s, outer, here)
    ensures FitsStmt(k, d, f, s) <==> LockStmt(k, d, names, f, g, s)
    ensures FitsStmt(k, d, f, s) ==> Ends(k, d, names, f, g, s, outer, here)
    decreases s, 1
  {
    match s
    case KAssign(_, _, _) => AssignExact(k, d, names, f, g, s, outer, here);
    case KBind(_, _) => BindExact(k, d, names, f, g, s, outer, here);
    case KIf(_, _, _) => IfExact(k, d, names, f, g, s, outer, here);
    case KBlock(ss) =>
      assert RunsAll(k, d, names, f, g, ss, outer, here) by { hide DriverOk, PlainConsts, Follows, GCheckAll, BoundOnce; }
      hide DriverOk, PlainConsts, PlainStmt, Follows, GCheckAll, BoundOnce;
      RunExact(k, d, names, f, g, ss, outer, here);
      if FitsAll(k, d, f, ss) {
        assert Follows(k, d, names, f, g, outer + here) && BoundOnce(AfterAll(k, names, ss)) by { hide DriverOk; }
        BlockLeaves(k, d, names, f, g, ss, outer, here);
      }
    case KOtherStmt =>
  }

  // For every accepted body and every row the CPU's code runs on: the shader goes through it in step if and only if every
  // operation fits, and then it ends where the body does.
  lemma {:induction false} RunExact(k: Kernel, d: Driver, names: seq<string>, f: Frame, g: Effect, ss: seq<KStmt>, outer: set<string>, here: set<string>)
    requires RunsAll(k, d, names, f, g, ss, outer, here)
    ensures FitsAll(k, d, f, ss) <==> LockAll(k, d, names, f, g, ss)
    ensures FitsAll(k, d, f, ss) ==> EndsAll(k, d, names, f, g, ss, outer, here)
    decreases ss, 0
  {
    hide DriverOk, PlainConsts, PlainStmt, Exec, LowerStmt, Follows, FitsStmt, LockStmt, SettledStmt, GCheck, GExec, BoundOnce;
    if ss != [] {
      var a := LowerStmt(k, names, ss[0]).value;
      var b := LowerStmts(k, a.names, ss[1..]).value;
      RunSplit(k.kind, d, g, a.code, b.code);
      CheckSplit(k.kind, outer, here, a.code, b.code);
      NamesLonger(k, a.names, ss[1..]);
      FewerBound(a.names, b.names);
      StmtExact(k, d, names, f, g, ss[0], outer, here);
      if FitsStmt(k, d, f, ss[0]) {
        var h := GCheckAll(k.kind, outer, here, a.code).value;
        var r := GExecAll(k.kind, d, g, a.code).value;
        RunExact(k, d, a.names, Exec(k, d, f, ss[0]).value, r, ss[1..], outer, h);
      }
    }
  }

  lemma FewerBound(a: seq<string>, b: seq<string>)
    requires BoundOnce(b) && a <= b
    ensures BoundOnce(a)
  {
  }
}

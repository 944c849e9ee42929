// Maps that the emitter accepts and whose shader does something else: the input, and of the rules that are simple enough
// the exact condition.
module ShaderDiffers {
  import opened Bytes
  import opened Values
  import opened IntLiterals
  import opened ShaderLang
  import opened ShaderFits
  import opened ShaderLower
  import opened ShaderMeans
  import opened ShaderSafe
  import opened ShaderLaws
  import H = Hir

  // ---- literals ----

  lemma DigitReads(s: string)
    requires |s| == 1 && IsDigit(s[0], 10)
    ensures var n: int := DigitVal(s[0]).value;
            StrtolAuto(s) == n && GlslInt(s) == Some(n) && IntLit(s) == Some(n) && !Fractional(s)
  {
    var n := DigitVal(s[0]).value;
    assert s == [s[0]] && s[1..] == [];
    assert SkipSpaces(s) == s && CBase(s) == (10, s) && SplitBase(s) == (10, s);
    DigitValues(s, n);
    hide Horner, Positional, Accumulate, DigitVal;
  }

  lemma DigitValues(s: string, n: nat)
    requires |s| == 1 && IsDigit(s[0], 10) && DigitVal(s[0]) == Some(n)
    ensures Horner(s, 10, 0) == n && Positional(s, 10) == n && Accumulate(s, 10, 0, false) == Some(n)
  {
    assert s[1..] == [];
    assert Power(10, 0) == 1;
    assert Horner(s, 10, 0) == Horner([], 10, n);
    assert Positional(s, 10) == n * 1 + Positional([], 10);
    assert Accumulate(s, 10, 0, false) == Accumulate([], 10, n, true);
  }

  lemma FloatDigit(d: Driver, s: string)
    requires Texts(d) && |s| == 1 && IsDigit(s[0], 10)
    ensures GLitV(FloatKind, d, s + ".0") == Some(R(d.ofInt(DigitVal(s[0]).value))) && FloatText(s + ".0")
  {
    DigitReads(s);
    assert Magnitude(s) == s;
    assert forall i :: 0 <= i < |s + ".0"| ==> (s + ".0")[i] == if i == 0 then s[0] else ".0"[i - 1];
    assert (s + ".0")[1] == '.';
    FloatLitMeans(d, s);
  }

  // ---- one assignment ----

  lemma AssignLowers(k: Kernel, c: string, e: KExpr)
    requires c in k.cols && LowerExpr(k, [], e, false).Some?
    ensures LowerStmts(k, [], [KAssign(Some(c), None, e)]) ==
            Some(Lowered([GAssign(c, None, LowerExpr(k, [], e, false).value)], []))
  {
    var s := KAssign(Some(c), None, e);
    assert [s][1..] == [];
    var a := GAssign(c, None, LowerExpr(k, [], e, false).value);
    assert LowerStmt(k, [], s) == Some(Lowered([a], []));
    assert [a] + [] == [a];
  }

  // On a row of one column.
  lemma AssignLeaves(k: Kernel, d: Driver, c: string, e: KExpr, u: V, v: V, w: V)
    requires k.cols == [c] && LowerExpr(k, [], e, false).Some? && (v.R? <==> k.kind == FloatKind)
    requires Eval(k, d, Start(map[c := u]), e) == Some(v)
    requires GEval(k.kind, d, map[c := u], map[], LowerExpr(k, [], e, false).value) == Some(GV(w))
    requires GType(k.kind, {}, LowerExpr(k, [], e, false).value) == Some(TyVal)
    ensures var ss := [KAssign(Some(c), None, e)];
            && ExecAll(k, d, Start(map[c := u]), ss) == Some(Start(map[c := v]))
            && LowerStmts(k, [], ss).Some? && Compiles(k.kind, LowerStmts(k, [], ss).value.code)
            && GExecAll(k.kind, d, Effect(map[c := u], map[]), LowerStmts(k, [], ss).value.code) == Some(Effect(map[c := w], map[]))
  {
    var s := KAssign(Some(c), None, e);
    AssignLowers(k, c, e);
    var a := GAssign(c, None, LowerExpr(k, [], e, false).value);
    hide LowerStmts, LowerExpr, Eval, GEval, GType;
    assert [s][1..] == [];
    var g := Effect(map[c := u], map[]);
    assert map[c := u][c := v] == map[c := v] && map[c := u][c := w] == map[c := w];
    assert Exec(k, d, Start(map[c := u]), s) == Some(Start(map[c := v]));
    assert ExecAll(k, d, Start(map[c := v]), []) == Some(Start(map[c := v]));
    var none: set<string> := {};
    assert none + none == none;
    OneG(k.kind, d, g, {}, {}, a);
    assert GCheck(k.kind, {}, {}, a) == Some({});
  }

  // The text is this number in both languages.
  predicate Means(lx: string, n: int) { StrtolAuto(lx) == n && GlslInt(lx) == Some(n) && IntLit(lx) == Some(n) && !Fractional(lx) }

  // And with .0 behind it the float.
  predicate MeansFloat(d: Driver, lx: string, n: int) {
    IntLit(lx) == Some(n) && !Fractional(lx) && GLitV(FloatKind, d, lx + ".0") == Some(R(d.ofInt(n))) && FloatText(lx + ".0")
  }

  // ---- a map of floats ----

  // v * (a / b)
  function Scaled(v: string, a: string, b: string): KExpr { KBinary(H.Mul, KName(v), KBinary(H.Div, KLit(a), KLit(b))) }

  function ScaledCode(v: string, a: string, b: string): GExpr {
    GBin(H.Mul, GCol(v), GBin(H.Div, GLit(a + ".0"), GLit(b + ".0")))
  }

  lemma ScaledOnCpu(d: Driver, v: string, a: string, b: string, x: nat)
    requires IntLit(a) == Some(1) && IntLit(b) == Some(2)
    ensures Eval(Kernel([v], [], FloatKind, true), d, Start(map[v := R(x)]), Scaled(v, a, b)) == Some(R(d.mul(x, d.ofInt(0))))
  {
    hide IntLit;
    var k, f, q := Kernel([v], [], FloatKind, true), Start(map[v := R(x)]), KBinary(H.Div, KLit(a), KLit(b));
    assert Eval(k, d, f, KLit(a)) == Some(N(1)) && Eval(k, d, f, KLit(b)) == Some(N(2));
    assert Eval(k, d, f, q) == IntArith(FloatKind, true, H.Div, 1, 2);
    assert TruncDiv(1, 2) == 0;
    assert Eval(k, d, f, q) == Some(N(0));
    assert Eval(k, d, f, KName(v)) == Some(R(x));
  }

  lemma ScaledLowers(d: Driver, v: string, a: string, b: string)
    requires MeansFloat(d, a, 1) && MeansFloat(d, b, 2)
    ensures LowerExpr(Kernel([v], [], FloatKind, true), [], Scaled(v, a, b), false) == Some(ScaledCode(v, a, b))
    ensures GType(FloatKind, {}, ScaledCode(v, a, b)) == Some(TyVal)
  {
    hide GlslInt, GLitV, FloatText, Fractional, NonzeroConst, IntLit;
    var k, q := Kernel([v], [], FloatKind, true), KBinary(H.Div, KLit(a), KLit(b));
    var g := GBin(H.Div, GLit(a + ".0"), GLit(b + ".0"));
    assert LowerExpr(k, [], q, false) == Some(g);
    var none: set<string> := {};
    assert ColOk(FloatKind, none, v);
    assert GType(FloatKind, none, GLit(a + ".0")) == Some(TyVal) && GType(FloatKind, none, GLit(b + ".0")) == Some(TyVal);
    assert GType(FloatKind, none, g) == Some(TyVal) && GType(FloatKind, none, GCol(v)) == Some(TyVal);
  }

  lemma ScaledInShader(d: Driver, v: string, a: string, b: string, x: nat)
    requires GLitV(FloatKind, d, a) == Some(R(d.ofInt(1))) && GLitV(FloatKind, d, b) == Some(R(d.ofInt(2)))
    ensures GEval(FloatKind, d, map[v := R(x)], map[], GBin(H.Mul, GCol(v), GBin(H.Div, GLit(a), GLit(b)))) ==
            Some(GV(R(d.mul(x, d.div(d.ofInt(1), d.ofInt(2))))))
  {
    hide GLitV;
    var g := GBin(H.Div, GLit(a), GLit(b));
    var row: Row, vars: Scope := map[v := R(x)], map[];
    assert GEval(FloatKind, d, row, vars, GLit(a)) == Some(GV(R(d.ofInt(1))));
    assert GEval(FloatKind, d, row, vars, GLit(b)) == Some(GV(R(d.ofInt(2))));
    assert GEval(FloatKind, d, row, vars, g) == Some(GV(R(d.div(d.ofInt(1), d.ofInt(2)))));
    assert GEval(FloatKind, d, row, vars, GCol(v)) == Some(GV(R(x)));
  }

  // In a float map 1 / 2 is an integer division on the CPU and a float one in the shader: v = v * (1 / 2) multiplies by
  // zero or by a half. Where a product with one is the other factor, one shows the difference.
  lemma HalfDiffers(d: Driver, x: nat)
    requires DriverOk(d)
    ensures var k := Kernel(["v"], [], FloatKind, true);
            var ss := [KAssign(Some("v"), None, Scaled("v", "1", "2"))];
            var half := d.div(d.ofInt(1), d.ofInt(2));
            && ExecAll(k, d, Start(map["v" := R(x)]), ss) == Some(Start(map["v" := R(d.mul(x, d.ofInt(0)))]))
            && LowerStmts(k, [], ss).Some? && Compiles(FloatKind, LowerStmts(k, [], ss).value.code)
            && GExecAll(FloatKind, d, Effect(map["v" := R(x)], map[]), LowerStmts(k, [], ss).value.code) ==
                 Some(Effect(map["v" := R(d.mul(x, half))], map[]))
            && half != d.ofInt(0)
            && (x == d.ofInt(1) && (forall y :: d.mul(x, y) == y) ==> d.mul(x, d.ofInt(0)) != d.mul(x, half))
  {
    DigitReads("1");
    DigitReads("2");
    FloatDigit(d, "1");
    FloatDigit(d, "2");
    assert QuotientOk(d, 1, 2, 0);
    hide Eval, GEval, LowerExpr, GType, DriverOk, IntLit, GlslInt, Fractional, GLitV, FloatText, Scaled;
    ScaledOnCpu(d, "v", "1", "2", x);
    ScaledLowers(d, "v", "1", "2");
    ScaledInShader(d, "v", "1" + ".0", "2" + ".0", x);
    AssignLeaves(Kernel(["v"], [], FloatKind, true), d, "v", Scaled("v", "1", "2"), R(x), R(d.mul(x, d.ofInt(0))),
                 R(d.mul(x, d.div(d.ofInt(1), d.ofInt(2)))));
  }

  // ---- a map of unsigned integers ----

  // (a + x) / b
  function Mean(x: string, a: string, b: string): KExpr { KBinary(H.Div, KBinary(H.Add, KLit(a), KName(x)), KLit(b)) }
  function MeanCode(x: string, a: string, b: string): GExpr { GBin(H.Div, GBin(H.Add, GLit(a), GCol(x)), GLit(b)) }

  lemma MeanOnCpu(d: Driver, x: string, a: string, b: string)
    requires IntLit(a) == Some(0) && IntLit(b) == Some(2)
    ensures Eval(Kernel([x], [], UintKind, true), d, Start(map[x := N(3000000000)]), Mean(x, a, b)) == Some(N(3647483648))
  {
    hide IntLit;
    var k, f, sum := Kernel([x], [], UintKind, true), Start(map[x := N(3000000000)]), KBinary(H.Add, KLit(a), KName(x));
    assert Eval(k, d, f, KLit(a)) == Some(N(0)) && Eval(k, d, f, KLit(b)) == Some(N(2));
    assert Eval(k, d, f, KName(x)) == Some(N(3000000000));
    assert Eval(k, d, f, sum) == Some(N(3000000000));
    assert GenTy(k, f.types, sum) == IntTy(true) by {
      assert SemTy(k, f.types, KLit(a)) == IntTy(true) && SemTy(k, f.types, KName(x)) == IntTy(false);
      assert SemTy(k, f.types, sum) == IntTy(true);
    }
    HighRead(3000000000);
    HighRead(2);
    assert TruncDiv(3000000000 - U32_LIMIT, 2) == -647483648;
    NormUnsigned(-647483648);
    hide ReadAs, TruncDiv, Norm;
    assert IntArith(UintKind, true, H.Div, 3000000000, 2) == Some(N(3647483648));
  }

  lemma MeanLowers(x: string, a: string, b: string)
    requires Means(a, 0) && Means(b, 2)
    ensures LowerExpr(Kernel([x], [], UintKind, true), [], Mean(x, a, b), false) == Some(MeanCode(x, a, b))
    ensures GType(UintKind, {}, MeanCode(x, a, b)) == Some(TyVal)
  {
    hide GlslInt, IntLit, StrtolAuto;
    var k, sum, g := Kernel([x], [], UintKind, true), KBinary(H.Add, KLit(a), KName(x)), GBin(H.Add, GLit(a), GCol(x));
    assert NonzeroConst(k, KLit(b));
    hide Fractional, NonzeroConst;
    assert LowerExpr(k, [], sum, false) == Some(g);
    var none: set<string> := {};
    assert ColOk(UintKind, none, x);
    assert GType(UintKind, none, GLit(a)) == Some(TyVal) && GType(UintKind, none, GLit(b)) == Some(TyVal);
    assert GType(UintKind, none, g) == Some(TyVal);
  }

  lemma MeanInShader(d: Driver, x: string, a: string, b: string)
    requires GlslInt(a) == Some(0) && GlslInt(b) == Some(2)
    ensures GEval(UintKind, d, map[x := N(3000000000)], map[], MeanCode(x, a, b)) == Some(GV(N(1500000000)))
  {
    hide GlslInt;
    var g := GBin(H.Add, GLit(a), GCol(x));
    var row: Row, vars: Scope := map[x := N(3000000000)], map[];
    assert GEval(UintKind, d, row, vars, GLit(a)) == Some(GV(N(0))) && GEval(UintKind, d, row, vars, GLit(b)) == Some(GV(N(2)));
    assert GEval(UintKind, d, row, vars, GCol(x)) == Some(GV(N(3000000000)));
    assert GEval(UintKind, d, row, vars, g) == Some(GV(N(3000000000)));
  }

  // 0 + x is signed on the CPU, its first operand being a literal, and so x = (0 + x) / 2 divides a negative number there.
  lemma MeanDiffers(d: Driver)
    ensures var k := Kernel(["x"], [], UintKind, true);
            var ss := [KAssign(Some("x"), None, Mean("x", "0", "2"))];
            && ExecAll(k, d, Start(map["x" := N(3000000000)]), ss) == Some(Start(map["x" := N(3647483648)]))
            && LowerStmts(k, [], ss).Some? && Compiles(UintKind, LowerStmts(k, [], ss).value.code)
            && GExecAll(UintKind, d, Effect(map["x" := N(3000000000)], map[]), LowerStmts(k, [], ss).value.code) ==
                 Some(Effect(map["x" := N(1500000000)], map[]))
  {
    DigitReads("0");
    DigitReads("2");
    hide Eval, GEval, LowerExpr, GType, IntLit, GlslInt, StrtolAuto, Fractional, Mean, MeanCode;
    MeanOnCpu(d, "x", "0", "2");
    MeanLowers("x", "0", "2");
    MeanInShader(d, "x", "0", "2");
    AssignLeaves(Kernel(["x"], [], UintKind, true), d, "x", Mean("x", "0", "2"), N(3000000000), N(3647483648), N(1500000000));
  }

  // select(a < x, b, c)
  function Pick(x: string, a: string, b: string, c: string): KExpr {
    KCall("select", [KBinary(H.Lt, KLit(a), KName(x)), KLit(b), KLit(c)])
  }

  function PickCode(x: string, a: string, b: string, c: string): GExpr { GSel(GBin(H.Lt, GLit(a), GCol(x)), GLit(b), GLit(c)) }

  lemma PickOnCpu(d: Driver, x: string, a: string, b: string, c: string)
    requires IntLit(a) == Some(5) && IntLit(b) == Some(1) && IntLit(c) == Some(0)
    ensures Eval(Kernel([x], [], UintKind, true), d, Start(map[x := N(3000000000)]), Pick(x, a, b, c)) == Some(N(0))
  {
    hide IntLit;
    var k, f, less := Kernel([x], [], UintKind, true), Start(map[x := N(3000000000)]), KBinary(H.Lt, KLit(a), KName(x));
    assert Eval(k, d, f, KLit(a)) == Some(N(5)) && Eval(k, d, f, KLit(b)) == Some(N(1)) && Eval(k, d, f, KLit(c)) == Some(N(0));
    assert Eval(k, d, f, KName(x)) == Some(N(3000000000));
    HighRead(3000000000);
    HighRead(5);
    hide ReadAs;
    assert Eval(k, d, f, less) == Some(N(0));
    var args := [less, KLit(b), KLit(c)];
    assert args[0] == less && args[1] == KLit(b) && args[2] == KLit(c);
  }

  lemma PickInShader(d: Driver, x: string, a: string, b: string, c: string)
    requires Means(a, 5) && Means(b, 1) && Means(c, 0)
    ensures LowerExpr(Kernel([x], [], UintKind, true), [], Pick(x, a, b, c), false) == Some(PickCode(x, a, b, c))
    ensures GType(UintKind, {}, PickCode(x, a, b, c)) == Some(TyVal)
    ensures GEval(UintKind, d, map[x := N(3000000000)], map[], PickCode(x, a, b, c)) == Some(GV(N(1)))
  {
    hide GlslInt, IntLit, StrtolAuto, Fractional, NonzeroConst;
    var k, less, g := Kernel([x], [], UintKind, true), KBinary(H.Lt, KLit(a), KName(x)), GBin(H.Lt, GLit(a), GCol(x));
    var args := [less, KLit(b), KLit(c)];
    assert args[0] == less && args[1] == KLit(b) && args[2] == KLit(c);
    assert LowerExpr(k, [], less, true) == Some(g);
    var none: set<string> := {};
    assert ColOk(UintKind, none, x) && GType(UintKind, none, GLit(a)) == Some(TyVal);
    assert GType(UintKind, none, g) == Some(TyBool);
    var row: Row, vars: Scope := map[x := N(3000000000)], map[];
    assert GEval(UintKind, d, row, vars, GLit(a)) == Some(GV(N(5))) && GEval(UintKind, d, row, vars, GLit(b)) == Some(GV(N(1)));
    assert GEval(UintKind, d, row, vars, GCol(x)) == Some(GV(N(3000000000)));
    assert GEval(UintKind, d, row, vars, g) == Some(GB(true));
  }

  // 5 < x compares signed numbers on the CPU and unsigned ones in the shader: x = select(5 < x, 1, 0).
  lemma PickDiffers(d: Driver)
    ensures var k := Kernel(["x"], [], UintKind, true);
            var ss := [KAssign(Some("x"), None, Pick("x", "5", "1", "0"))];
            && ExecAll(k, d, Start(map["x" := N(3000000000)]), ss) == Some(Start(map["x" := N(0)]))
            && LowerStmts(k, [], ss).Some? && Compiles(UintKind, LowerStmts(k, [], ss).value.code)
            && GExecAll(UintKind, d, Effect(map["x" := N(3000000000)], map[]), LowerStmts(k, [], ss).value.code) ==
                 Some(Effect(map["x" := N(1)], map[]))
  {
    DigitReads("0");
    DigitReads("1");
    DigitReads("5");
    hide Eval, GEval, LowerExpr, GType, IntLit, GlslInt, StrtolAuto, Fractional, Pick, PickCode;
    PickOnCpu(d, "x", "5", "1", "0");
    PickInShader(d, "x", "5", "1", "0");
    AssignLeaves(Kernel(["x"], [], UintKind, true), d, "x", Pick("x", "5", "1", "0"), N(3000000000), N(0), N(1));
  }

  // ---- names, unary operators and remainders ----

  // A column with the name of a nonzero constant passes the divisor test. The CPU divides by the constant, the shader by
  // the column.
  lemma HiddenDivisor(d: Driver)
    ensures var k := Kernel(["a", "n"], [("n", Some("2"))], IntKind, true);
            var e := KBinary(H.Div, KName("a"), KName("n"));
            var row: Row := map["a" := N(1), "n" := N(0)];
            && Eval(k, d, Start(row), e) == Some(N(0))
            && LowerExpr(k, [], e, false) == Some(GBin(H.Div, GCol("a"), GCol("n")))
            && DividesByZero(IntKind, d, row, map[], GBin(H.Div, GCol("a"), GCol("n")))
  {
    DigitReads("2");
    hide IntLit, GlslInt, StrtolAuto, Fractional;
    HidesConstant(d, "a", "n", "2");
  }

  lemma HidesConstant(d: Driver, a: string, n: string, lx: string)
    requires Means(lx, 2) && '.' !in lx && a != n
    ensures var k := Kernel([a, n], [(n, Some(lx))], IntKind, true);
            var e := KBinary(H.Div, KName(a), KName(n));
            var row: Row := map[a := N(1), n := N(0)];
            && Eval(k, d, Start(row), e) == Some(N(0))
            && LowerExpr(k, [], e, false) == Some(GBin(H.Div, GCol(a), GCol(n)))
            && DividesByZero(IntKind, d, row, map[], GBin(H.Div, GCol(a), GCol(n)))
  {
    hide IntLit, GlslInt, StrtolAuto;
    var k := Kernel([a, n], [(n, Some(lx))], IntKind, true);
    var row: Row := map[a := N(1), n := N(0)];
    assert [(n, Some(lx))][1..] == [];
    assert ConstLexeme(k.consts, n) == Some(lx) && ConstLexeme(k.consts, a) == None;
    assert Eval(k, d, Start(row), KName(a)) == Some(N(1)) && Eval(k, d, Start(row), KName(n)) == Some(N(2));
    WrapIdentity(1);
    WrapIdentity(2);
    assert TruncDiv(1, 2) == 0;
    assert GEval(IntKind, d, row, map[], GCol(n)) == Some(GV(N(0)));
  }

  // Every unary operator is emitted as a minus sign. The shader has the body's value on every row if and only if the
  // operator is one.
  lemma UnaryExact(d: Driver, op: UnaryOp)
    ensures var k := Kernel(["x"], [], IntKind, true);
            var e := KUnary(op, KName("x"));
            && LowerExpr(k, [], e, false) == Some(GNeg(GCol("x")))
            && ((forall n :: InI32(n) ==>
                  Eval(k, d, Start(map["x" := N(n)]), e).Some?
                  && GEval(IntKind, d, map["x" := N(n)], map[], GNeg(GCol("x"))) == Some(GV(Eval(k, d, Start(map["x" := N(n)]), e).value)))
                <==> op == Neg)
  {
    var k := Kernel(["x"], [], IntKind, true);
    var e := KUnary(op, KName("x"));
    if op != Neg {
      WrapIdentity(-5);
      assert InI32(5);
      assert GEval(IntKind, d, map["x" := N(5)], map[], GNeg(GCol("x"))) == Some(GV(N(-5)));
      assert Eval(k, d, Start(map["x" := N(5)]), e) == Some(if op == Not then N(0) else N(5));
    }
  }

  // What GLSL says of `%` (section 5.9 of the OpenGL Shading Language 4.50): with both operands non-negative the
  // result is the remainder; with a negative one it is undefined, so a driver may give anything.
  ghost predicate GlslRemainder(d: Driver) { forall a, b :: a >= 0 && b > 0 ==> d.rem(a, b) == a % b }

  // x % c in the shader and in the body, where x is an integer column and c a literal.
  ghost predicate RemainderAgrees(d: Driver, x: int, c: string) {
    GEval(IntKind, d, map["x" := N(x)], map[], GBin(H.Mod, GCol("x"), GLit(c)))
    == (match Eval(Kernel(["x"], [], IntKind, true), d, Start(map["x" := N(x)]), KBinary(H.Mod, KName("x"), KLit(c)))
        case None => None case Some(v) => Some(GV(v)))
  }

  lemma ShaderRemainder(d: Driver, x: int, c: string)
    requires GlslInt(c).Some? && InI32(GlslInt(c).value) && GlslInt(c).value != 0
    ensures GEval(IntKind, d, map["x" := N(x)], map[], GBin(H.Mod, GCol("x"), GLit(c))) == Some(GV(N(d.rem(x, GlslInt(c).value))))
  {
    hide GlslInt;
    WrapIdentity(GlslInt(c).value);
    var row: Row := map["x" := N(x)];
    assert GEval(IntKind, d, row, map[], GCol("x")) == Some(GV(N(x)));
    assert GEval(IntKind, d, row, map[], GLit(c)) == Some(GV(N(GlslInt(c).value)));
  }

  // The dividend is a column's value, the divisor a literal other than zero, and the CPU's remainder is defined.
  predicate RemainderDefined(x: int, c: string) {
    && InI32(x) && GlslInt(c).Some? && IntLit(c) == GlslInt(c) && InI32(GlslInt(c).value) && GlslInt(c).value != 0
    && !(x == -I32_LIMIT && GlslInt(c).value == -1)
  }

  lemma BodyRemainder(d: Driver, x: int, c: string)
    requires RemainderDefined(x, c)
    ensures Eval(Kernel(["x"], [], IntKind, true), d, Start(map["x" := N(x)]), KBinary(H.Mod, KName("x"), KLit(c)))
            == Some(N(TruncRem(x, IntLit(c).value)))
  {
    hide IntLit, GlslInt;
    var k := Kernel(["x"], [], IntKind, true);
    var f := Start(map["x" := N(x)]);
    var n := IntLit(c).value;
    assert Eval(k, d, f, KName("x")) == Some(N(x));
    assert Eval(k, d, f, KLit(c)) == Some(N(n));
    ModIsRemainder(d, x, n);
    hide IntArith;
  }

  lemma ModIsRemainder(d: Driver, x: int, n: int)
    requires InI32(x) && InI32(n) && n != 0 && !(x == -I32_LIMIT && n == -1)
    ensures IntArith(IntKind, true, H.Mod, x, n) == Some(N(TruncRem(x, n)))
  {
    WrapIdentity(x);
    WrapIdentity(n);
    RemInRange(x, n);
    WrapIdentity(TruncRem(x, n));
    QuotientInRange(x, n);
    hide Wrap32, TruncDiv, TruncRem;
  }

  // The emitted remainder agrees with the language on every driver GLSL allows if and only if both operands are
  // non-negative.
  lemma RemainderExact(x: int, c: string)
    requires RemainderDefined(x, c)
    ensures (forall d :: GlslRemainder(d) ==> RemainderAgrees(d, x, c)) <==> x >= 0 && GlslInt(c).value > 0
  {
    var n := GlslInt(c).value;
    if x >= 0 && n > 0 {
      forall d | GlslRemainder(d)
        ensures RemainderAgrees(d, x, c)
      {
        hide GlslInt, IntLit, GEval, Eval;
        ShaderRemainder(d, x, c);
        BodyRemainder(d, x, c);
        assert d.rem(x, n) == x % n;
      }
    } else {
      OtherRemainderDiffers(x, c);
    }
  }

  lemma OtherRemainderDiffers(x: int, c: string)
    requires RemainderDefined(x, c)
    requires x < 0 || GlslInt(c).value < 0
    ensures GlslRemainder(OtherRemainder()) && !RemainderAgrees(OtherRemainder(), x, c)
  {
    hide GlslInt, IntLit, GEval, Eval;
    var d := OtherRemainder();
    ShaderRemainder(d, x, c);
    BodyRemainder(d, x, c);
  }

  // A driver GLSL allows whose remainder is another one as soon as an operand is negative.
  function OtherRemainder(): Driver {
    Toy().(rem := (a, b) => if a >= 0 && b > 0 then a % b else if b == 0 then 0 else TruncRem(a, b) + 1)
  }

  // if (x == x) { n := x; x = x }
  function BindsInside(x: string, n: string): seq<KStmt> {
    [KIf(KBinary(H.Eq, KName(x), KName(x)), [KBind([n], Some(KName(x))), KAssign(Some(x), None, KName(x))], [])]
  }

  function BindsInsideCode(x: string, n: string): seq<GStmt> {
    [GIf(GBin(H.Eq, GCol(x), GCol(x)), [GDecl(n, GCol(x)), GAssign(x, None, GCol(x))], false, [])]
  }

  lemma BindsInsideLowers(k: Kernel, x: string, n: string)
    requires x in k.cols
    ensures LowerStmts(k, [], BindsInside(x, n)) == Some(Lowered(BindsInsideCode(x, n), [n]))
  {
    var a, b := KBind([n], Some(KName(x))), KAssign(Some(x), None, KName(x));
    var ga, gb := GDecl(n, GCol(x)), GAssign(x, None, GCol(x));
    assert [a, b][1..] == [b] && [b][1..] == [];
    assert LowerStmt(k, [], a) == Some(Lowered([ga], [n])) by { assert [] + [n] == [n]; }
    assert LowerStmt(k, [n], b) == Some(Lowered([gb], [n]));
    assert LowerStmts(k, [n], []) == Some(Lowered([], [n]));
    assert LowerStmts(k, [n], [b]) == Some(Lowered([gb], [n])) by { assert [gb] + [] == [gb]; }
    assert LowerStmts(k, [], [a, b]) == Some(Lowered([ga, gb], [n])) by { assert [ga] + [gb] == [ga, gb]; }
    var ss := BindsInside(x, n);
    assert ss[1..] == [];
    assert LowerStmt(k, [], ss[0]) == Some(Lowered(BindsInsideCode(x, n), [n]));
    assert BindsInsideCode(x, n) + [] == BindsInsideCode(x, n);
  }

  lemma BindsInsideCompiles(kind: Kind, x: string, n: string)
    requires x != INDEX
    ensures Compiles(kind, BindsInsideCode(x, n)) <==> n != x && (n == INDEX ==> kind != FloatKind)
  {
    var code := BindsInsideCode(x, n);
    var inner := code[0].thn;
    var none: set<string> := {};
    assert code[1..] == [] && inner[1..] == [inner[1]] && inner[1..][1..] == [];
    assert none + none == none && none + {n} == {n};
    assert GType(kind, none, GCol(x)) == Some(TyVal);
    assert GType(kind, none, code[0].cond) == Some(TyBool);
    assert GCheck(kind, none, none, inner[0]) == Some({n});
    assert GCheckAll(kind, none, none, inner) == GCheckAll(kind, none, {n}, [inner[1]]);
    var ok := n != x && (n == INDEX ==> kind != FloatKind);
    assert ColOk(kind, {n}, x) <==> ok;
    assert Rhs(x, None, GCol(x)) == GCol(x);
    assert GType(kind, {n}, GCol(x)) == if ok then Some(TyVal) else None;
    assert GCheck(kind, none, {n}, inner[1]).Some? <==> ok by { assert inner[1] == GAssign(x, None, GCol(x)); }
    assert GCheckAll(kind, none, {n}, [inner[1]]).Some? <==> ok;
    assert GCheckAll(kind, none, none, []) == Some(none);
    assert GCheck(kind, none, none, code[0]).Some? <==> ok;
    assert GCheck(kind, none, none, code[0]).Some? ==> GCheck(kind, none, none, code[0]) == Some(none);
    assert GCheckAll(kind, none, none, code) == GCheck(kind, none, none, code[0]);
  }

  lemma BindsInsideRuns(kind: Kind, d: Driver, x: string, n: string, v: V)
    requires v.N? && kind != FloatKind && n != x
    ensures GExecAll(kind, d, Effect(map[x := v], map[]), BindsInsideCode(x, n)) ==
            if n == INDEX then None else Some(Effect(map[x := v], map[]))
  {
    var code := BindsInsideCode(x, n);
    var inner := code[0].thn;
    assert code[1..] == [] && inner[1..] == [inner[1]] && inner[1..][1..] == [];
    var f := Effect(map[x := v], map[]);
    var f1 := Effect(map[x := v], map[n := v]);
    assert GExec(kind, d, f, inner[0]) == Some(f1) by { assert map[][n := v] == map[n := v]; }
    assert map[x := v][x := v] == map[x := v];
    assert GExec(kind, d, f1, inner[1]) == if n == INDEX then None else Some(f1);
    assert GExecAll(kind, d, f1, [inner[1]]) == GExec(kind, d, f1, inner[1]);
    assert GExecAll(kind, d, f, inner) == GExec(kind, d, f1, inner[1]);
    assert GEval(kind, d, f.row, f.locals, code[0].cond) == Some(GB(true));
    assert GExec(kind, d, f, code[0]) == if n == INDEX then None else Some(f);
  }

  lemma BindsInsideMeans(k: Kernel, d: Driver, x: string, n: string, v: V)
    requires InColumn(k.kind, v) && k.kind != FloatKind && x in k.cols && n != x && ConstLexeme(k.consts, x).None?
    ensures ExecAll(k, d, Start(map[x := v]), BindsInside(x, n)) == Some(Start(map[x := v]))
  {
    var ss := BindsInside(x, n);
    var inner := ss[0].thn;
    assert ss[1..] == [] && inner[1..] == [inner[1]] && inner[1..][1..] == [];
    var f := Start(map[x := v]);
    var f1 := Exec(k, d, f, inner[0]).value;
    assert f1 == Frame(map[x := v], map[n := v], map[n := ElemTy(k.kind)]);
    assert map[x := v][x := v] == map[x := v];
    assert Eval(k, d, f1, KName(x)) == Some(v);
    assert Exec(k, d, f1, inner[1]) == Some(f1);
    assert ExecAll(k, d, f1, [inner[1]]) == Some(f1);
    assert ExecAll(k, d, f, inner) == Some(f1);
    assert Eval(k, d, f, ss[0].cond) == Some(N(1)) by {
      assert Eval(k, d, f, KName(x)) == Some(v);
    }
    assert Exec(k, d, f, ss[0]) == Some(f);
  }

  // For every name bound inside a conditional of an integer map: the shader compiles and still does not do what the
  // body does if and only if the name is the row index's. With a column's name it does not compile, at the top level
  // neither does the row index's.
  lemma BoundNameExact(k: Kernel, d: Driver, x: string, n: string, v: V)
    requires k.kind != FloatKind && InColumn(k.kind, v) && x in k.cols && x != INDEX && ConstLexeme(k.consts, x).None?
    ensures var l := LowerStmts(k, [], BindsInside(x, n));
            && l.Some?
            && var f, g := ExecAll(k, d, Start(map[x := v]), BindsInside(x, n)), GExecAll(k.kind, d, Effect(map[x := v], map[]), l.value.code);
               Compiles(k.kind, l.value.code) && !(f.Some? && g.Some? && g.value.row == f.value.row) <==> n == INDEX
    ensures var top := LowerStmts(k, [], [KBind([n], Some(KName(x)))]);
            top.Some? && (Compiles(k.kind, top.value.code) <==> n != INDEX)
  {
    BindsInsideLowers(k, x, n);
    BindsInsideCompiles(k.kind, x, n);
    if n != x {
      BindsInsideRuns(k.kind, d, x, n, v);
      BindsInsideMeans(k, d, x, n, v);
    }
    var top := KBind([n], Some(KName(x)));
    assert [top][1..] == [] && [] + [n] == [n];
    assert LowerStmt(k, [], top) == Some(Lowered([GDecl(n, GCol(x))], [n]));
    assert [GDecl(n, GCol(x))] + [] == [GDecl(n, GCol(x))] && [GDecl(n, GCol(x))][1..] == [];
    assert LowerStmts(k, [n], []) == Some(Lowered([], [n]));
    assert GCheck(k.kind, {}, {}, GDecl(n, GCol(x))) == Some({} + {n}) && {} + {n} == {n};
    assert GCheckAll(k.kind, {}, {n}, []) == Some({n});
  }
}

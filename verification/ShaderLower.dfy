// The lowering of a map body to GLSL, as a function: which bodies it accepts, and what it makes of them. On every row
// the result does what the body does.
module ShaderLower {
  import opened Bytes
  import opened Values
  import opened IntLiterals
  import opened ShaderLang
  import H = Hir

  const MAX_LOCALS: nat := 64

  // C's strtol with base 0.
  function StrtolAuto(s: string): int {
    var t := SkipSpaces(s);
    var neg := t != [] && t[0] == '-';
    var u := if t != [] && (t[0] == '-' || t[0] == '+') then t[1..] else t;
    var p := if |u| >= 2 && u[0] == '0' && (u[1] == 'x' || u[1] == 'X') && !(|u| >= 3 && IsDigit(u[2], 16)) then (8, "0")
             else CBase(u);
    var v := Horner(p.1, p.0, 0);
    if neg then (if v > I64_MAX + 1 then -I64_MAX - 1 else -(v as int)) else (if v > I64_MAX then I64_MAX else v)
  }

  // The text of a divisor that is a literal or an integer constant, if it is not zero.
  predicate NonzeroConst(k: Kernel, e: KExpr) {
    var lx := match e
      case KLit(l) => Some(l)
      case KName(n) => ConstLexeme(k.consts, n)
      case _ => None;
    lx.Some? && '.' !in lx.value && StrtolAuto(lx.value) != 0
  }

  function LowerLit(k: Kernel, lx: string): Option<GExpr> {
    if k.kind == FloatKind then Some(GLit(if Fractional(lx) then lx else lx + ".0"))
    else if Fractional(lx) then None else Some(GLit(lx))
  }

  // Operators with a GLSL form; integer division only by a constant that is not zero.
  predicate OpAllowed(k: Kernel, op: H.Op, right: KExpr) {
    && HasGlslOp(op) && !(op == H.Mod && k.kind == FloatKind)
    && ((op == H.Div || op == H.Mod) && k.kind != FloatKind ==> NonzeroConst(k, right))
  }

  // `bools`: a condition is wanted, so a comparison is not cast to a number.
  function LowerExpr(k: Kernel, names: seq<string>, e: KExpr, bools: bool): Option<GExpr> {
    match e
    case KName(n) =>
      if n in k.cols then Some(GCol(n))
      else if n in names then Some(GVar(n))
      else (match ConstLexeme(k.consts, n) case None => None case Some(lx) => LowerLit(k, lx))
    case KLit(lx) => LowerLit(k, lx)
    case KUnary(_, x) => (match LowerExpr(k, names, x, false) case None => None case Some(g) => Some(GNeg(g)))
    case KBinary(op, l, r) =>
      if !OpAllowed(k, op, r) then None
      else
        (match LowerExpr(k, names, l, false)
         case None => None
         case Some(a) =>
           match LowerExpr(k, names, r, false)
           case None => None
           case Some(b) => Some(if Compares(op) && !bools then GCast(GBin(op, a, b)) else GBin(op, a, b)))
    case KCall(fn, args) =>
      if fn == "select" && |args| == 3 then
        (match LowerExpr(k, names, args[0], true)
         case None => None
         case Some(c) =>
           match LowerExpr(k, names, args[1], false)
           case None => None
           case Some(a) =>
             match LowerExpr(k, names, args[2], false) case None => None case Some(b) => Some(GSel(c, a, b)))
      else if fn == "sqrt" && |args| == 1 then
        (match LowerExpr(k, names, args[0], false) case None => None case Some(g) => Some(GSqrt(g)))
      else None
    case KOther => None
  }

  datatype Lowered = Lowered(code: seq<GStmt>, names: seq<string>)

  function LowerAssign(k: Kernel, names: seq<string>, target: Option<string>, op: Option<H.Op>, value: KExpr): Option<GStmt> {
    if target.None? || target.value !in k.cols then None
    else if op.Some? && (!OpAllowed(k, op.value, value) || Compares(op.value)) then None
    else match LowerExpr(k, names, value, false)
      case None => None
      case Some(g) => Some(GAssign(target.value, op, g))
  }

  // Blocks are flattened; the names bound so far are carried along and never taken back.
  function LowerStmt(k: Kernel, names: seq<string>, s: KStmt): Option<Lowered>
    decreases s, 0
  {
    match s
    case KAssign(t, op, v) =>
      (match LowerAssign(k, names, t, op, v) case None => None case Some(a) => Some(Lowered([a], names)))
    case KBlock(ss) => LowerStmts(k, names, ss)
    case KBind(ns, init) =>
      if |ns| != 1 || init.None? || |names| >= MAX_LOCALS then None
      else
        (match LowerExpr(k, names, init.value, false)
         case None => None
         case Some(g) => Some(Lowered([GDecl(ns[0], g)], names + [ns[0]])))
    case KIf(c, t, e) =>
      (match LowerExpr(k, names, c, true)
       case None => None
       case Some(gc) =>
         match LowerStmts(k, names, t)
         case None => None
         case Some(gt) =>
           match LowerStmts(k, gt.names, e)
           case None => None
           case Some(ge) => Some(Lowered([GIf(gc, gt.code, e != [], ge.code)], ge.names)))
    case KOtherStmt => None
  }

  function LowerStmts(k: Kernel, names: seq<string>, ss: seq<KStmt>): Option<Lowered>
    decreases ss, 0
  {
    if ss == [] then Some(Lowered([], names))
    else match LowerStmt(k, names, ss[0])
      case None => None
      case Some(a) =>
        match LowerStmts(k, a.names, ss[1..]) case None => None case Some(b) => Some(Lowered(a.code + b.code, b.names))
  }

  // ---- literals ----

  // A leading zero makes GLSL read octal what the language reads as decimal.
  predicate LeadingZero(s: string) { |s| >= 2 && s[0] == '0' && IsDigit(s[1], 10) }

  lemma DigitsWide(s: string, a: nat, b: nat)
    requires AllDigits(s, a) && a <= b
    ensures AllDigits(s, b)
  {
  }

  lemma PowersGrow(k: nat)
    ensures Power(8, k) >= 1 && Power(10, k) >= Power(8, k) && (k >= 1 ==> Power(10, k) > Power(8, k))
  {
    if k >= 1 {
      PowersGrow(k - 1);
    }
  }

  lemma ScaleGrows(d: nat, p: nat, q: nat)
    requires p <= q
    ensures d * p <= d * q
    ensures p < q && d >= 1 ==> d * p < d * q
    ensures d >= 1 ==> q <= d * q
  {
    assert d * q - d * p == d * (q - p);
    if d >= 1 {
      assert d * q - q == (d - 1) * q;
    }
  }

  // Octal digits mean the same in both bases exactly when the number is below eight.
  lemma {:induction false} OctalIsDecimal(s: string)
    requires AllDigits(s, 8)
    ensures AllDigits(s, 10)
    ensures Positional(s, 8) <= Positional(s, 10)
    ensures Positional(s, 8) == Positional(s, 10) <==> Positional(s, 10) < 8
  {
    DigitsWide(s, 8, 10);
    if s != [] {
      var d, n := DigitVal(s[0]).value, |s| - 1;
      OctalIsDecimal(s[1..]);
      PowersGrow(n);
      ScaleGrows(d, Power(8, n), Power(10, n));
      if n == 0 {
        assert s[1..] == [];
      } else if d >= 1 {
        PowerAtLeast(n);
      }
    }
  }

  lemma PowerAtLeast(n: nat)
    requires n >= 1
    ensures Power(10, n) >= 10
  {
    PowersGrow(n - 1);
  }

  // The value of an accepted decimal or hexadecimal text in the language.
  lemma LanguageReads(s: string, base: nat, digits: string)
    requires (base == 10 || base == 16) && SplitBase(s) == (base, digits) && digits != [] && AllDigits(digits, base)
    requires Positional(digits, base) < U32_LIMIT && s[0] != '-' && s[0] != '+'
    ensures IntLit(s) == Some(Positional(digits, base))
  {
    hide Positional, Horner, Accumulate, IsDigit, Strip;
    NoSeparators(digits, base);
    StripNothing(digits);
    HornerIsPositional(digits, base, 0);
    AccumulateIsHorner(digits, base, 0, false);
  }

  // For every text without a sign that GLSL accepts as an integer: the language reads it too, and as the same number if
  // and only if it has no leading zero or is below eight.
  lemma UnsignedLiteralExact(s: string)
    requires GlslNat(s).Some?
    ensures IntLit(s).Some? && IntLit(s).value >= 0
    ensures GlslNat(s).value == IntLit(s).value <==> !LeadingZero(s) || IntLit(s).value < 8
    ensures !LeadingZero(s) ==> IntLit(s) == Some(GlslNat(s).value)
  {
    var p := CBase(s);
    FirstDigits(s);
    if p.0 == 16 {
      LanguageReads(s, 16, p.1);
    } else if p.0 == 10 {
      LanguageReads(s, 10, s);
    } else {
      OctalText(s);
    }
  }

  lemma FirstDigits(s: string)
    requires GlslNat(s).Some?
    ensures s != [] && s[0] != '-' && s[0] != '+'
    ensures CBase(s).0 == 8 ==> |s| >= 2 && s[0] == '0' && IsDigit(s[1], 8)
    ensures CBase(s).0 == 10 ==> SplitBase(s) == (10, s) && !LeadingZero(s)
    ensures CBase(s).0 == 8 ==> SplitBase(s) == (10, s) && LeadingZero(s)
    ensures CBase(s).0 == 16 ==> SplitBase(s) == CBase(s) && !LeadingZero(s)
  {
    var p := CBase(s);
    assert IsDigit(p.1[0], p.0);
  }

  lemma OctalText(s: string)
    requires GlslNat(s).Some? && CBase(s).0 == 8 && SplitBase(s) == (10, s)
    ensures IntLit(s).Some? && IntLit(s).value >= 0
    ensures GlslNat(s).value == IntLit(s).value <==> IntLit(s).value < 8
  {
    hide Power, Strip, Accumulate, Horner;
    var t := s[1..];
    OctalIsDecimal(t);
    assert AllDigits(s, 10) by {
      assert IsDigit(s[0], 10);
      assert forall i :: 1 <= i < |s| ==> s[i] == t[i - 1];
    }
    assert Positional(s, 10) == Positional(t, 10);
    OctalSmall(t);
    NoSeparators(s, 10);
    StripNothing(s);
    HornerIsPositional(s, 10, 0);
    AccumulateIsHorner(s, 10, 0, false);
  }

  // A 32-bit number has at most eleven octal digits after its leading zeros, so its text is a small decimal number.
  lemma {:induction false} OctalSmall(t: string)
    requires AllDigits(t, 8) && AllDigits(t, 10) && Positional(t, 8) < U32_LIMIT
    ensures Positional(t, 10) < I64_MAX
    decreases |t|
  {
    if t != [] {
      var d, n := DigitVal(t[0]).value, |t| - 1;
      if d == 0 {
        OctalSmall(t[1..]);
      } else {
        ScaleLeft(1, d, Power(8, n));
        if n >= 11 {
          OctalPower();
          OctalMono(11, n);
        }
        EighteenDigits(t);
      }
    }
  }

  lemma OctalPower()
    ensures Power(8, 11) > U32_LIMIT
  {
    assert Power(8, 5) == 32768;
    assert Power(8, 11) == 8 * (8 * (8 * (8 * (8 * (8 * Power(8, 5))))));
  }

  lemma {:induction false} OctalMono(a: nat, b: nat)
    requires a <= b
    ensures Power(8, a) <= Power(8, b)
    decreases b - a
  {
    if a < b {
      OctalMono(a + 1, b);
    }
  }

  lemma {:induction false} DigitsBound(s: string)
    requires AllDigits(s, 10)
    ensures Positional(s, 10) < Power(10, |s|)
  {
    if s != [] {
      DigitsBound(s[1..]);
      var d, p := DigitVal(s[0]).value, Power(10, |s| - 1);
      assert d * p <= 9 * p by { ScaleLeft(d, 9, p); }
    }
  }

  lemma ScaleLeft(a: nat, b: nat, p: nat)
    requires a <= b
    ensures a * p <= b * p
  {
    assert b * p - a * p == (b - a) * p;
  }

  lemma {:induction false} PowerMono(a: nat, b: nat)
    requires a <= b
    ensures Power(10, a) <= Power(10, b)
    decreases b - a
  {
    if a < b {
      PowerMono(a + 1, b);
    }
  }

  lemma EighteenDigits(t: string)
    requires AllDigits(t, 10) && |t| <= 18
    ensures Positional(t, 10) < I64_MAX
  {
    DigitsBound(t);
    PowerMono(|t|, 18);
    assert Power(10, 6) == 1000000;
    assert Power(10, 12) == 10 * (10 * (10 * (10 * (10 * (10 * Power(10, 6))))));
    assert Power(10, 18) == 10 * (10 * (10 * (10 * (10 * (10 * Power(10, 12))))));
  }

  // For every text GLSL accepts as an integer, of any length, with or without a minus sign: the language reads it too,
  // and as the same number if and only if its digits have no leading zero or the number is less than eight from zero.
  lemma LiteralExact(s: string)
    requires GlslInt(s).Some?
    ensures IntLit(s).Some?
    ensures GlslInt(s) == IntLit(s) <==> !LeadingZero(if s[0] == '-' then s[1..] else s) || -8 < IntLit(s).value < 8
  {
    hide Accumulate;
    if s != [] && s[0] == '-' {
      var u := s[1..];
      UnsignedLiteralExact(u);
      FirstDigits(u);
      assert IntLit(s) == Some(-IntLit(u).value);
    } else {
      UnsignedLiteralExact(s);
      FirstDigits(s);
    }
  }

  // "010" is ten in the language and eight in the shader.
  lemma LeadingZeroDiffers()
    ensures IntLit("010") == Some(10) && GlslInt("010") == Some(8)
  {
    var t := "10";
    assert "010"[1..] == t && t[1..] == "0" && "0"[1..] == "";
    assert Power(8, 1) == 8 * Power(8, 0);
    assert Positional(t, 8) == 8 + Positional("0", 8);
    assert AllDigits(t, 8);
    assert CBase("010") == (8, t);
    assert Accumulate("010", 10, 0, false) == Accumulate("10", 10, 0, true);
    assert Accumulate("10", 10, 0, true) == Accumulate("0", 10, 1, true);
    assert Accumulate("0", 10, 1, true) == Accumulate("", 10, 10, true);
  }

  // The divisor test reads the text as GLSL does.
  lemma DivisorReads(s: string)
    requires GlslInt(s).Some?
    ensures StrtolAuto(s) == GlslInt(s).value
  {
    var u := if s[0] == '-' then s[1..] else s;
    FirstDigits(u);
    var p := CBase(u);
    assert SkipSpaces(s) == s;
    HornerIsPositional(p.1, p.0, 0);
    if p.0 == 16 {
      assert IsDigit(p.1[0], 16) && u[2] == p.1[0];
    }
  }

  lemma SignedLiteralReads(lx: string)
    requires GlslInt(lx).Some? && IntLit(lx).Some?
    requires !LeadingZero(if lx != [] && lx[0] == '-' then lx[1..] else lx)
    ensures GlslInt(lx) == IntLit(lx)
  {
    if lx[0] == '-' {
      UnsignedLiteralExact(lx[1..]);
      FirstDigits(lx[1..]);
      assert lx[1..] != [] && lx[1..][0] != '-' && lx[1..][0] != '+';
    } else {
      UnsignedLiteralExact(lx);
    }
  }

  // ---- names ----

  predicate IsConst(k: Kernel, x: string) { exists i :: 0 <= i < |k.consts| && k.consts[i].0 == x }

  lemma {:induction false} ConstIs(cs: seq<(string, Option<string>)>, name: string)
    ensures ConstLexeme(cs, name).Some? ==>
              exists i :: 0 <= i < |cs| && cs[i].0 == name && cs[i].1 == ConstLexeme(cs, name)
  {
    if cs != [] && cs[0].0 != name && ConstLexeme(cs[1..], name).Some? {
      ConstIs(cs[1..], name);
      var i :| 0 <= i < |cs[1..]| && cs[1..][i].0 == name && cs[1..][i].1 == ConstLexeme(cs[1..], name);
      assert cs[i + 1].0 == name && cs[i + 1].1 == ConstLexeme(cs, name);
    }
  }

  lemma {:induction false} NamesLonger(k: Kernel, names: seq<string>, ss: seq<KStmt>)
    requires LowerStmts(k, names, ss).Some?
    ensures names <= LowerStmts(k, names, ss).value.names
    decreases ss, 0
  {
    if ss != [] {
      NameLonger(k, names, ss[0]);
      NamesLonger(k, LowerStmt(k, names, ss[0]).value.names, ss[1..]);
    }
  }

  lemma {:induction false} NameLonger(k: Kernel, names: seq<string>, s: KStmt)
    requires LowerStmt(k, names, s).Some?
    ensures names <= LowerStmt(k, names, s).value.names
    decreases s, 0
  {
    match s
    case KBlock(ss) => NamesLonger(k, names, ss);
    case KIf(c, t, e) =>
      NamesLonger(k, names, t);
      NamesLonger(k, LowerStmts(k, names, t).value.names, e);
    case _ =>
  }

  // ---- division ----

  // Every integer division has a literal divisor other than zero.
  predicate SafeDivisors(kind: Kind, g: GExpr) {
    match g
    case GNeg(e) => SafeDivisors(kind, e)
    case GBin(op, l, r) =>
      && SafeDivisors(kind, l) && SafeDivisors(kind, r)
      && ((op == H.Div || op == H.Mod) && kind != FloatKind ==> r.GLit? && GlslInt(r.text).Some? && GlslInt(r.text).value != 0)
    case GCast(e) => SafeDivisors(kind, e)
    case GSel(c, a, b) => SafeDivisors(kind, c) && SafeDivisors(kind, a) && SafeDivisors(kind, b)
    case GSqrt(e) => SafeDivisors(kind, e)
    case _ => true
  }

  // Somewhere in the expression an integer is divided by zero on this row.
  predicate DividesByZero(kind: Kind, d: Driver, row: Row, vars: Scope, g: GExpr) {
    match g
    case GNeg(e) => DividesByZero(kind, d, row, vars, e)
    case GBin(op, l, r) =>
      || DividesByZero(kind, d, row, vars, l) || DividesByZero(kind, d, row, vars, r)
      || ((op == H.Div || op == H.Mod) && kind != FloatKind && GEval(kind, d, row, vars, r) == Some(GV(N(0))))
    case GCast(e) => DividesByZero(kind, d, row, vars, e)
    case GSel(c, a, b) =>
      DividesByZero(kind, d, row, vars, c) || DividesByZero(kind, d, row, vars, a) || DividesByZero(kind, d, row, vars, b)
    case GSqrt(e) => DividesByZero(kind, d, row, vars, e)
    case _ => false
  }

  // No column or variable has the name of a constant, so the divisor test looks at what is emitted.
  predicate ConstsVisible(k: Kernel, names: seq<string>) {
    (forall i :: 0 <= i < |k.cols| ==> !IsConst(k, k.cols[i])) && (forall i :: 0 <= i < |names| ==> !IsConst(k, names[i]))
  }

  lemma DivisorEmitted(k: Kernel, names: seq<string>, e: KExpr, vars: set<string>)
    requires ConstsVisible(k, names) && k.kind != FloatKind && NonzeroConst(k, e) && LowerExpr(k, names, e, false).Some?
    requires GType(k.kind, vars, LowerExpr(k, names, e, false).value).Some?
    ensures var g := LowerExpr(k, names, e, false).value;
            g.GLit? && GlslInt(g.text).Some? && GlslInt(g.text).value != 0
  {
    hide GlslInt, StrtolAuto;
    if e.KName? {
      ConstIs(k.consts, e.name);
    }
    var g := LowerExpr(k, names, e, false).value;
    DivisorReads(g.text);
  }

  lemma {:induction false} EmittedDivisorsSafe(k: Kernel, names: seq<string>, e: KExpr, bools: bool, vars: set<string>)
    requires ConstsVisible(k, names) && LowerExpr(k, names, e, bools).Some?
    requires GType(k.kind, vars, LowerExpr(k, names, e, bools).value).Some?
    ensures SafeDivisors(k.kind, LowerExpr(k, names, e, bools).value)
    decreases e
  {
    hide NonzeroConst, ConstsVisible, LowerLit, GlslInt;
    match e
    case KUnary(_, x) => EmittedDivisorsSafe(k, names, x, false, vars);
    case KBinary(op, l, r) =>
      EmittedDivisorsSafe(k, names, l, false, vars);
      EmittedDivisorsSafe(k, names, r, false, vars);
      if (op == H.Div || op == H.Mod) && k.kind != FloatKind {
        DivisorEmitted(k, names, r, vars);
      }
    case KCall(fn, args) =>
      if fn == "select" && |args| == 3 {
        EmittedDivisorsSafe(k, names, args[0], true, vars);
        EmittedDivisorsSafe(k, names, args[1], false, vars);
        EmittedDivisorsSafe(k, names, args[2], false, vars);
      } else {
        EmittedDivisorsSafe(k, names, args[0], false, vars);
      }
    case KLit(lx) => LitIsLit(k, lx);
    case KName(n) =>
      if n !in k.cols && n !in names {
        LitIsLit(k, ConstLexeme(k.consts, n).value);
      }
    case KOther =>
  }

  lemma LitIsLit(k: Kernel, lx: string)
    ensures LowerLit(k, lx).Some? ==> LowerLit(k, lx).value.GLit?
  {
  }

  lemma {:induction false} SafeNeverZero(kind: Kind, d: Driver, row: Row, vars: Scope, g: GExpr)
    requires SafeDivisors(kind, g)
    ensures !DividesByZero(kind, d, row, vars, g)
    decreases g
  {
    hide GlslInt;
    match g
    case GNeg(e) => SafeNeverZero(kind, d, row, vars, e);
    case GBin(op, l, r) =>
      SafeNeverZero(kind, d, row, vars, l);
      SafeNeverZero(kind, d, row, vars, r);
      if r.GLit? && kind != FloatKind && GlslInt(r.text).Some? && GlslInt(r.text).value != 0 {
        SmallNonzero(kind, r.text);
      }
    case GCast(e) => SafeNeverZero(kind, d, row, vars, e);
    case GSel(c, a, b) =>
      SafeNeverZero(kind, d, row, vars, c);
      SafeNeverZero(kind, d, row, vars, a);
      SafeNeverZero(kind, d, row, vars, b);
    case GSqrt(e) => SafeNeverZero(kind, d, row, vars, e);
    case _ =>
  }

  lemma SmallNonzero(kind: Kind, t: string)
    requires GlslInt(t).Some? && GlslInt(t).value != 0
    ensures Norm(kind, GlslInt(t).value) != 0
  {
  }

  // Whatever the row holds, no integer division in an emitted expression has a zero divisor.
  lemma NoDivisionByZero(k: Kernel, d: Driver, names: seq<string>, row: Row, vars: Scope, e: KExpr, bools: bool)
    requires ConstsVisible(k, names) && LowerExpr(k, names, e, bools).Some?
    requires GType(k.kind, vars.Keys, LowerExpr(k, names, e, bools).value).Some?
    ensures !DividesByZero(k.kind, d, row, vars, LowerExpr(k, names, e, bools).value)
  {
    EmittedDivisorsSafe(k, names, e, bools, vars.Keys);
    SafeNeverZero(k.kind, d, row, vars, LowerExpr(k, names, e, bools).value);
  }

  // ---- division in statements ----

  // Executing the statement, or what follows it, an integer is divided by zero. Execution ends at an undefined
  // statement.
  predicate StmtDividesByZero(kind: Kind, d: Driver, f: Effect, s: GStmt)
    decreases s, 0
  {
    match s
    case GAssign(c, op, e) => DividesByZero(kind, d, f.row, f.locals, Rhs(c, op, e))
    case GDecl(_, e) => DividesByZero(kind, d, f.row, f.locals, e)
    case GIf(c, t, _, e) =>
      || DividesByZero(kind, d, f.row, f.locals, c)
      || (match GEval(kind, d, f.row, f.locals, c)
          case Some(GB(b)) => if b then CodeDividesByZero(kind, d, f, t) else CodeDividesByZero(kind, d, f, e)
          case _ => false)
  }

  predicate CodeDividesByZero(kind: Kind, d: Driver, f: Effect, ss: seq<GStmt>)
    decreases ss, 1
  {
    ss != []
    && (StmtDividesByZero(kind, d, f, ss[0])
        || match GExec(kind, d, f, ss[0]) case None => false case Some(g) => CodeDividesByZero(kind, d, g, ss[1..]))
  }

  // Every integer division in the code has a literal divisor other than zero.
  predicate DivisorsSafe(kind: Kind, s: GStmt)
    decreases s, 0
  {
    match s
    case GAssign(c, op, e) => SafeDivisors(kind, Rhs(c, op, e))
    case GDecl(_, e) => SafeDivisors(kind, e)
    case GIf(c, t, _, e) => SafeDivisors(kind, c) && SafeCode(kind, t) && SafeCode(kind, e)
  }

  predicate SafeCode(kind: Kind, ss: seq<GStmt>)
    decreases ss, 1
  {
    ss == [] || (DivisorsSafe(kind, ss[0]) && SafeCode(kind, ss[1..]))
  }

  lemma {:induction false} SafeJoin(kind: Kind, a: seq<GStmt>, b: seq<GStmt>)
    requires SafeCode(kind, a) && SafeCode(kind, b)
    ensures SafeCode(kind, a + b)
    decreases |a|
  {
    hide DivisorsSafe;
    if a == [] {
      assert a + b == b;
    } else {
      assert (a + b)[0] == a[0] && (a + b)[1..] == a[1..] + b;
      SafeJoin(kind, a[1..], b);
    }
  }

  lemma {:induction false} SafeStmtNever(kind: Kind, d: Driver, f: Effect, s: GStmt)
    requires DivisorsSafe(kind, s)
    ensures !StmtDividesByZero(kind, d, f, s)
    decreases s, 0
  {
    hide SafeDivisors, DividesByZero;
    match s
    case GAssign(c, op, e) => SafeNeverZero(kind, d, f.row, f.locals, Rhs(c, op, e));
    case GDecl(_, e) => SafeNeverZero(kind, d, f.row, f.locals, e);
    case GIf(c, t, _, e) =>
      SafeNeverZero(kind, d, f.row, f.locals, c);
      SafeCodeNever(kind, d, f, t);
      SafeCodeNever(kind, d, f, e);
  }

  lemma {:induction false} SafeCodeNever(kind: Kind, d: Driver, f: Effect, ss: seq<GStmt>)
    requires SafeCode(kind, ss)
    ensures !CodeDividesByZero(kind, d, f, ss)
    decreases ss, 1
  {
    hide DivisorsSafe, StmtDividesByZero, GExec;
    if ss != [] {
      SafeStmtNever(kind, d, f, ss[0]);
      if GExec(kind, d, f, ss[0]).Some? {
        SafeCodeNever(kind, d, GExec(kind, d, f, ss[0]).value, ss[1..]);
      }
    }
  }

  // Fewer names hide fewer constants.
  lemma FewerNames(k: Kernel, a: seq<string>, b: seq<string>)
    requires ConstsVisible(k, b) && a <= b
    ensures ConstsVisible(k, a)
  {
  }

  lemma AssignSafe(k: Kernel, names: seq<string>, s: KStmt, outer: set<string>, here: set<string>)
    requires s.KAssign? && ConstsVisible(k, names) && LowerStmt(k, names, s).Some?
    requires GCheckAll(k.kind, outer, here, LowerStmt(k, names, s).value.code).Some?
    ensures SafeCode(k.kind, LowerStmt(k, names, s).value.code)
  {
    hide NonzeroConst, ConstsVisible, GlslInt, SafeDivisors, LowerExpr;
    var code := LowerStmt(k, names, s).value.code;
    var a := code[0];
    assert code[1..] == [];
    EmittedDivisorsSafe(k, names, s.value, false, outer + here);
    if a.gop.Some? {
      if (a.gop.value == H.Div || a.gop.value == H.Mod) && k.kind != FloatKind {
        DivisorEmitted(k, names, s.value, outer + here);
      }
      UpdateSafe(k.kind, a.col, a.gop.value, a.value);
    }
  }

  lemma UpdateSafe(kind: Kind, c: string, op: H.Op, e: GExpr)
    requires SafeDivisors(kind, e)
    requires (op == H.Div || op == H.Mod) && kind != FloatKind ==> e.GLit? && GlslInt(e.text).Some? && GlslInt(e.text).value != 0
    ensures SafeDivisors(kind, Rhs(c, Some(op), e))
  {
    hide GlslInt;
  }

  lemma {:induction false} StmtSafe(k: Kernel, names: seq<string>, s: KStmt, outer: set<string>, here: set<string>)
    requires LowerStmt(k, names, s).Some? && ConstsVisible(k, LowerStmt(k, names, s).value.names)
    requires GCheckAll(k.kind, outer, here, LowerStmt(k, names, s).value.code).Some?
    ensures SafeCode(k.kind, LowerStmt(k, names, s).value.code)
    decreases s, 0
  {
    hide NonzeroConst, ConstsVisible, GlslInt, SafeDivisors, LowerExpr, GType;
    NameLonger(k, names, s);
    FewerNames(k, names, LowerStmt(k, names, s).value.names);
    var code := LowerStmt(k, names, s).value.code;
    match s
    case KAssign(_, _, _) => AssignSafe(k, names, s, outer, here);
    case KBlock(ss) => CodeSafe(k, names, ss, outer, here);
    case KBind(_, init) =>
      assert code[1..] == [];
      EmittedDivisorsSafe(k, names, init.value, false, outer + here);
    case KIf(c, t, e) =>
      assert code[1..] == [];
      var gt := LowerStmts(k, names, t).value;
      NamesLonger(k, names, t);
      NamesLonger(k, gt.names, e);
      FewerNames(k, gt.names, LowerStmts(k, gt.names, e).value.names);
      EmittedDivisorsSafe(k, names, c, true, outer + here);
      CodeSafe(k, names, t, outer + here, {});
      CodeSafe(k, gt.names, e, outer + here, {});
    case KOtherStmt =>
  }

  lemma {:induction false} CodeSafe(k: Kernel, names: seq<string>, ss: seq<KStmt>, outer: set<string>, here: set<string>)
    requires LowerStmts(k, names, ss).Some? && ConstsVisible(k, LowerStmts(k, names, ss).value.names)
    requires GCheckAll(k.kind, outer, here, LowerStmts(k, names, ss).value.code).Some?
    ensures SafeCode(k.kind, LowerStmts(k, names, ss).value.code)
    decreases ss, 0
  {
    hide ConstsVisible, LowerStmt, GCheck, DivisorsSafe;
    if ss != [] {
      var a := LowerStmt(k, names, ss[0]).value;
      var b := LowerStmts(k, a.names, ss[1..]).value;
      NamesLonger(k, a.names, ss[1..]);
      FewerNames(k, a.names, b.names);
      CheckSplit(k.kind, outer, here, a.code, b.code);
      StmtSafe(k, names, ss[0], outer, here);
      CodeSafe(k, a.names, ss[1..], outer, GCheckAll(k.kind, outer, here, a.code).value);
      SafeJoin(k.kind, a.code, b.code);
    }
  }

  lemma {:induction false} CheckSplit(kind: Kind, outer: set<string>, here: set<string>, a: seq<GStmt>, b: seq<GStmt>)
    ensures GCheckAll(kind, outer, here, a + b) ==
            (match GCheckAll(kind, outer, here, a) case None => None case Some(h) => GCheckAll(kind, outer, h, b))
    decreases |a|
  {
    hide GCheck;
    if a == [] {
      assert a + b == b;
    } else {
      assert (a + b)[0] == a[0] && (a + b)[1..] == a[1..] + b;
      if GCheck(kind, outer, here, a[0]).Some? {
        CheckSplit(kind, outer, GCheck(kind, outer, here, a[0]).value, a[1..], b);
      }
    }
  }

  // For every accepted body whose shader compiles, on every row and from every state of its variables, compound
  // assignments and nested blocks included: no integer is divided by zero, whatever else may be undefined.
  lemma NoDivisionByZeroAnywhere(k: Kernel, d: Driver, ss: seq<KStmt>, f: Effect)
    requires LowerStmts(k, [], ss).Some? && ConstsVisible(k, LowerStmts(k, [], ss).value.names)
    requires Compiles(k.kind, LowerStmts(k, [], ss).value.code)
    ensures !CodeDividesByZero(k.kind, d, f, LowerStmts(k, [], ss).value.code)
  {
    CodeSafe(k, [], ss, {}, {});
    SafeCodeNever(k.kind, d, f, LowerStmts(k, [], ss).value.code);
  }

  predicate ZeroOn(kind: Kind, d: Driver, g: GExpr, row: Row, vars: Scope) { DividesByZero(kind, d, row, vars, g) }

  // The divisor test goes by the constant's name, the lowering by column and variable first: a division or remainder
  // by a name that passes the test can divide by zero if and only if a column or variable hides the constant. This is
  // so for every dividend that does not divide by zero itself.
  lemma NamedDivisorExact(k: Kernel, d: Driver, names: seq<string>, a: KExpr, op: H.Op, n: string)
    requires k.kind != FloatKind && (op == H.Div || op == H.Mod) && NonzeroConst(k, KName(n))
    requires LowerExpr(k, names, KBinary(op, a, KName(n)), false).Some?
    requires exists vars :: GType(k.kind, vars, LowerExpr(k, names, KBinary(op, a, KName(n)), false).value).Some?
    requires SafeDivisors(k.kind, LowerExpr(k, names, a, false).value)
    ensures var g := LowerExpr(k, names, KBinary(op, a, KName(n)), false).value;
            (exists row, vars :: ZeroOn(k.kind, d, g, row, vars)) <==> n in k.cols || n in names
  {
    hide StrtolAuto, GlslInt;
    var g := LowerExpr(k, names, KBinary(op, a, KName(n)), false).value;
    if n in k.cols {
      var row: Row, vars: Scope := map[n := N(0)], map[];
      assert GEval(k.kind, d, row, vars, g.r) == Some(GV(N(0)));
      assert ZeroOn(k.kind, d, g, row, vars);
    } else if n in names {
      var row: Row, vars: Scope := map[], map[n := N(0)];
      assert GEval(k.kind, d, row, vars, g.r) == Some(GV(N(0)));
      assert ZeroOn(k.kind, d, g, row, vars);
    } else {
      DivisorReads(g.r.text);
      forall row, vars
        ensures !ZeroOn(k.kind, d, g, row, vars)
      {
        SafeNeverZero(k.kind, d, row, vars, g);
      }
    }
  }
}

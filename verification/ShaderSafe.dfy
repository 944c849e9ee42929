// A test of a map's text: from what each expression can be worth, whether its shader can differ from the CPU's loop.
module ShaderSafe {
  import opened Bytes
  import opened Values
  import opened IntLiterals
  import opened ShaderLang
  import opened ShaderFits
  import opened ShaderLower
  import opened ShaderMeans
  import H = Hir

  // ---- what an expression can be worth ----

  // Integers between two bounds, a float other than zero and NaN, or any float.
  datatype Range = Ints(lo: int, hi: int) | Nonzero | Floats

  predicate Wf(r: Range) { r.Ints? ==> r.lo <= r.hi }

  predicate In(d: Driver, r: Range, v: V) {
    match r
    case Ints(lo, hi) => v.N? && lo <= v.n <= hi
    case Nonzero => v.R? && Number(d, v.bits) && v.bits != d.ofInt(0)
    case Floats => v.R?
  }

  predicate Has(r: Range, n: int) { r.Ints? && r.lo <= n <= r.hi }

  // Integers that are exact floats.
  predicate Precise(r: Range) { r.Ints? ==> Exact(r.lo) && Exact(r.hi) }

  function Whole(kind: Kind): Range { if kind == UintKind then Ints(0, U32_LIMIT - 1) else Ints(-I32_LIMIT, I32_LIMIT - 1) }

  // The range, if its numbers are 32-bit ones.
  function Fit(kind: Kind, lo: int, hi: int): Range {
    if InRange(kind, lo) && InRange(kind, hi) then Ints(lo, hi) else Whole(kind)
  }

  function Max(a: int, b: int): int { if a < b then b else a }
  function Min(a: int, b: int): int { if a < b then a else b }

  function LitRange(kind: Kind, lx: string): Range {
    match IntLit(lx)
    case Some(n) => var m: int := if kind == UintKind then n % U32_LIMIT else n; Ints(m, m)
    case None => if NonzeroText(lx) then Nonzero else Floats
  }

  function Both(a: Range, b: Range): Range {
    if a.Ints? && b.Ints? then Ints(Min(a.lo, b.lo), Max(a.hi, b.hi)) else if a == b then a else Floats
  }

  function OpRange(kind: Kind, op: H.Op, a: Range, b: Range): Range {
    if Compares(op) then Ints(0, 1)
    else if !a.Ints? || !b.Ints? then Floats
    else match op
      case Add => Fit(kind, a.lo + b.lo, a.hi + b.hi)
      case Sub => Fit(kind, a.lo - b.hi, a.hi - b.lo)
      case Mul => if a.lo >= 0 && b.lo >= 0 then Fit(kind, a.lo * b.lo, a.hi * b.hi) else Whole(kind)
      case _ => Whole(kind)
  }

  function UnaryRange(kind: Kind, op: UnaryOp, a: Range): Range {
    match op
    case Neg => if a.Ints? then Fit(kind, -a.hi, -a.lo) else Floats
    case Not => Ints(0, 1)
    case _ => a
  }

  // What is known of the variables.
  datatype Known = Known(types: Types, ranges: map<string, Range>)

  function RangeOf(k: Kernel, w: Known, e: KExpr): Range {
    match e
    case KName(n) =>
      (match ConstLexeme(k.consts, n)
       case Some(lx) => LitRange(k.kind, lx)
       case None =>
         if n in k.cols then (if k.kind == FloatKind then Floats else Whole(k.kind))
         else if n in w.ranges then w.ranges[n] else Floats)
    case KLit(lx) => LitRange(k.kind, lx)
    case KUnary(op, x) => UnaryRange(k.kind, op, RangeOf(k, w, x))
    case KBinary(op, l, r) => OpRange(k.kind, op, RangeOf(k, w, l), RangeOf(k, w, r))
    case KCall(fn, args) => if fn == "select" && |args| == 3 then Both(RangeOf(k, w, args[1]), RangeOf(k, w, args[2])) else Floats
    case KOther => Floats
  }

  // ---- when an operation is safe ----

  // Every integer of the range is divided by c without a remainder, and no minus zero comes out.
  predicate DividesAll(r: Range, c: int)
    requires r.Ints?
  {
    && c != 0
    && (if r.lo == r.hi then r.lo % c == 0 && !(r.lo == 0 && c < 0) else c == 1 || (c == -1 && !Has(r, 0)))
  }

  predicate IntSafe(op: H.Op, a: Range, b: Range)
    requires a.Ints? && b.Ints?
  {
    match op
    case Mul =>
      && InI32(a.lo * b.lo) && InI32(a.lo * b.hi) && InI32(a.hi * b.lo) && InI32(a.hi * b.hi)
      && !(Has(a, 0) && b.lo < 0) && !(Has(b, 0) && a.lo < 0)
    case Div => b.lo == b.hi && DividesAll(a, b.lo)
    case _ => true
  }

  // A divisor with the sign bit.
  predicate HighDivisor(r: Range, c: int)
    requires r.Ints?
  {
    && (r.hi >= SIGN_BIT ==> r.hi == c && Max(r.lo, SIGN_BIT) == c)
    && (r.lo < SIGN_BIT ==> Min(r.hi, SIGN_BIT - 1) + c < U32_LIMIT)
  }

  predicate SignSafe(op: H.Op, a: Range, b: Range)
    requires a.Ints? && b.Ints?
  {
    match op
    case Div => b.lo == b.hi && (if b.lo < SIGN_BIT then a.hi < SIGN_BIT || b.lo == 1 else HighDivisor(a, b.lo))
    case Mod =>
      && b.lo == b.hi
      && (if b.lo < SIGN_BIT then
            || a.hi < SIGN_BIT || b.lo == 1
            || (b.lo > 0 && Max(a.lo, SIGN_BIT) == a.hi && a.hi % b.lo == 0 && (U32_LIMIT - a.hi) % b.lo == 0)
          else HighDivisor(a, b.lo))
    case _ =>
      H.Sensitive(op) ==> (a.hi < SIGN_BIT && b.hi < SIGN_BIT) || (a.lo >= SIGN_BIT && b.lo >= SIGN_BIT)
  }

  predicate OpSafe(kind: Kind, sgn: bool, op: H.Op, a: Range, b: Range) {
    if !a.Ints? || !b.Ints? then (op == H.Neq ==> !a.Floats? && !b.Floats? && Precise(a) && Precise(b))
    else match kind
      case FloatKind => IntSafe(op, a, b)
      case UintKind => sgn ==> SignSafe(op, a, b)
      case IntKind => true
  }

  predicate NegSafe(kind: Kind, r: Range) {
    kind == FloatKind ==>
      match r
      case Ints(lo, hi) => !Has(r, 0) && lo > -I32_LIMIT
      case Nonzero => true
      case Floats => false
  }

  ghost predicate OpFitsIn(kind: Kind, d: Driver, sgn: bool, op: H.Op, a: Range, b: Range) {
    forall u, v :: In(d, a, u) && In(d, b, v) ==> OpFits(kind, d, sgn, op, u, v)
  }

  ghost predicate NegFitsIn(kind: Kind, d: Driver, r: Range) { forall v :: In(d, r, v) ==> NegFits(kind, d, v) }

  // ---- the test of one operation is exact ----

  lemma Between(a: int, lo: int, hi: int, b: int)
    requires lo <= a <= hi && InI32(lo * b) && InI32(hi * b)
    ensures InI32(a * b)
  {
    Scale(lo, a, b);
    Scale(a, hi, b);
  }

  lemma Scale(x: int, y: int, b: int)
    requires x <= y
    ensures b >= 0 ==> x * b <= y * b
    ensures b < 0 ==> y * b <= x * b
  {
    assert y * b - x * b == (y - x) * b;
  }

  lemma Commutes(a: int, b: int)
    ensures a * b == b * a
  {
  }

  lemma Corners(a: int, b: int, ra: Range, rb: Range)
    requires ra.Ints? && rb.Ints? && Has(ra, a) && Has(rb, b)
    requires InI32(ra.lo * rb.lo) && InI32(ra.lo * rb.hi) && InI32(ra.hi * rb.lo) && InI32(ra.hi * rb.hi)
    ensures InI32(a * b)
  {
    hide InI32;
    assert InI32(ra.lo * b) by {
      Commutes(ra.lo, rb.lo);
      Commutes(ra.lo, rb.hi);
      Commutes(ra.lo, b);
      Between(b, rb.lo, rb.hi, ra.lo);
    }
    assert InI32(ra.hi * b) by {
      Commutes(ra.hi, rb.lo);
      Commutes(ra.hi, rb.hi);
      Commutes(ra.hi, b);
      Between(b, rb.lo, rb.hi, ra.hi);
    }
    Between(a, ra.lo, ra.hi, b);
  }

  lemma MulSafe(a: int, b: int, ra: Range, rb: Range)
    requires ra.Ints? && rb.Ints? && Has(ra, a) && Has(rb, b) && IntSafe(H.Mul, ra, rb)
    ensures IntFits(H.Mul, a, b)
  {
    Corners(a, b, ra, rb);
    if a * b == 0 {
      assert a == 0 || b == 0 by { NoZeroFactors(a, b); }
    }
  }

  lemma NoZeroFactors(a: int, b: int)
    requires a * b == 0
    ensures a == 0 || b == 0
  {
  }

  lemma DivSafe(a: int, c: int, ra: Range)
    requires ra.Ints? && Has(ra, a) && DividesAll(ra, c)
    ensures IntFits(H.Div, a, c)
  {
  }

  lemma SignSafeFits(op: H.Op, a: int, b: int, ra: Range, rb: Range)
    requires ra.Ints? && rb.Ints? && Has(ra, a) && Has(rb, b) && SignSafe(op, ra, rb) && ra.lo >= 0 && rb.lo >= 0
    requires op == H.Div || op == H.Mod ==> b != 0
    ensures SignFits(op, a, b)
  {
  }

  // For every operator and all ranges: a safe operation fits whatever its operands are.
  lemma OpSafeFits(kind: Kind, d: Driver, sgn: bool, op: H.Op, a: Range, b: Range, u: V, v: V)
    requires Integers(d) && In(d, a, u) && In(d, b, v) && OpSafe(kind, sgn, op, a, b)
    requires kind == UintKind && a.Ints? && b.Ints? ==> a.lo >= 0 && b.lo >= 0
    requires u.N? && v.N? && (op == H.Div || op == H.Mod) ==> v.n != 0
    ensures OpFits(kind, d, sgn, op, u, v)
  {
    hide SignFits, IntFits, SignSafe, IntSafe;
    if u.R? || v.R? {
      if op == H.Neq {
        NumberIn(d, a, u);
        NumberIn(d, b, v);
      }
    } else if kind == FloatKind {
      IntSafeFits(op, u.n, v.n, a, b);
    } else if kind == UintKind && sgn {
      SignSafeFits(op, u.n, v.n, a, b);
    }
  }

  lemma IntSafeFits(op: H.Op, a: int, b: int, ra: Range, rb: Range)
    requires ra.Ints? && rb.Ints? && Has(ra, a) && Has(rb, b) && IntSafe(op, ra, rb)
    ensures IntFits(op, a, b)
  {
    if op == H.Mul {
      MulSafe(a, b, ra, rb);
    } else if op == H.Div {
      DivSafe(a, b, ra);
    }
  }

  lemma NumberIn(d: Driver, r: Range, v: V)
    requires Integers(d) && In(d, r, v) && !r.Floats? && Precise(r)
    ensures Number(d, Promoted(d, v))
  {
    if v.N? {
      WrapIdentity(v.n);
      assert PairOk(d, v.n, v.n);
    }
  }

  lemma NegSafeFits(kind: Kind, d: Driver, r: Range, v: V)
    requires In(d, r, v) && NegSafe(kind, r)
    ensures NegFits(kind, d, v) && NegDecided(kind, d, v)
  {
  }

  // And one that is not safe does not fit some values of these ranges.
  lemma SignFitsSafe(d: Driver, op: H.Op, a: Range, b: Range)
    requires a.Ints? && b.Ints? && 0 <= a.lo <= a.hi < U32_LIMIT && 0 <= b.lo <= b.hi < U32_LIMIT && HasGlslOp(op)
    requires op == H.Div || op == H.Mod ==> b.lo == b.hi != 0
    requires OpFitsIn(UintKind, d, true, op, a, b)
    ensures SignSafe(op, a, b)
  {
    hide OpFitsIn, SignFits;
    var x, y := Max(a.lo, SIGN_BIT), Min(a.hi, SIGN_BIT - 1);
    forall m, n | Has(a, m) && Has(b, n)
      ensures SignFits(op, m, n)
    {
      Fitting(UintKind, d, true, op, a, b, m, n);
    }
    Applied(op, a, b);
  }

  lemma Fitting(kind: Kind, d: Driver, sgn: bool, op: H.Op, a: Range, b: Range, m: int, n: int)
    requires OpFitsIn(kind, d, sgn, op, a, b) && Has(a, m) && Has(b, n)
    ensures OpFits(kind, d, sgn, op, N(m), N(n))
  {
    assert In(d, a, N(m)) && In(d, b, N(n));
  }

  lemma Applied(op: H.Op, a: Range, b: Range)
    requires a.Ints? && b.Ints? && 0 <= a.lo <= a.hi < U32_LIMIT && 0 <= b.lo <= b.hi < U32_LIMIT && HasGlslOp(op)
    requires op == H.Div || op == H.Mod ==> b.lo == b.hi != 0
    requires forall m, n :: Has(a, m) && Has(b, n) ==> SignFits(op, m, n)
    ensures SignSafe(op, a, b)
  {
    var x, y := Max(a.lo, SIGN_BIT), Min(a.hi, SIGN_BIT - 1);
    assert Has(a, a.lo) && Has(a, a.hi) && Has(b, b.lo) && Has(b, b.hi);
    assert SignFits(op, a.lo, b.lo) && SignFits(op, a.hi, b.lo) && SignFits(op, a.lo, b.hi) && SignFits(op, a.hi, b.hi);
    if Has(a, x) && Has(a, y) {
      assert SignFits(op, x, b.lo) && SignFits(op, y, b.lo);
    } else if Has(a, x) {
      assert SignFits(op, x, b.lo);
    } else if Has(a, y) {
      assert SignFits(op, y, b.lo);
    }
    if op == H.Mod && b.lo > 1 && Has(a, x) && x < a.hi {
      assert Has(a, x + 1) && SignFits(op, x + 1, b.lo);
      NextNotDivided(x, b.lo);
    }
  }

  lemma NextNotDivided(a: int, c: int)
    requires Abs(c) > 1 && a % c == 0
    ensures (a + 1) % c != 0
  {
    var q := a / c;
    assert a + 1 == q * c + 1;
    EuclidIs(a + 1, c, q, 1);
  }

  lemma IntFitsSafe(op: H.Op, a: Range, b: Range)
    requires a.Ints? && b.Ints? && a.lo <= a.hi && b.lo <= b.hi && (op == H.Div ==> b.lo == b.hi != 0)
    requires forall m, n :: Has(a, m) && Has(b, n) ==> IntFits(op, m, n)
    ensures IntSafe(op, a, b)
  {
    hide IntFits;
    assert Has(a, a.lo) && Has(a, a.hi) && Has(b, b.lo) && Has(b, b.hi);
    if op == H.Mul {
      MulFits(op, a, b, a.lo, b.lo);
      MulFits(op, a, b, a.lo, b.hi);
      MulFits(op, a, b, a.hi, b.lo);
      MulFits(op, a, b, a.hi, b.hi);
      if Has(a, 0) {
        MulFits(op, a, b, 0, b.lo);
      }
      if Has(b, 0) {
        MulFits(op, a, b, a.lo, 0);
      }
    } else if op == H.Div {
      var c := b.lo;
      DivFits(op, a, b, a.lo);
      if Has(a, 0) {
        DivFits(op, a, b, 0);
      }
      if a.lo < a.hi {
        DivFits(op, a, b, a.lo + 1);
        if Abs(c) > 1 {
          NextNotDivided(a.lo, c);
        }
      }
    }
  }

  lemma MulFits(op: H.Op, a: Range, b: Range, m: int, n: int)
    requires (forall m, n :: Has(a, m) && Has(b, n) ==> IntFits(op, m, n)) && Has(a, m) && Has(b, n) && op == H.Mul
    ensures InI32(m * n) && !(m * n == 0 && (m < 0 || n < 0))
  {
    assert IntFits(op, m, n);
  }

  lemma DivFits(op: H.Op, a: Range, b: Range, m: int)
    requires (forall m, n :: Has(a, m) && Has(b, n) ==> IntFits(op, m, n)) && Has(a, m) && op == H.Div && b.Ints? && b.lo == b.hi != 0
    ensures m % b.lo == 0 && !(m == 0 && b.lo < 0)
  {
    assert Has(b, b.lo) && IntFits(op, m, b.lo);
  }

  predicate RangeOk(kind: Kind, r: Range) {
    match kind
    case FloatKind => Wf(r) && Precise(r)
    case IntKind => r.Ints? && r.lo <= r.hi
    case UintKind => r.Ints? && 0 <= r.lo <= r.hi < U32_LIMIT
  }

  lemma Somewhere(kind: Kind, d: Driver, r: Range)
    requires Integers(d) && RangeOk(kind, r)
    ensures exists v :: In(d, r, v)
  {
    match r
    case Ints(lo, _) => assert In(d, r, N(lo));
    case Nonzero =>
      assert PairOk(d, 0, 1) && PairOk(d, 1, 1) && PairOk(d, 0, 0);
      assert In(d, r, R(d.ofInt(1)));
    case Floats => assert In(d, r, R(0));
  }

  // For every operator and all ranges of operands: the test is passed if and only if the shader's operation does what the
  // CPU's does on every pair of values in the ranges.
  lemma OpSafeExact(kind: Kind, d: Driver, sgn: bool, op: H.Op, a: Range, b: Range)
    requires Integers(d) && (exists x :: !Number(d, x)) && HasGlslOp(op) && RangeOk(kind, a) && RangeOk(kind, b)
    requires (op == H.Div || op == H.Mod) && a.Ints? && b.Ints? ==> b.lo == b.hi != 0
    ensures OpSafe(kind, sgn, op, a, b) <==> OpFitsIn(kind, d, sgn, op, a, b)
  {
    if OpSafe(kind, sgn, op, a, b) {
      forall u, v | In(d, a, u) && In(d, b, v)
        ensures OpFits(kind, d, sgn, op, u, v)
      {
        OpSafeFits(kind, d, sgn, op, a, b, u, v);
      }
    } else if !a.Ints? || !b.Ints? {
      FloatsUnfit(kind, d, sgn, op, a, b);
    } else if OpFitsIn(kind, d, sgn, op, a, b) {
      hide SignSafe, IntSafe, SignFits, IntFits;
      if kind == UintKind {
        assert OpFitsIn(UintKind, d, true, op, a, b);
        SignFitsSafe(d, op, a, b);
      } else if kind == FloatKind {
        forall m, n | Has(a, m) && Has(b, n)
          ensures IntFits(op, m, n)
        {
          Fitting(kind, d, sgn, op, a, b, m, n);
        }
        IntFitsSafe(op, a, b);
      }
    }
  }

  lemma FloatsUnfit(kind: Kind, d: Driver, sgn: bool, op: H.Op, a: Range, b: Range)
    requires Integers(d) && (exists x :: !Number(d, x)) && RangeOk(kind, a) && RangeOk(kind, b)
    requires (!a.Ints? || !b.Ints?) && !OpSafe(kind, sgn, op, a, b)
    ensures !OpFitsIn(kind, d, sgn, op, a, b)
  {
    Somewhere(kind, d, a);
    Somewhere(kind, d, b);
    var x :| !Number(d, x);
    if a.Floats? {
      var v :| In(d, b, v);
      assert In(d, a, R(x)) && !OpFits(kind, d, sgn, op, R(x), v);
    } else {
      var u :| In(d, a, u);
      assert In(d, b, R(x)) && !OpFits(kind, d, sgn, op, u, R(x));
    }
  }

  lemma NegSafeExact(kind: Kind, d: Driver, r: Range)
    requires RangeOk(kind, r)
    ensures NegSafe(kind, r) <==> NegFitsIn(kind, d, r)
  {
    if NegSafe(kind, r) {
      forall v | In(d, r, v)
        ensures NegFits(kind, d, v)
      {
        NegSafeFits(kind, d, r, v);
      }
    } else if r.Ints? {
      assert In(d, r, N(0)) && !NegFits(kind, d, N(0));
    } else {
      assert In(d, r, R(d.ofInt(0))) && !NegFits(kind, d, R(d.ofInt(0)));
    }
  }

  // ---- what expressions are worth ----

  // A range of the element type's integers.
  predicate Bounded(kind: Kind, r: Range) { r.Ints? ==> InRange(kind, r.lo) && InRange(kind, r.hi) }

  // What is known of the variables is so.
  ghost predicate Knows(k: Kernel, d: Driver, w: Known, f: Frame) {
    && f.types == w.types && RowHolds(k.kind, f.row)
    && (forall x :: x in w.ranges ==> Bounded(k.kind, w.ranges[x]))
    && (forall x :: x in f.locals ==> x in w.ranges && In(d, w.ranges[x], f.locals[x]))
  }

  lemma FitIn(kind: Kind, lo: int, hi: int, n: int)
    requires lo <= n <= hi
    ensures Bounded(kind, Fit(kind, lo, hi)) && Has(Fit(kind, lo, hi), Norm(kind, n))
  {
    if InRange(kind, lo) && InRange(kind, hi) {
      if kind != UintKind {
        WrapIdentity(n);
      }
    }
  }

  lemma LitIn(kind: Kind, d: Driver, lx: string)
    requires Texts(d) && LitV(kind, d, lx).Some?
    ensures Bounded(kind, LitRange(kind, lx)) && In(d, LitRange(kind, lx), LitV(kind, d, lx).value)
  {
    assert TextOk(d, lx);
  }

  lemma OpIn(kind: Kind, d: Driver, sgn: bool, op: H.Op, a: Range, b: Range, u: V, v: V)
    requires Bounded(kind, a) && Bounded(kind, b) && In(d, a, u) && In(d, b, v) && Operate(kind, d, sgn, op, u, v).Some?
    ensures Bounded(kind, OpRange(kind, op, a, b)) && In(d, OpRange(kind, op, a, b), Operate(kind, d, sgn, op, u, v).value)
  {
    hide Norm, Fit;
    if !Compares(op) && a.Ints? && b.Ints? {
      match op
      case Add => FitIn(kind, a.lo + b.lo, a.hi + b.hi, u.n + v.n);
      case Sub => FitIn(kind, a.lo - b.hi, a.hi - b.lo, u.n - v.n);
      case Mul =>
        if a.lo >= 0 && b.lo >= 0 {
          ProductIn(a, b, u.n, v.n);
          FitIn(kind, a.lo * b.lo, a.hi * b.hi, u.n * v.n);
        } else {
          NormWhole(kind, u.n * v.n);
        }
      case Div => NormWhole(kind, TruncDiv(ReadAs(sgn, u.n), ReadAs(sgn, v.n)));
      case Mod => NormWhole(kind, TruncRem(ReadAs(sgn, u.n), ReadAs(sgn, v.n)));
      case _ =>
    }
  }

  lemma ProductIn(a: Range, b: Range, m: int, n: int)
    requires Has(a, m) && Has(b, n) && a.lo >= 0 && b.lo >= 0
    ensures a.lo * b.lo <= m * n <= a.hi * b.hi
  {
    Scale(a.lo, m, n);
    Scale(m, a.hi, n);
    Commutes(a.lo, n);
    Commutes(a.lo, b.lo);
    Commutes(a.hi, n);
    Commutes(a.hi, b.hi);
    Scale(b.lo, n, a.lo);
    Scale(n, b.hi, a.hi);
  }

  lemma NormWhole(kind: Kind, n: int)
    ensures Bounded(kind, Whole(kind)) && Has(Whole(kind), Norm(kind, n))
  {
  }

  lemma UnaryIn(kind: Kind, d: Driver, op: UnaryOp, a: Range, u: V)
    requires Bounded(kind, a) && In(d, a, u) && Unary(kind, d, op, u).Some?
    ensures Bounded(kind, UnaryRange(kind, op, a)) && In(d, UnaryRange(kind, op, a), Unary(kind, d, op, u).value)
  {
    if op == Neg && a.Ints? {
      FitIn(kind, -a.hi, -a.lo, -u.n);
    }
  }

  // The value of an expression lies in its range.
  lemma {:induction false} RangeHolds(k: Kernel, d: Driver, w: Known, f: Frame, e: KExpr)
    requires Texts(d) && Knows(k, d, w, f) && Eval(k, d, f, e).Some?
    ensures Bounded(k.kind, RangeOf(k, w, e)) && In(d, RangeOf(k, w, e), Eval(k, d, f, e).value)
    decreases e
  {
    hide Texts, Operate, OpRange, Unary, UnaryRange, LitRange, LitV, GenTy, Bounded;
    match e
    case KName(n) =>
      if ConstLexeme(k.consts, n).Some? {
        LitIn(k.kind, d, ConstLexeme(k.consts, n).value);
      } else if n in k.cols {
        ColumnIn(k.kind, d, f.row[n]);
      }
    case KLit(lx) => LitIn(k.kind, d, lx);
    case KUnary(op, x) =>
      RangeHolds(k, d, w, f, x);
      UnaryIn(k.kind, d, op, RangeOf(k, w, x), Eval(k, d, f, x).value);
    case KBinary(op, l, r) =>
      RangeHolds(k, d, w, f, l);
      RangeHolds(k, d, w, f, r);
      OpIn(k.kind, d, SignOf(k, f, l), op, RangeOf(k, w, l), RangeOf(k, w, r), Eval(k, d, f, l).value, Eval(k, d, f, r).value);
    case KCall(fn, args) =>
      if fn == "select" && |args| == 3 {
        RangeHolds(k, d, w, f, args[1]);
        RangeHolds(k, d, w, f, args[2]);
        BothIn(k.kind, d, RangeOf(k, w, args[1]), RangeOf(k, w, args[2]), Eval(k, d, f, args[1]).value, Eval(k, d, f, args[2]).value);
      } else {
        NoInts(k.kind, Floats);
      }
    case KOther =>
  }

  lemma NoInts(kind: Kind, r: Range)
    requires !r.Ints?
    ensures Bounded(kind, r)
  {
  }

  lemma ColumnIn(kind: Kind, d: Driver, v: V)
    requires InColumn(kind, v)
    ensures var r := if kind == FloatKind then Floats else Whole(kind); Bounded(kind, r) && In(d, r, v)
  {
  }

  lemma BothIn(kind: Kind, d: Driver, a: Range, b: Range, u: V, v: V)
    requires Bounded(kind, a) && Bounded(kind, b) && In(d, a, u) && In(d, b, v) && u.R? == v.R?
    ensures Bounded(kind, Both(a, b)) && In(d, Both(a, b), u) && In(d, Both(a, b), v)
  {
  }

  // ---- the test of a body ----

  predicate SafeExpr(k: Kernel, w: Known, e: KExpr) {
    match e
    case KUnary(op, x) => SafeExpr(k, w, x) && (op == Neg ==> NegSafe(k.kind, RangeOf(k, w, x)))
    case KBinary(op, l, r) =>
      var a, b := RangeOf(k, w, l), RangeOf(k, w, r);
      && SafeExpr(k, w, l) && SafeExpr(k, w, r) && OpSafe(k.kind, Signed(k.kind, GenTy(k, w.types, l)), op, a, b)
      && (k.kind == FloatKind && a.Ints? && b.Ints? ==> Precise(a) && Precise(b))
    case KCall(_, args) => forall i :: 0 <= i < |args| ==> SafeExpr(k, w, args[i])
    case _ => true
  }

  predicate UpdateSafe(k: Kernel, op: H.Op, r: Range) {
    k.kind == UintKind && !k.fused ==> OpSafe(UintKind, true, op, Whole(UintKind), r)
  }

  // What is known after the statement: blocks and branches bind nothing that outlives them.
  function Learn(k: Kernel, w: Known, s: KStmt): Known {
    match s
    case KBind(names, init) =>
      if |names| != 1 || init.None? then w
      else Known(w.types[names[0] := SemTy(k, w.types, init.value)], w.ranges[names[0] := RangeOf(k, w, init.value)])
    case _ => w
  }

  predicate SafeStmt(k: Kernel, w: Known, s: KStmt)
    decreases s, 0
  {
    match s
    case KAssign(_, op, e) => SafeExpr(k, w, e) && (op.Some? ==> UpdateSafe(k, op.value, RangeOf(k, w, e)))
    case KBlock(ss) => SafeAll(k, w, ss)
    case KBind(_, init) => init.Some? ==> SafeExpr(k, w, init.value)
    case KIf(c, t, e) => SafeExpr(k, w, c) && SafeAll(k, w, t) && SafeAll(k, w, e)
    case KOtherStmt => true
  }

  predicate SafeAll(k: Kernel, w: Known, ss: seq<KStmt>)
    decreases ss, 0
  {
    ss == [] || (SafeStmt(k, w, ss[0]) && SafeAll(k, Learn(k, w, ss[0]), ss[1..]))
  }

  // The body is safe: nothing is known of any variable at its start.
  predicate Safe(k: Kernel, ss: seq<KStmt>) { SafeAll(k, Known(map[], map[]), ss) }

  // ---- a safe body's shader is in step on every row ----

  lemma BinaryFits(k: Kernel, d: Driver, w: Known, f: Frame, op: H.Op, l: KExpr, r: KExpr)
    requires DriverOk(d) && Knows(k, d, w, f) && Eval(k, d, f, KBinary(op, l, r)).Some? && SafeExpr(k, w, KBinary(op, l, r))
    ensures var a, b := Eval(k, d, f, l).value, Eval(k, d, f, r).value;
            Eval(k, d, f, l).Some? && Eval(k, d, f, r).Some? && OpFits(k.kind, d, SignOf(k, f, l), op, a, b) && Decided(k.kind, a, b)
  {
    PartOk(d);
    assert f.types == w.types;
    hide DriverOk, Knows, Texts, Integers, Operate, OpFits, OpSafe, GenTy, Signed, RangeOf;
    RangeHolds(k, d, w, f, l);
    RangeHolds(k, d, w, f, r);
    var a, b := Eval(k, d, f, l).value, Eval(k, d, f, r).value;
    NoZeroDivisor(k.kind, d, SignOf(k, f, l), op, a, b);
    OpSafeFits(k.kind, d, SignOf(k, f, l), op, RangeOf(k, w, l), RangeOf(k, w, r), a, b);
  }

  lemma PartOk(d: Driver)
    requires DriverOk(d)
    ensures Integers(d) && Texts(d)
  {
  }

  lemma NoZeroDivisor(kind: Kind, d: Driver, sgn: bool, op: H.Op, u: V, v: V)
    requires Operate(kind, d, sgn, op, u, v).Some?
    ensures u.N? && v.N? && (op == H.Div || op == H.Mod) ==> v.n != 0
  {
  }

  lemma {:induction false} SafeExprFits(k: Kernel, d: Driver, w: Known, f: Frame, e: KExpr)
    requires DriverOk(d) && Knows(k, d, w, f) && Eval(k, d, f, e).Some? && SafeExpr(k, w, e)
    ensures Fits(k, d, f, e) && Settled(k, d, f, e)
    decreases e
  {
    PartOk(d);
    hide DriverOk, Knows, Texts, Integers, Operate, OpFits, OpSafe, NegFits, NegSafe, Decided, NegDecided, SignOf, GenTy, RangeOf, Unary;
    match e
    case KUnary(op, x) =>
      SafeExprFits(k, d, w, f, x);
      RangeHolds(k, d, w, f, x);
      if op == Neg {
        NegSafeFits(k.kind, d, RangeOf(k, w, x), Eval(k, d, f, x).value);
      }
    case KBinary(op, l, r) =>
      SafeExprFits(k, d, w, f, l);
      SafeExprFits(k, d, w, f, r);
      BinaryFits(k, d, w, f, op, l, r);
    case KCall(fn, args) => SafeCallFits(k, d, w, f, fn, args);
    case _ =>
  }

  lemma {:induction false} SafeCallFits(k: Kernel, d: Driver, w: Known, f: Frame, fn: string, args: seq<KExpr>)
    requires DriverOk(d) && Knows(k, d, w, f) && Eval(k, d, f, KCall(fn, args)).Some? && SafeExpr(k, w, KCall(fn, args))
    ensures Fits(k, d, f, KCall(fn, args)) && Settled(k, d, f, KCall(fn, args))
    decreases args
  {
    hide DriverOk, Knows;
    SafeExprFits(k, d, w, f, args[0]);
    if fn == "select" && |args| == 3 {
      SafeExprFits(k, d, w, f, args[1]);
      SafeExprFits(k, d, w, f, args[2]);
    }
  }

  // What is stored in a column is of the element type.
  lemma StoredHolds(k: Kernel, d: Driver, op: Option<H.Op>, cur: V, r: Range, v: V)
    requires Bounded(k.kind, r) && In(d, r, v) && Assigned(k, d, op, cur, v).Some?
    ensures InColumn(k.kind, Assigned(k, d, op, cur, v).value)
  {
  }

  lemma UpdateSafeFits(k: Kernel, d: Driver, op: H.Op, cur: V, r: Range, v: V)
    requires DriverOk(d) && InColumn(k.kind, cur) && Bounded(k.kind, r) && In(d, r, v) && UpdateSafe(k, op, r)
    requires Assigned(k, d, Some(op), cur, v).Some?
    ensures UpdateFits(k, op, cur, v)
  {
    hide SignFits, SignSafe;
    if k.kind == UintKind && !k.fused {
      OpSafeFits(UintKind, d, true, op, Whole(UintKind), r, cur, v);
    }
  }

  lemma SafeAssign(k: Kernel, d: Driver, w: Known, f: Frame, s: KStmt)
    requires s.KAssign? && DriverOk(d) && Knows(k, d, w, f) && Exec(k, d, f, s).Some? && SafeStmt(k, w, s)
    ensures FitsStmt(k, d, f, s) && SettledStmt(k, d, f, s) && Knows(k, d, w, Exec(k, d, f, s).value)
  {
    var c, op, e := s.target.value, s.aop, s.value;
    var v := Eval(k, d, f, e).value;
    assert InColumn(k.kind, f.row[c]);
    PartOk(d);
    hide DriverOk, Eval, InColumn, Assigned, UpdateSafe, UpdateFits, Bounded, In;
    SafeExprFits(k, d, w, f, e);
    RangeHolds(k, d, w, f, e);
    StoredHolds(k, d, op, f.row[c], RangeOf(k, w, e), v);
    if op.Some? {
      UpdateSafeFits(k, d, op.value, f.row[c], RangeOf(k, w, e), v);
    }
  }

  lemma SafeBind(k: Kernel, d: Driver, w: Known, f: Frame, s: KStmt)
    requires s.KBind? && DriverOk(d) && Knows(k, d, w, f) && Exec(k, d, f, s).Some? && SafeStmt(k, w, s)
    ensures FitsStmt(k, d, f, s) && SettledStmt(k, d, f, s) && Knows(k, d, Learn(k, w, s), Exec(k, d, f, s).value)
  {
    PartOk(d);
    hide DriverOk, Eval, Bounded, In, SemTy;
    SafeExprFits(k, d, w, f, s.init.value);
    RangeHolds(k, d, w, f, s.init.value);
  }

  // The statement fits, and what is known after it is so.
  lemma {:induction false} SafeStmtFits(k: Kernel, d: Driver, w: Known, f: Frame, s: KStmt)
    requires DriverOk(d) && Knows(k, d, w, f) && Exec(k, d, f, s).Some? && SafeStmt(k, w, s)
    ensures FitsStmt(k, d, f, s) && SettledStmt(k, d, f, s) && Knows(k, d, Learn(k, w, s), Exec(k, d, f, s).value)
    decreases s, 1
  {
    hide DriverOk, Eval;
    match s
    case KAssign(_, _, _) => SafeAssign(k, d, w, f, s);
    case KBind(_, _) => SafeBind(k, d, w, f, s);
    case KBlock(ss) =>
      SafeAllFits(k, d, w, f, ss);
      KeepsKnown(k, d, w, f, ExecAll(k, d, f, ss).value);
    case KIf(c, t, e) =>
      SafeExprFits(k, d, w, f, c);
      if Eval(k, d, f, c) == Some(N(0)) {
        SafeAllFits(k, d, w, f, e);
        KeepsKnown(k, d, w, f, ExecAll(k, d, f, e).value);
      } else {
        SafeAllFits(k, d, w, f, t);
        KeepsKnown(k, d, w, f, ExecAll(k, d, f, t).value);
      }
    case KOtherStmt =>
  }

  lemma KeepsKnown(k: Kernel, d: Driver, w: Known, f: Frame, g: Frame)
    requires Knows(k, d, w, f) && RowHolds(k.kind, g.row)
    ensures Knows(k, d, w, f.(row := g.row))
  {
  }

  lemma {:induction false} SafeAllFits(k: Kernel, d: Driver, w: Known, f: Frame, ss: seq<KStmt>)
    requires DriverOk(d) && Knows(k, d, w, f) && ExecAll(k, d, f, ss).Some? && SafeAll(k, w, ss)
    ensures FitsAll(k, d, f, ss) && SettledAll(k, d, f, ss) && RowHolds(k.kind, ExecAll(k, d, f, ss).value.row)
    decreases ss, 0
  {
    hide DriverOk, Exec, SafeStmt, Learn, FitsStmt, SettledStmt, RowHolds;
    RowKnown(k, d, w, f);
    if ss != [] {
      SafeStmtFits(k, d, w, f, ss[0]);
      SafeAllFits(k, d, Learn(k, w, ss[0]), Exec(k, d, f, ss[0]).value, ss[1..]);
    }
  }

  lemma RowKnown(k: Kernel, d: Driver, w: Known, f: Frame)
    requires Knows(k, d, w, f)
    ensures RowHolds(k.kind, f.row)
  {
  }

  // For every body that passes the test and every row its code runs on: every operation performed fits, and is decided.
  lemma SafeFits(k: Kernel, d: Driver, ss: seq<KStmt>, row: Row)
    requires DriverOk(d) && Safe(k, ss) && RowHolds(k.kind, row) && ExecAll(k, d, Start(row), ss).Some?
    ensures FitsAll(k, d, Start(row), ss) && SettledAll(k, d, Start(row), ss)
    ensures RowHolds(k.kind, ExecAll(k, d, Start(row), ss).value.row)
  {
    SafeAllFits(k, d, Known(map[], map[]), Start(row), ss);
  }
}

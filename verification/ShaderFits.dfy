// One operation on the CPU against one in the shader: for which operands a signed operation on unsigned columns, and an
// operation on integers that the shader does on floats, gives the same.
module ShaderFits {
  import opened Bytes
  import opened Values
  import opened IntLiterals
  import opened ShaderLang
  import H = Hir

  // ---- what the theorems need of a platform's single-precision floats ----

  // Integers up to 2^24 are exact, and so are their sums and differences.
  const EXACT: int := 0x100_0000

  predicate Exact(n: int) { -EXACT <= n <= EXACT }

  // Zero has a sign: a product with a negative factor is minus zero.
  predicate PairOk(d: Driver, a: int, b: int) {
    Exact(a) && Exact(b) ==>
      var x, y := d.ofInt(a), d.ofInt(b);
      && d.add(x, y) == d.ofInt(a + b) && d.sub(x, y) == d.ofInt(a - b)
      && d.mul(x, y) == (if a * b == 0 && (a < 0 || b < 0) then d.neg(d.ofInt(0)) else d.ofInt(a * b))
      && d.eq(x, y) == (a == b) && d.lt(x, y) == (a < b) && d.le(x, y) == (a <= b)
  }

  // A quotient is an integer if and only if the division leaves no remainder.
  predicate QuotientOk(d: Driver, a: int, b: int, q: int) {
    Exact(a) && Exact(b) && Exact(q) && b != 0 ==>
      (d.div(d.ofInt(a), d.ofInt(b)) == d.ofInt(q) <==> a == q * b && !(a == 0 && b < 0))
  }

  // Integers below 2^48 that are rounded to the same float are near each other.
  predicate NearOk(d: Driver, m: int, n: int) {
    -EXACT * EXACT <= m <= EXACT * EXACT && -EXACT * EXACT <= n <= EXACT * EXACT && d.ofInt(m) == d.ofInt(n) ==>
      -U32_LIMIT < m - n < U32_LIMIT
  }

  // Minus zero is no integer's conversion.
  predicate MinusOk(d: Driver, n: int) {
    && d.neg(d.ofInt(0)) != d.ofInt(n)
    && (n != 0 && -I32_LIMIT <= n <= I32_LIMIT ==> d.neg(d.ofInt(n)) == d.ofInt(-n))
  }

  // Numbers are ordered, a NaN is not; a number but zero is negated by subtracting it from zero.
  predicate OrderOk(d: Driver, x: nat, y: nat) {
    && (d.eq(x, y) || d.lt(x, y) || d.lt(y, x) <==> d.eq(x, x) && d.eq(y, y))
    && (d.eq(x, y) ==> !d.lt(x, y) && !d.lt(y, x))
  }

  predicate SubtractOk(d: Driver, x: nat) { d.eq(x, x) ==> (d.sub(d.ofInt(0), x) == d.neg(x) <==> x != d.ofInt(0)) }

  // A decimal text with a point and a zero is the integer; a short one that is not all zeros is a number other than zero.
  predicate TextOk(d: Driver, lx: string) {
    && (AllDigits(lx, 10) && 0 < |lx| <= 18 ==>
          && d.parse(lx + ".0") == d.ofInt(Positional(lx, 10))
          && (Positional(lx, 10) != 0 ==> d.parse("-" + lx + ".0") == d.ofInt(-(Positional(lx, 10) as int))))
    && (NonzeroText(lx) ==> d.parse(lx) != d.ofInt(0) && d.eq(d.parse(lx), d.parse(lx)))
  }

  // Digits and a point, at most thirty of them, not all zeros.
  predicate NonzeroText(lx: string) {
    && |lx| <= 30 && (forall i :: 0 <= i < |lx| ==> IsDigit(lx[i], 10) || lx[i] == '.')
    && exists i :: 0 <= i < |lx| && IsDigit(lx[i], 10) && lx[i] != '0'
  }

  ghost predicate Integers(d: Driver) { forall a, b :: PairOk(d, a, b) }
  ghost predicate Quotients(d: Driver) { forall a, b, q :: QuotientOk(d, a, b, q) }
  ghost predicate Roundings(d: Driver) { forall m, n :: NearOk(d, m, n) }
  ghost predicate Minuses(d: Driver) { (forall n :: MinusOk(d, n)) && forall x :: SubtractOk(d, x) }
  ghost predicate Orders(d: Driver) { forall x, y :: OrderOk(d, x, y) }
  ghost predicate Texts(d: Driver) { forall lx :: TextOk(d, lx) }

  // And the shader's remainder of signed integers truncates, which GLSL leaves open for negative operands.
  ghost predicate Remainders(d: Driver) { forall a, b :: RemOk(d, a, b) }
  predicate RemOk(d: Driver, a: int, b: int) { b != 0 ==> d.rem(a, b) == TruncRem(a, b) }

  ghost predicate DriverOk(d: Driver) {
    Integers(d) && Quotients(d) && Roundings(d) && Minuses(d) && Orders(d) && Texts(d) && Remainders(d)
  }

  // ---- values on both sides ----

  predicate InRange(kind: Kind, n: int) { if kind == UintKind then 0 <= n < U32_LIMIT else InI32(n) }

  // A value of the map: an integer in range; a float in float maps only.
  predicate Holds(kind: Kind, v: V) { if v.N? then InRange(kind, v.n) else kind == FloatKind }

  // A column's value: of the element type.
  predicate InColumn(kind: Kind, v: V) { Holds(kind, v) && v.R? == (kind == FloatKind) }

  // The shader has one type: in a float shader an integer is its conversion.
  function Shown(kind: Kind, d: Driver, v: V): V { if kind == FloatKind && v.N? then R(d.ofInt(v.n)) else v }

  // What the shader's value says about the body's.
  predicate Same(kind: Kind, d: Driver, t: GTy, g: Option<G>, v: V) {
    if t == TyVal then g == Some(GV(Shown(kind, d, v))) else g.Some? && g.value.GB? && v == N(Bit(g.value.b))
  }

  function OpGTy(op: H.Op): GTy { if Compares(op) then TyBool else TyVal }

  // ---- when one operation fits ----

  const SIGN_BIT: int := 0x8000_0000

  // Two unsigned numbers on which a signed operation does what the unsigned one does.
  predicate SignFits(op: H.Op, a: int, b: int) {
    match op
    case Div => (a < SIGN_BIT && b < SIGN_BIT) || b == 1 || a == b || (a < SIGN_BIT <= b && a + b < U32_LIMIT)
    case Mod =>
      || (a < SIGN_BIT && b < SIGN_BIT) || a == b || (a < SIGN_BIT <= b && a + b < U32_LIMIT)
      || (0 < b < SIGN_BIT <= a && a % b == 0 && (U32_LIMIT - a) % b == 0)
    case _ => H.Sensitive(op) ==> (a < SIGN_BIT <==> b < SIGN_BIT)
  }

  // Two integers on which the float operation does what the integer one does.
  predicate IntFits(op: H.Op, a: int, b: int) {
    match op
    case Mul => InI32(a * b) && !(a * b == 0 && (a < 0 || b < 0))
    case Div => b != 0 && a % b == 0 && !(a == 0 && b < 0)
    case _ => true
  }

  predicate Number(d: Driver, x: nat) { d.eq(x, x) }

  predicate OpFits(kind: Kind, d: Driver, sgn: bool, op: H.Op, a: V, b: V) {
    if a.R? || b.R? then (op == H.Neq ==> Number(d, Promoted(d, a)) && Number(d, Promoted(d, b)))
    else match kind
      case FloatKind => IntFits(op, a.n, b.n)
      case UintKind => sgn ==> SignFits(op, a.n, b.n)
      case IntKind => true
  }

  predicate NegFits(kind: Kind, d: Driver, v: V) {
    kind == FloatKind ==> if v.R? then v.bits != d.ofInt(0) else v.n != 0 && v.n != -I32_LIMIT
  }

  // Where it is decided: integers that are exact floats, and numbers.
  predicate Decided(kind: Kind, a: V, b: V) { kind == FloatKind && a.N? && b.N? ==> Exact(a.n) && Exact(b.n) }
  predicate NegDecided(kind: Kind, d: Driver, v: V) { kind == FloatKind && v.R? ==> Number(d, v.bits) }

  // ---- signed and unsigned ----

  lemma HighRead(a: int)
    requires 0 <= a < U32_LIMIT
    ensures ReadAs(false, a) == a && ReadAs(true, a) == if a < SIGN_BIT then a else a - U32_LIMIT
  {
  }

  lemma NormUnsigned(n: int)
    ensures 0 <= n < U32_LIMIT ==> Norm(UintKind, n) == n
    ensures -U32_LIMIT <= n < 0 ==> Norm(UintKind, n) == n + U32_LIMIT
  {
    if -U32_LIMIT <= n < 0 {
      assert (n + U32_LIMIT) % U32_LIMIT == n % U32_LIMIT;
    }
  }

  lemma QuotientIs(a: nat, b: nat, q: nat, r: nat)
    requires b > 0 && a == q * b + r && r < b
    ensures a / b == q && a % b == r
  {
    var q', r' := a / b, a % b;
    assert a == q' * b + r';
    if q' < q {
      Factor(q, q', b);
    } else if q < q' {
      Factor(q', q, b);
    }
  }

  lemma Factor(m: nat, n: nat, b: nat)
    requires m > n
    ensures m * b - n * b >= b
  {
    assert m * b - n * b == (m - n) * b;
    assert (m - n - 1) * b >= 0;
  }

  lemma AtMost(a: nat, b: nat)
    requires b >= 1
    ensures a / b <= a && a % b < b && a % b <= a && (a < b ==> a / b == 0 && a % b == a) && (a >= b ==> a / b >= 1)
  {
    assert a == (a / b) * b + a % b;
    assert (a / b) * (b - 1) >= 0;
  }

  // The signed quotient of two unsigned numbers, by where the sign bits are.
  lemma SignedQuotient(a: nat, b: nat)
    requires a < U32_LIMIT && 0 < b < U32_LIMIT
    ensures var x, y := ReadAs(true, a), ReadAs(true, b);
            && (a < SIGN_BIT && b < SIGN_BIT ==> TruncDiv(x, y) == a / b && TruncRem(x, y) == a % b)
            && (a < SIGN_BIT <= b ==> TruncDiv(x, y) == -(a / (U32_LIMIT - b)) && TruncRem(x, y) == a % (U32_LIMIT - b))
            && (b < SIGN_BIT <= a ==> TruncDiv(x, y) == -((U32_LIMIT - a) / b) && TruncRem(x, y) == -((U32_LIMIT - a) % b))
            && (SIGN_BIT <= a && SIGN_BIT <= b ==>
                  TruncDiv(x, y) == (U32_LIMIT - a) / (U32_LIMIT - b) && TruncRem(x, y) == -((U32_LIMIT - a) % (U32_LIMIT - b)))
  {
    HighRead(a);
    HighRead(b);
    hide ReadAs;
    if a < SIGN_BIT <= b {
      AtMost(a, U32_LIMIT - b);
      assert Abs(b - U32_LIMIT) == U32_LIMIT - b;
      if a == 0 {
        assert a / (U32_LIMIT - b) == 0;
      }
    }
  }

  lemma DivExact(a: nat, b: nat)
    requires a < U32_LIMIT && 0 < b < U32_LIMIT && InI32(TruncDiv(ReadAs(true, a), ReadAs(true, b)))
    ensures Norm(UintKind, TruncDiv(ReadAs(true, a), ReadAs(true, b))) == a / b <==> SignFits(H.Div, a, b)
  {
    var q := TruncDiv(ReadAs(true, a), ReadAs(true, b));
    SignedQuotient(a, b);
    hide ReadAs, TruncDiv;
    AtMost(a, b);
    NormUnsigned(q);
    hide Norm;
    if a < SIGN_BIT <= b {
      AtMost(a, U32_LIMIT - b);
    } else if b < SIGN_BIT <= a {
      var c := U32_LIMIT - a;
      AtMost(c, b);
      if b >= 2 {
        Halves(a, b);
        Halves(c, b);
      }
    } else if SIGN_BIT <= a && SIGN_BIT <= b {
      HighQuotient(a, b);
    }
  }

  lemma HighQuotient(a: nat, b: nat)
    requires SIGN_BIT <= a < U32_LIMIT && SIGN_BIT <= b < U32_LIMIT
    ensures a / b == (if a >= b then 1 else 0) && a % b == if a >= b then a - b else a
    ensures a > b ==> (U32_LIMIT - a) / (U32_LIMIT - b) == 0 && (U32_LIMIT - a) % (U32_LIMIT - b) == U32_LIMIT - a
    ensures a == b ==> (U32_LIMIT - a) / (U32_LIMIT - b) == 1 && (U32_LIMIT - a) % (U32_LIMIT - b) == 0
    ensures a < b ==> (U32_LIMIT - a) / (U32_LIMIT - b) >= 1 && (U32_LIMIT - a) % (U32_LIMIT - b) < U32_LIMIT - b
  {
    if a >= b {
      QuotientIs(a, b, 1, a - b);
    } else {
      AtMost(a, b);
    }
    var x, y := U32_LIMIT - a, U32_LIMIT - b;
    AtMost(x, y);
    if a == b {
      QuotientIs(x, y, 1, 0);
    }
  }

  lemma ModExact(a: nat, b: nat)
    requires a < U32_LIMIT && 0 < b < U32_LIMIT && InI32(TruncDiv(ReadAs(true, a), ReadAs(true, b)))
    ensures Norm(UintKind, TruncRem(ReadAs(true, a), ReadAs(true, b))) == a % b <==> SignFits(H.Mod, a, b)
  {
    var r := TruncRem(ReadAs(true, a), ReadAs(true, b));
    SignedQuotient(a, b);
    hide ReadAs, TruncDiv, TruncRem;
    AtMost(a, b);
    NormUnsigned(r);
    hide Norm;
    if a < SIGN_BIT <= b {
      AtMost(a, U32_LIMIT - b);
    } else if b < SIGN_BIT <= a {
      AtMost(U32_LIMIT - a, b);
    } else if SIGN_BIT <= a && SIGN_BIT <= b {
      HighQuotient(a, b);
    }
  }

  lemma CompareExact(op: H.Op, a: nat, b: nat)
    requires a < U32_LIMIT && b < U32_LIMIT && Compares(op)
    ensures IntCompare(op, ReadAs(true, a), ReadAs(true, b)) == IntCompare(op, a, b) <==> SignFits(op, a, b)
  {
    HighRead(a);
    HighRead(b);
    hide ReadAs;
  }

  // For every two unsigned numbers and every operator: the operation, signed or not, does what the shader's unsigned one
  // does if and only if it is unsigned or SignFits.
  lemma UnsignedExact(d: Driver, sgn: bool, op: H.Op, a: nat, b: nat)
    requires a < U32_LIMIT && b < U32_LIMIT && HasGlslOp(op) && Operate(UintKind, d, sgn, op, N(a), N(b)).Some?
    ensures var v := Operate(UintKind, d, sgn, op, N(a), N(b)).value;
            && Holds(UintKind, v)
            && ((sgn ==> SignFits(op, a, b)) <==> Same(UintKind, d, OpGTy(op), ShaderOp(UintKind, d, op, N(a), N(b)), v))
  {
    HighRead(a);
    HighRead(b);
    if Compares(op) {
      CompareExact(op, a, b);
    } else if op == H.Div || op == H.Mod {
      hide SignFits;
      DividesExact(d, sgn, op, a, b);
    }
  }

  lemma DividesExact(d: Driver, sgn: bool, op: H.Op, a: nat, b: nat)
    requires a < U32_LIMIT && b < U32_LIMIT && (op == H.Div || op == H.Mod) && IntArith(UintKind, sgn, op, a, b).Some?
    ensures var v := IntArith(UintKind, sgn, op, a, b).value;
            && Holds(UintKind, v)
            && ((sgn ==> SignFits(op, a, b)) <==> Arith(UintKind, d, op, N(a), N(b)) == Some(v))
  {
    hide SignFits;
    HighRead(a);
    HighRead(b);
    if sgn {
      DivExact(a, b);
      ModExact(a, b);
    } else {
      AtMost(a, b);
      NormUnsigned(a / b);
      NormUnsigned(a % b);
      assert TruncDiv(a, b) == a / b && TruncRem(a, b) == a % b;
    }
  }

  lemma SignedSame(d: Driver, op: H.Op, a: int, b: int)
    requires Remainders(d) && InI32(a) && InI32(b) && HasGlslOp(op) && Operate(IntKind, d, true, op, N(a), N(b)).Some?
    ensures var v := Operate(IntKind, d, true, op, N(a), N(b)).value;
            Holds(IntKind, v) && Same(IntKind, d, OpGTy(op), ShaderOp(IntKind, d, op, N(a), N(b)), v)
  {
    if Compares(op) {
      WrapIdentity(a);
      WrapIdentity(b);
    } else {
      SignedArith(d, op, a, b);
    }
  }

  lemma SignedArith(d: Driver, op: H.Op, a: int, b: int)
    requires Remainders(d) && InI32(a) && InI32(b) && IntArith(IntKind, true, op, a, b).Some?
    ensures var v := IntArith(IntKind, true, op, a, b).value;
            Holds(IntKind, v) && Arith(IntKind, d, op, N(a), N(b)) == Some(v)
  {
    WrapIdentity(a);
    WrapIdentity(b);
    if (op == H.Div || op == H.Mod) && b != 0 {
      assert RemOk(d, a, b);
      RemInRange(a, b);
      WrapIdentity(TruncRem(a, b));
      if InI32(TruncDiv(a, b)) {
        WrapIdentity(TruncDiv(a, b));
      }
      hide Wrap32, TruncDiv, TruncRem;
    } else {
      hide TruncDiv, TruncRem;
    }
  }

  // ---- integers and floats ----

  lemma TruncDivides(a: int, b: int)
    requires b != 0
    ensures a == TruncDiv(a, b) * b + TruncRem(a, b) && (TruncRem(a, b) == 0 <==> a % b == 0)
    ensures Abs(TruncDiv(a, b)) <= Abs(a)
  {
    var x, y := Abs(a), Abs(b);
    AtMost(x, y);
    assert x == (x / y) * y + x % y;
    assert a % b == 0 <==> x % y == 0 by { Divisible(a, b); }
  }

  lemma Divisible(a: int, b: int)
    requires b != 0
    ensures a % b == 0 <==> Abs(a) % Abs(b) == 0
  {
    var x, y := Abs(a), Abs(b);
    var q: int, r: int := x / y, x % y;
    var s: int := if b > 0 then 1 else -1;
    assert x == q * y + r && 0 <= r < y;
    hide Abs;
    if a >= 0 {
      EuclidIs(a, b, s * q, r) by { Resign(s, q, b, y); }
    } else if r == 0 {
      EuclidIs(a, b, -s * q, 0) by { Resign(s, q, b, y); }
    } else {
      EuclidIs(a, b, -s * (q + 1), y - r) by { Resign(s, q + 1, b, y); }
    }
  }

  lemma Resign(s: int, q: int, b: int, y: int)
    requires (s == 1 || s == -1) && b == s * y
    ensures (s * q) * b == q * y && (-s * q) * b == -(q * y)
  {
  }

  lemma EuclidIs(a: int, b: int, q: int, r: int)
    requires b != 0 && a == q * b + r && 0 <= r < Abs(b)
    ensures a % b == r
  {
    var n := q - a / b;
    assert n * b == a % b - r;
    if n > 0 {
      Grows(n, b);
    } else if n < 0 {
      Grows(-n, b);
    }
  }

  lemma Grows(n: int, b: int)
    requires n > 0
    ensures Abs(n * b) >= Abs(b)
  {
    assert (n - 1) * Abs(b) >= 0;
  }

  lemma ProductBound(a: int, b: int)
    requires Exact(a) && Exact(b)
    ensures -EXACT * EXACT <= a * b <= EXACT * EXACT
  {
    var x, y := Abs(a), Abs(b);
    assert (EXACT - x) * y >= 0 && EXACT * (EXACT - y) >= 0;
    assert x * y <= EXACT * EXACT;
    assert a * b == x * y || a * b == -(x * y);
  }

  // A product of two exact integers: the shader's is the wrapped one's conversion exactly if nothing wraps and no minus
  // zero comes out.
  lemma ProductExact(d: Driver, a: int, b: int)
    requires DriverOk(d) && Exact(a) && Exact(b)
    ensures d.mul(d.ofInt(a), d.ofInt(b)) == d.ofInt(Wrap32(a * b)) <==> IntFits(H.Mul, a, b)
  {
    var m := a * b;
    var w := Wrap32(m);
    assert PairOk(d, a, b);
    ProductBound(a, b);
    if m == 0 && (a < 0 || b < 0) {
      assert MinusOk(d, w);
    } else if InI32(m) {
      WrapIdentity(m);
    } else {
      assert NearOk(d, m, w);
      FarApart(m);
    }
  }

  lemma FarApart(m: int)
    requires !InI32(m)
    ensures Wrap32(m) - m >= U32_LIMIT || m - Wrap32(m) >= U32_LIMIT
  {
    assert m == (m / U32_LIMIT) * U32_LIMIT + m % U32_LIMIT;
  }

  lemma DivisionExact(d: Driver, a: int, b: int)
    requires DriverOk(d) && Exact(a) && Exact(b) && b != 0
    ensures d.div(d.ofInt(a), d.ofInt(b)) == d.ofInt(TruncDiv(a, b)) <==> IntFits(H.Div, a, b)
  {
    TruncDivides(a, b);
    var q := TruncDiv(a, b);
    hide TruncDiv;
    assert Abs(q) <= EXACT;
    assert QuotientOk(d, a, b, q);
  }

  // For every two integers that are exact floats and every operator: the shader's operation on their conversions gives the
  // conversion of the CPU's integer result if and only if IntFits.
  lemma FloatedExact(d: Driver, op: H.Op, a: int, b: int)
    requires DriverOk(d) && Exact(a) && Exact(b) && HasGlslOp(op) && op != H.Mod
    requires Operate(FloatKind, d, true, op, N(a), N(b)).Some?
    ensures var v := Operate(FloatKind, d, true, op, N(a), N(b)).value;
            && Holds(FloatKind, v)
            && (IntFits(op, a, b) <==>
                  Same(FloatKind, d, OpGTy(op), ShaderOp(FloatKind, d, op, R(d.ofInt(a)), R(d.ofInt(b))), v))
  {
    if Compares(op) {
      assert PairOk(d, a, b) && PairOk(d, b, a);
      WrapIdentity(a);
      WrapIdentity(b);
    } else {
      FloatedArith(d, op, a, b);
    }
  }

  lemma FloatedArith(d: Driver, op: H.Op, a: int, b: int)
    requires DriverOk(d) && Exact(a) && Exact(b) && IntArith(FloatKind, true, op, a, b).Some? && op != H.Mod
    ensures var v := IntArith(FloatKind, true, op, a, b).value;
            && Holds(FloatKind, v)
            && (IntFits(op, a, b) <==> FloatArith(d, op, d.ofInt(a), d.ofInt(b)) == Some(Shown(FloatKind, d, v)))
  {
    WrapIdentity(a);
    WrapIdentity(b);
    if op == H.Mul {
      ProductExact(d, a, b);
      hide Wrap32, IntFits;
    } else if op == H.Div {
      DivisionExact(d, a, b);
      WrapIdentity(TruncDiv(a, b));
      hide Wrap32, TruncDiv, IntFits;
    } else {
      assert PairOk(d, a, b);
      WrapIdentity(a + b);
      WrapIdentity(a - b);
      hide Wrap32;
    }
  }

  lemma MixedExact(d: Driver, sgn: bool, op: H.Op, a: V, b: V)
    requires Orders(d) && Holds(FloatKind, a) && Holds(FloatKind, b) && (a.R? || b.R?) && HasGlslOp(op) && op != H.Mod
    requires Operate(FloatKind, d, sgn, op, a, b).Some?
    ensures var v := Operate(FloatKind, d, sgn, op, a, b).value;
            && Holds(FloatKind, v)
            && (OpFits(FloatKind, d, sgn, op, a, b) <==>
                  Same(FloatKind, d, OpGTy(op), ShaderOp(FloatKind, d, op, Shown(FloatKind, d, a), Shown(FloatKind, d, b)), v))
  {
    if a.N? {
      WrapIdentity(a.n);
    }
    if b.N? {
      WrapIdentity(b.n);
    }
    hide Wrap32;
    var x, y := Promoted(d, a), Promoted(d, b);
    assert Shown(FloatKind, d, a) == R(x) && Shown(FloatKind, d, b) == R(y);
    assert OrderOk(d, x, y);
  }

  // For every operator and all values of a map: the shader's operation does what the CPU's does if and only if OpFits.
  lemma OperateExact(kind: Kind, d: Driver, sgn: bool, op: H.Op, a: V, b: V)
    requires DriverOk(d) && Holds(kind, a) && Holds(kind, b) && HasGlslOp(op) && (kind == FloatKind ==> op != H.Mod)
    requires (kind != UintKind ==> sgn) && Decided(kind, a, b) && Operate(kind, d, sgn, op, a, b).Some?
    ensures var v := Operate(kind, d, sgn, op, a, b).value;
            && Holds(kind, v)
            && (OpFits(kind, d, sgn, op, a, b) <==>
                  Same(kind, d, OpGTy(op), ShaderOp(kind, d, op, Shown(kind, d, a), Shown(kind, d, b)), v))
  {
    hide Operate, ShaderOp, SignFits, IntFits;
    match kind
    case FloatKind =>
      if a.N? && b.N? {
        FloatedExact(d, op, a.n, b.n);
      } else {
        MixedExact(d, sgn, op, a, b);
      }
    case IntKind => SignedSame(d, op, a.n, b.n);
    case UintKind => UnsignedExact(d, sgn, op, a.n, b.n);
  }

  // For every value: the shader's minus does what the CPU's does if and only if NegFits.
  lemma NegExact(kind: Kind, d: Driver, v: V)
    requires DriverOk(d) && Holds(kind, v) && NegDecided(kind, d, v)
    ensures var w := Unary(kind, d, Neg, v).value;
            Holds(kind, w) && (NegFits(kind, d, v) <==> Negated(kind, d, Shown(kind, d, v)) == Shown(kind, d, w))
  {
    if v.R? {
      assert SubtractOk(d, v.bits);
    } else if kind == FloatKind {
      assert MinusOk(d, v.n) && MinusOk(d, 0);
      if v.n == -I32_LIMIT {
        assert NearOk(d, I32_LIMIT, -I32_LIMIT);
        assert Wrap32(I32_LIMIT) == -I32_LIMIT;
      } else {
        WrapIdentity(-v.n);
      }
    }
  }

  // ---- assignments ----

  predicate UpdateFits(k: Kernel, op: H.Op, cur: V, v: V) {
    k.kind == UintKind && !k.fused && cur.N? && v.N? ==> SignFits(op, cur.n, v.n)
  }

  lemma UpdateExact(k: Kernel, d: Driver, op: H.Op, cur: V, v: V)
    requires DriverOk(d) && InColumn(k.kind, cur) && Holds(k.kind, v) && HasGlslOp(op) && !Compares(op)
    requires (k.kind == FloatKind ==> op != H.Mod) && Assigned(k, d, Some(op), cur, v).Some?
    ensures var w := Assigned(k, d, Some(op), cur, v).value;
            InColumn(k.kind, w) && (UpdateFits(k, op, cur, v) <==> Arith(k.kind, d, op, cur, Shown(k.kind, d, v)) == Some(w))
  {
    match k.kind
    case FloatKind =>
      if v.N? {
        WrapIdentity(v.n);
      }
    case IntKind =>
      hide SignFits;
      SignedSame(d, op, cur.n, v.n);
    case UintKind =>
      hide SignFits;
      UnsignedExact(d, !k.fused, op, cur.n, v.n);
  }

  // ---- what both sides share ----

  // The one 32-bit number of the element type's range that differs by a multiple of 2^32.
  lemma NormExact(kind: Kind, n: int, w: int)
    requires if kind == UintKind then 0 <= w < 0x1_0000_0000 else -0x8000_0000 <= w < 0x8000_0000
    ensures Norm(kind, n) == w <==> (n - w) % 0x1_0000_0000 == 0
  {
  }

  // The six comparisons of integers, and no others.
  lemma ComparisonsExact(op: H.Op, a: int, b: int)
    ensures IntCompare(op, a, b) == Some(true) <==>
              || (op == H.Eq && a == b) || (op == H.Neq && a != b) || (op == H.Lt && a < b) || (op == H.Gt && a > b)
              || (op == H.Lte && a <= b) || (op == H.Gte && a >= b)
    ensures IntCompare(op, a, b).Some? <==> op in {H.Eq, H.Neq, H.Lt, H.Gt, H.Lte, H.Gte}
  {
  }

  // Each operator of floats is the platform's operation of that name.
  lemma FloatOps(d: Driver, op: H.Op, a: nat, b: nat)
    ensures FloatArith(d, H.Add, a, b) == Some(R(d.add(a, b))) && FloatArith(d, H.Sub, a, b) == Some(R(d.sub(a, b)))
    ensures FloatArith(d, H.Mul, a, b) == Some(R(d.mul(a, b))) && FloatArith(d, H.Div, a, b) == Some(R(d.div(a, b)))
    ensures FloatArith(d, op, a, b).Some? <==> op in {H.Add, H.Sub, H.Mul, H.Div}
    ensures FloatCompare(d, H.Lt, a, b) == Some(d.lt(a, b)) && FloatCompare(d, H.Gt, a, b) == Some(d.lt(b, a))
    ensures FloatCompare(d, H.Lte, a, b) == Some(d.le(a, b)) && FloatCompare(d, H.Gte, a, b) == Some(d.le(b, a))
  {
  }
}

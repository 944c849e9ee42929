// What the rules of the HIR's meaning come to: arithmetic, storage and types said in other words, arrays and scopes seen
// from outside, and that a run which ends does not depend on the bound on its loops.
module HirLaws {
  import opened Bytes
  import opened Values
  import opened Hir
  import opened HirSem

  // ---- arithmetic ----

  // The one 32-bit integer that differs by a multiple of 2^32.
  lemma WrapExact(v: int, w: int)
    requires -0x8000_0000 <= w < 0x8000_0000
    ensures Wrap32(v) == w <==> (v - w) % 0x1_0000_0000 == 0
  {
  }

  // The remainder is smaller than the divisor and not of the other sign than the dividend.
  predicate Divided(a: int, b: int, q: int, r: int) {
    a == b * q + r && Abs(r) < Abs(b) && (r > 0 ==> a > 0) && (r < 0 ==> a < 0)
  }

  // Quotient and remainder as the language has them are that, and no other two integers are.
  lemma QuotientExact(a: int, b: int, q: int, r: int)
    requires b != 0
    ensures q == TruncDiv(a, b) && r == TruncRem(a, b) <==> Divided(a, b, q, r)
  {
    QuotientHolds(a, b);
    hide TruncDiv, TruncRem, Divided;
    if Divided(a, b, q, r) {
      QuotientUnique(a, b, q, r, TruncDiv(a, b), TruncRem(a, b));
    }
  }

  lemma QuotientHolds(a: int, b: int)
    requires b != 0
    ensures Divided(a, b, TruncDiv(a, b), TruncRem(a, b))
  {
    var k, m := Parts(a, b);
    WithSigns(a, b, k, m);
  }

  lemma Parts(a: int, b: int) returns (k: nat, m: nat)
    requires b != 0
    ensures Abs(a) == Abs(b) * k + m && m < Abs(b)
    ensures TruncDiv(a, b) == if (a < 0) == (b < 0) then k as int else -(k as int)
    ensures TruncRem(a, b) == if a < 0 then -(m as int) else m
  {
    k, m := Abs(a) / Abs(b), Abs(a) % Abs(b);
    DivMod(Abs(a), Abs(b));
  }

  lemma WithSigns(a: int, b: int, k: nat, m: nat)
    requires b != 0 && Abs(a) == Abs(b) * k + m && m < Abs(b)
    ensures Divided(a, b, if (a < 0) == (b < 0) then k as int else -(k as int), if a < 0 then -(m as int) else m)
  {
    SignsOut(a, b, k);
  }

  lemma QuotientUnique(a: int, b: int, q: int, r: int, q0: int, r0: int)
    requires b != 0 && Divided(a, b, q, r) && Divided(a, b, q0, r0)
    ensures q == q0 && r == r0
  {
    assert b * (q - q0) == r0 - r;
    assert Abs(r0 - r) < Abs(b);
    Apart(b, q - q0);
  }

  lemma DivMod(x: nat, y: nat)
    requires y != 0
    ensures x == y * (x / y) + x % y && 0 <= x % y < y
  {
  }

  lemma SignsOut(a: int, b: int, k: nat)
    requires b != 0
    ensures b * (if (a < 0) == (b < 0) then k as int else -(k as int)) == if a < 0 then -(Abs(b) * k) else Abs(b) * k
  {
  }

  lemma Apart(b: int, k: int)
    ensures k != 0 ==> Abs(b * k) >= Abs(b)
  {
    if k >= 1 {
      MulApart(Abs(b), k);
      assert Abs(b) * k == Abs(b * k);
    } else if k <= -1 {
      MulApart(Abs(b), k);
      assert Abs(b) * -k == Abs(b * k);
    }
  }

  predicate BitOf(x: nat, k: nat) { x / Pow2(k) % 2 == 1 }

  lemma NextBit(x: nat, k: nat)
    requires k > 0
    ensures BitOf(x, k) == BitOf(x / 2, k - 1)
  {
    DivideTwice(x, 2, Pow2(k - 1));
  }

  lemma LowBit(x: nat)
    ensures BitOf(x, 0) <==> x % 2 == 1
  {
    assert Pow2(0) == 1;
  }

  lemma FirstBits(a: nat, b: nat, n: nat)
    requires n > 0
    ensures BitOf(BitAnd(a, b, n), 0) <==> BitOf(a, 0) && BitOf(b, 0)
    ensures BitOf(BitOr(a, b, n), 0) <==> BitOf(a, 0) || BitOf(b, 0)
  {
    LowBit(a);
    LowBit(b);
    LowBit(BitAnd(a, b, n));
    LowBit(BitOr(a, b, n));
    hide BitOf;
    var c, d := BitAnd(a / 2, b / 2, n - 1), BitOr(a / 2, b / 2, n - 1);
    assert BitAnd(a, b, n) == (if a % 2 == 1 && b % 2 == 1 then 1 else 0) + 2 * c;
    assert BitOr(a, b, n) == (if a % 2 == 1 || b % 2 == 1 then 1 else 0) + 2 * d;
  }

  // Bit by bit.
  lemma {:induction false} BitsExact(a: nat, b: nat, n: nat, k: nat)
    requires k < n
    ensures BitOf(BitAnd(a, b, n), k) <==> BitOf(a, k) && BitOf(b, k)
    ensures BitOf(BitOr(a, b, n), k) <==> BitOf(a, k) || BitOf(b, k)
    decreases n
  {
    hide BitOf;
    if k > 0 {
      BitsExact(a / 2, b / 2, n - 1, k - 1);
      NextBit(a, k);
      NextBit(b, k);
      NextBit(BitAnd(a, b, n), k);
      NextBit(BitOr(a, b, n), k);
      assert BitAnd(a, b, n) / 2 == BitAnd(a / 2, b / 2, n - 1);
      assert BitOr(a, b, n) / 2 == BitOr(a / 2, b / 2, n - 1);
    } else {
      FirstBits(a, b, n);
    }
  }

  lemma DivideTwice(x: int, d: nat, p: nat)
    requires d >= 1 && p >= 1
    ensures d * p >= 1 && x / (d * p) == x / d / p
  {
    var q, r := x / d / p, x / d % p;
    var m := d * r + x % d;
    MulApart(d, p);
    assert x == (d * p) * q + m by {
      assert x == d * (p * q + r) + x % d;
      assert d * (p * q) == (d * p) * q;
    }
    assert 0 <= m < d * p by {
      assert d * r <= d * (p - 1);
    }
    ModUnique(x, d * p, q, m);
  }

  // Each byte of a stored number, the lowest first.
  lemma {:induction false} StoredByte(v: int, n: nat, k: nat)
    requires k < n
    ensures LeBytes(v, n)[k] == v / Pow256(k) % 256
    decreases n
  {
    if k > 0 {
      StoredByte(v / 256, n - 1, k - 1);
      DivideTwice(v, 256, Pow256(k - 1));
    }
  }

  // ---- types ----

  predicate Plain(e: Expr) { !(e.Binary? && Arith(e.op)) }

  // Of operands that are no arithmetic themselves: the operation is unsigned if the first one of an integer type is, and
  // 32 bits wide or as wide as the wider one; elements narrower than 32 bits are widened first.
  lemma OperandRule(l: Expr, r: Expr)
    requires Plain(l) && Plain(r)
    ensures !OpSigned(l, r) <==>
              (l.ty.TInt? && !l.ty.isSigned) || (!l.ty.TInt? && r.ty.TInt? && !r.ty.isSigned)
    ensures !l.Index? && !r.Index? && l.ty.TInt? && r.ty.TInt? && l.ty.width > 0 ==>
              OpWidth(l, r) >= l.ty.width && OpWidth(l, r) >= r.ty.width && OpWidth(l, r) in {l.ty.width, r.ty.width}
    ensures l.Index? && r.Index? && l.ty.TInt? && r.ty.TInt? && l.ty.width <= 32 && r.ty.width <= 32 ==> OpWidth(l, r) == 32
    ensures !l.ty.TInt? && !r.ty.TInt? ==> OpWidth(l, r) == 32
  {
  }

  // Arithmetic of integers has the sign and the width of its operands.
  lemma ArithmeticRule(op: Op, l: Expr, r: Expr, t: HType)
    requires op in {Add, Sub, Mul, Div, Mod} && !l.ty.TFloat? && !r.ty.TFloat?
    ensures SignOf(Binary(op, l, r, t)) == Some(OpSigned(l, r)) && WidthOf(Binary(op, l, r, t)) == OpWidth(l, r)
    ensures SignOf(Binary(op, l, Name("", TFloat), t)) == None && WidthOf(Binary(op, l, Name("", TFloat), t)) == 0
  {
  }

  // A binding makes an array if its declared type is one, or its value's type is while the declared one is none.
  lemma ArrayBinding(declared: Option<HType>, value: Option<Expr>)
    ensures var made := (t: HType) => t.TShaped? || t.TArray? || t.TCharArray?;
            && (BindArrayType(declared, value).Some? <==>
                 (declared.Some? && made(declared.value)) || (value.Some? && made(value.value.ty)))
            && (declared.Some? && made(declared.value) ==> BindArrayType(declared, value) == declared)
            && (!(declared.Some? && made(declared.value)) && value.Some? && made(value.value.ty) ==>
                 BindArrayType(declared, value) == Some(value.value.ty))
  {
  }

  // ---- arrays ----

  // Element types with a meaning.
  predicate HasElements(t: HType) {
    || t.TChar? || t.TFloat? || (t.TNamed? && t.tname == "bool")
    || (t.TInt? && (t.width == 8 || t.width == 16 || (t.width == 32 && t.isSigned)))
  }

  // Declaring an array without a value makes one of as many zeros as its type says; nothing else changes. It has no
  // meaning exactly for other element types and for no elements.
  lemma ArrayMade(env: Env, depth: nat, st: State, name: string, t: HType, n: int, fuel: nat)
    ensures var r := Exec(env, depth, st, Bind(name, Some(TShaped(t, n)), None), fuel);
            if HasElements(t) && n >= 1 then
              && r.Done? && r.st.vars == st.vars && r.st.trace == st.trace && name in r.st.arrs
              && |r.st.arrs[name].vals| == n
              && (forall k :: 0 <= k < n ==> r.st.arrs[name].vals[k] == if t.TFloat? then VF(ZERO_BITS) else VI(0))
              && (forall a :: a != name ==> (a in r.st.arrs <==> a in st.arrs) && (a in st.arrs ==> r.st.arrs[a] == st.arrs[a]))
            else r == Wild
  {
  }

  // What an integer element of w bits keeps of a value: the number of its range that differs by a multiple of 2^w.
  lemma NarrowExact(w: nat, s: bool, v: int, x: int)
    requires w >= 1 && if s then -(Pow2(w - 1) as int) <= x < Pow2(w - 1) else 0 <= x < Pow2(w)
    ensures Narrow(EInt(w, s), v) == x <==> exists k :: v == x + k * Pow2(w)
  {
    var p := Pow2(w);
    var y := Narrow(EInt(w, s), v);
    assert Pow2(w) == 2 * Pow2(w - 1);
    assert v == p * (v / p) + v % p;
    assert exists k :: v == y + k * p by {
      var k := if y == v % p then v / p else v / p + 1;
      assert p * (v / p + 1) == p * (v / p) + p;
      assert v == y + k * p;
    }
    if k :| v == x + k * p {
      var j :| v == y + j * p;
      assert p * (k - j) == y - x;
      MulApart(p, k - j);
    }
  }

  // A plain assignment to an element changes that element and nothing else; the value is evaluated after the index.
  lemma ElementSet(env: Env, depth: nat, st: State, a: string, i: Expr, rhs: Expr, t: HType, u: HType, fuel: nat)
    requires a in st.arrs && Eval(env, depth, st, i).EV? && Eval(env, depth, st, rhs).EV?
    ensures var r := Exec(env, depth, st, Assign(Index(Name(a, t), [i], u), rhs, None), fuel);
            var k, v, was := Eval(env, depth, st, i).v, Eval(env, depth, st, rhs).v, st.arrs[a];
            if k.VI? && 0 <= k.i < |was.vals| then
              && r.Done? && r.st.vars == st.vars && r.st.trace == st.trace && r.st.arrs.Keys == st.arrs.Keys
              && (forall b :: b in st.arrs && b != a ==> r.st.arrs[b] == st.arrs[b])
              && r.st.arrs[a].ety == was.ety && |r.st.arrs[a].vals| == |was.vals|
              && (forall j :: 0 <= j < |was.vals| && j != k.i ==> r.st.arrs[a].vals[j] == was.vals[j])
              && (was.ety.EFloat? ==> r.st.arrs[a].vals[k.i] == VF(if v.VF? then v.f else env.host.ofInt(v.i)))
              && (was.ety.EInt? && v.VI? ==> r.st.arrs[a].vals[k.i] == VI(Narrow(was.ety, v.i)))
              && (was.ety.EChar? && v.VI? ==> r.st.arrs[a].vals[k.i] == VI(v.i % 256))
            else r == Wild
  {
  }

  // ---- scopes ----

  predicate Nested(s: Stmt) { s.For? || s.Cond? }

  // Behind a loop or a conditional the same names are visible as before it.
  lemma ScopesClose(env: Env, depth: nat, st: State, s: Stmt, fuel: nat)
    requires Nested(s) && Exec(env, depth, st, s, fuel).Done?
    ensures var r := Exec(env, depth, st, s, fuel).st; r.vars.Keys <= st.vars.Keys && r.arrs.Keys <= st.arrs.Keys
  {
  }

  // ---- the bound on loops ----

  lemma {:induction false} FuelOpt(env: Env, depth: nat, st: State, s: Option<Stmt>, f: nat, g: nat)
    requires f <= g && ExecOpt(env, depth, st, s, f) != Timeout
    ensures ExecOpt(env, depth, st, s, g) == ExecOpt(env, depth, st, s, f)
    decreases f, s, 1
  {
    if s.Some? {
      FuelStmt(env, depth, st, s.value, f, g);
    }
  }

  lemma {:induction false} FuelStmt(env: Env, depth: nat, st: State, s: Stmt, f: nat, g: nat)
    requires f <= g && Exec(env, depth, st, s, f) != Timeout
    ensures Exec(env, depth, st, s, g) == Exec(env, depth, st, s, f)
    decreases f, s, 2
  {
    match s
    case For(iterable, init, cond, incr, body) =>
      if iterable.None? {
        FuelOpt(env, depth, st, init, f, g);
        var r := ExecOpt(env, depth, st, init, f);
        if r.Done? {
          FuelLoop(env, depth, r.st, cond, incr, body, f, g);
        }
      }
    case Cond(test, thn, els) =>
      var v := Eval(env, depth, st, test);
      if v.EV? && v.v.VI? {
        FuelAll(env, depth, st, if v.v.i != 0 then thn else els, f, g);
      }
    case _ =>
  }

  lemma {:induction false} FuelLoop(env: Env, depth: nat, st: State, cond: Option<Expr>, incr: Option<Stmt>, body: seq<Stmt>, f: nat, g: nat)
    requires f <= g && ExecLoop(env, depth, st, cond, incr, body, f) != Timeout
    ensures ExecLoop(env, depth, st, cond, incr, body, g) == ExecLoop(env, depth, st, cond, incr, body, f)
    decreases f, body, 0
  {
    var v := TestVal(env, depth, st, cond);
    if v.EV? && v.v.VI? && v.v.i != 0 {
      FuelAll(env, depth, st, body, f - 1, g - 1);
      var r := LeaveRes(st, ExecAll(env, depth, st, body, f - 1));
      if r.Done? {
        FuelOpt(env, depth, r.st, incr, f - 1, g - 1);
        var n := LeaveRes(r.st, ExecOpt(env, depth, r.st, incr, f - 1));
        if n.Done? {
          FuelLoop(env, depth, n.st, cond, incr, body, f - 1, g - 1);
        }
      }
    }
  }

  // A run that ends is the same under every larger bound: there is one meaning.
  lemma {:induction false} FuelAll(env: Env, depth: nat, st: State, ss: seq<Stmt>, f: nat, g: nat)
    requires f <= g && ExecAll(env, depth, st, ss, f) != Timeout
    ensures ExecAll(env, depth, st, ss, g) == ExecAll(env, depth, st, ss, f)
    decreases f, ss, 0
  {
    if ss != [] {
      FuelStmt(env, depth, st, ss[0], f, g);
      var r := Exec(env, depth, st, ss[0], f);
      if r.Done? {
        FuelAll(env, depth, r.st, ss[1..], f, g);
      }
    }
  }
}

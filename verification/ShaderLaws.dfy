// A toy platform that keeps every law asked of one, so the laws do not contradict each other.
module ShaderLaws {
  import opened Bytes
  import opened Values
  import opened IntLiterals
  import opened ShaderLang
  import opened ShaderFits
  import opened ShaderLower
  import opened ShaderMeans
  import opened ShaderSafe

  // Integers, minus zero and a NaN; everything else is rounded to the NaN.
  const TOY_NAN: nat := 0
  const TOY_MINUS: nat := 1

  function ToyInt(n: int): nat { if n >= 0 then 2 + 2 * n else 1 - 2 * n }

  function ToyOf(x: nat): Option<int> {
    if x == TOY_NAN then None else if x == TOY_MINUS then Some(0)
    else if x % 2 == 0 then Some(x / 2 - 1) else Some(-(x / 2 as int))
  }

  lemma ToyRound(n: int)
    ensures ToyOf(ToyInt(n)) == Some(n) && ToyInt(n) >= 2
  {
  }

  // Digits with .0 behind them.
  function ToyWhole(u: string): Option<nat> {
    if |u| >= 3 && u[|u| - 2] == '.' && u[|u| - 1] == '0' && AllDigits(u[..|u| - 2], 10) then Some(Positional(u[..|u| - 2], 10)) else None
  }

  function ToyParse(s: string): nat {
    match ToyWhole(Magnitude(s))
    case None => ToyInt(1)
    case Some(n) => ToyInt(if Magnitude(s) == s then n else -(n as int))
  }

  function ToyAdd(x: nat, y: nat): nat {
    match (ToyOf(x), ToyOf(y))
    case (Some(a), Some(b)) => ToyInt(a + b)
    case _ => TOY_NAN
  }

  function ToyTest(f: (int, int) -> bool): (nat, nat) -> bool {
    (x: nat, y: nat) => ToyOf(x).Some? && ToyOf(y).Some? && f(ToyOf(x).value, ToyOf(y).value)
  }

  function ToyMul(x: nat, y: nat): nat {
    match (ToyOf(x), ToyOf(y))
    case (Some(a), Some(b)) => if a * b == 0 && (a < 0 || b < 0) then TOY_MINUS else ToyInt(a * b)
    case _ => TOY_NAN
  }

  function ToyDiv(x: nat, y: nat): nat {
    match (ToyOf(x), ToyOf(y))
    case (Some(a), Some(b)) =>
      if b == 0 || a % b != 0 then TOY_NAN else if a == 0 && b < 0 then TOY_MINUS else ToyInt(a / b)
    case _ => TOY_NAN
  }

  function ToyNeg(x: nat): nat {
    match ToyOf(x)
    case None => TOY_NAN
    case Some(n) => if x == ToyInt(0) then TOY_MINUS else ToyInt(-n)
  }

  function ToySub(x: nat, y: nat): nat {
    match (ToyOf(x), ToyOf(y))
    case (Some(a), Some(b)) => ToyInt(a - b)
    case _ => TOY_NAN
  }

  function Toy(): Driver {
    Driver(ToyParse, ToyInt, ToyAdd, ToySub, ToyMul, ToyDiv, ToyNeg, x => x,
           ToyTest((a, b) => a == b), ToyTest((a, b) => a < b), ToyTest((a, b) => a <= b),
           (a, b) => if b == 0 then 0 else TruncRem(a, b))
  }

  lemma ToyIntegers()
    ensures Integers(Toy())
  {
    forall a, b
      ensures PairOk(Toy(), a, b)
    {
      ToyRound(a);
      ToyRound(b);
      ToyRound(0);
    }
  }

  lemma ToyQuotients()
    ensures Quotients(Toy())
  {
    forall a, b, q
      ensures QuotientOk(Toy(), a, b, q)
    {
      ToyRound(a);
      ToyRound(b);
      ToyRound(q);
      if b != 0 {
        ToyQuotient(a, b, q);
      }
    }
  }

  lemma ToyQuotient(a: int, b: int, q: int)
    requires b != 0
    ensures a == q * b <==> a % b == 0 && a / b == q
    ensures ToyInt(a / b) == ToyInt(q) <==> a / b == q
  {
    if a == q * b {
      EuclidIs(a, b, q, 0);
      Cancel(a / b, q, b);
    }
    ToyRound(a / b);
    ToyRound(q);
  }

  lemma Cancel(m: int, n: int, b: int)
    requires b != 0 && m * b == n * b
    ensures m == n
  {
    assert (m - n) * b == 0;
    NoZeroFactors(m - n, b);
  }

  lemma ToyOthers()
    ensures Roundings(Toy()) && Minuses(Toy()) && Orders(Toy()) && Remainders(Toy())
  {
    forall m, n
      ensures NearOk(Toy(), m, n)
    {
      ToyRound(m);
      ToyRound(n);
    }
    forall n
      ensures MinusOk(Toy(), n)
    {
      ToyRound(n);
      ToyRound(0);
    }
    forall x
      ensures SubtractOk(Toy(), x)
    {
    }
  }

  lemma {:induction false} DigitCounts(s: string, i: nat)
    requires AllDigits(s, 10) && i < |s| && s[i] != '0'
    ensures Positional(s, 10) > 0
  {
    if i == 0 {
      PowerPositive(10, |s| - 1);
      var p := Power(10, |s| - 1);
      assert DigitVal(s[0]).value >= 1;
      assert DigitVal(s[0]).value * p >= p by { ScaleLeft(1, DigitVal(s[0]).value, p); }
    } else {
      DigitCounts(s[1..], i - 1);
    }
  }

  lemma ToyTexts()
    ensures Texts(Toy())
  {
    forall lx
      ensures TextOk(Toy(), lx)
    {
      ToyText(lx);
    }
  }

  lemma ToyStem(lx: string)
    requires AllDigits(lx, 10) && 0 < |lx|
    ensures ToyWhole(lx + ".0") == Some(Positional(lx, 10))
  {
    hide Positional, IsDigit;
    var u := lx + ".0";
    assert u[..|u| - 2] == lx;
  }

  lemma ToySigned(u: string)
    requires u != [] && u[0] != '-' && ToyWhole(u).Some?
    ensures ToyParse(u) == ToyInt(ToyWhole(u).value) && ToyParse("-" + u) == ToyInt(-(ToyWhole(u).value as int))
  {
    hide ToyWhole, ToyInt;
    var t := "-" + u;
    assert t[1..] == u;
    assert Magnitude(u) == u && Magnitude(t) == u && t != u;
  }

  lemma ToyDigits(lx: string)
    requires AllDigits(lx, 10) && 0 < |lx|
    ensures ToyParse(lx + ".0") == ToyInt(Positional(lx, 10))
    ensures ToyParse("-" + lx + ".0") == ToyInt(-(Positional(lx, 10) as int))
  {
    ToyStem(lx);
    assert IsDigit(lx[0], 10);
    assert lx[0] != '-';
    hide Positional, ToyWhole, ToyInt, ToyParse, AllDigits, IsDigit;
    Joined("-", lx, ".0");
    ToySigned(lx + ".0");
  }

  lemma Joined(a: string, b: string, c: string)
    ensures a + (b + c) == a + b + c && (b != [] ==> b + c != [] && (b + c)[0] == b[0])
  {
  }

  lemma ToyCounts(lx: string)
    requires NonzeroText(lx) && ToyWhole(lx).Some?
    ensures ToyWhole(lx).value > 0
  {
    var i :| 0 <= i < |lx| && IsDigit(lx[i], 10) && lx[i] != '0';
    assert !IsDigit('.', 10);
    var stem := lx[..|lx| - 2];
    assert i < |stem| && stem[i] == lx[i];
    hide Positional;
    DigitCounts(stem, i);
  }

  lemma ToyNonzero(lx: string)
    requires NonzeroText(lx)
    ensures ToyOf(ToyParse(lx)).Some? && ToyParse(lx) != ToyInt(0)
  {
    assert lx != [] && lx[0] != '-' by { assert IsDigit(lx[0], 10) || lx[0] == '.'; }
    hide NonzeroText, ToyWhole;
    ToyRound(0);
    ToyRound(1);
    assert Magnitude(lx) == lx;
    if ToyWhole(lx).Some? {
      ToyCounts(lx);
      ToyRound(ToyWhole(lx).value);
    }
  }

  lemma ToyText(lx: string)
    ensures TextOk(Toy(), lx)
  {
    hide ToyParse, ToyInt, ToyOf, NonzeroText;
    if AllDigits(lx, 10) && 0 < |lx| <= 18 {
      ToyDigits(lx);
    }
    if NonzeroText(lx) {
      ToyNonzero(lx);
    }
  }

  // The laws can be kept, and with a NaN.
  lemma LawsKept()
    ensures DriverOk(Toy()) && !Number(Toy(), TOY_NAN)
  {
    hide Integers, Quotients, Roundings, Minuses, Orders, Texts, Remainders;
    ToyIntegers();
    ToyQuotients();
    ToyOthers();
    ToyTexts();
    assert ToyOf(TOY_NAN) == None;
    assert Toy().eq == ToyTest((a, b) => a == b);
  }
}

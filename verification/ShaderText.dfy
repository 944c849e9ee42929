// The text of a shader's body, as tokens: how the emitter writes it, one token after the other, and how GLSL's grammar
// takes it apart again, operator precedence included.
module ShaderText {
  import opened Bytes
  import opened ShaderLang
  import opened ShaderLower
  import H = Hir

  // Words are names and keywords; a number is a literal's text, with its sign if it has one.
  datatype Tok = Word(w: string) | Num(t: string) | Sym(s: string)

  function TypeWord(kind: Kind): string {
    match kind case FloatKind => "float" case IntKind => "int" case UintKind => "uint"
  }

  function OpText(op: H.Op): string {
    match op
    case Add => "+" case Sub => "-" case Mul => "*" case Div => "/" case Mod => "%"
    case Eq => "==" case Neq => "!=" case Lt => "<" case Gt => ">" case Lte => "<=" case Gte => ">="
    case And => "&&" case Or => "||" case Fmap => "|>"
  }

  function OpOf(s: string): Option<H.Op> {
    if s == "+" then Some(H.Add) else if s == "-" then Some(H.Sub) else if s == "*" then Some(H.Mul)
    else if s == "/" then Some(H.Div) else if s == "%" then Some(H.Mod) else if s == "==" then Some(H.Eq)
    else if s == "!=" then Some(H.Neq) else if s == "<" then Some(H.Lt) else if s == ">" then Some(H.Gt)
    else if s == "<=" then Some(H.Lte) else if s == ">=" then Some(H.Gte) else None
  }

  const OPEN: Tok := Sym("(")
  const CLOSE: Tok := Sym(")")

  // ---- writing ----

  function PrintE(kind: Kind, g: GExpr): (r: seq<Tok>)
    ensures r != []
  {
    match g
    case GCol(c) => [Word(c), Sym("["), Word("i"), Sym("]")]
    case GVar(x) => [Word(x)]
    case GLit(t) => [Num(t)]
    case GNeg(e) => [OPEN, Sym("-"), OPEN] + PrintE(kind, e) + [CLOSE, CLOSE]
    case GBin(op, l, r) => [OPEN] + PrintE(kind, l) + [Sym(OpText(op))] + PrintE(kind, r) + [CLOSE]
    case GCast(e) => [Word(TypeWord(kind)), OPEN] + PrintE(kind, e) + [CLOSE]
    case GSel(c, a, b) =>
      [OPEN, OPEN] + PrintE(kind, c) + [CLOSE, Sym("?"), OPEN] + PrintE(kind, a) + [CLOSE, Sym(":"), OPEN]
      + PrintE(kind, b) + [CLOSE, CLOSE]
    case GSqrt(e) => [Word("sqrt"), OPEN] + PrintE(kind, e) + [CLOSE]
  }

  function PrintS(kind: Kind, s: GStmt): seq<Tok>
    decreases s, 0
  {
    match s
    case GAssign(c, None, e) => Target(c) + PrintE(kind, e) + [Sym(";")]
    case GAssign(c, Some(op), e) =>
      Target(c) + [Word(c), Sym("["), Word("i"), Sym("]"), Sym(OpText(op)), OPEN] + PrintE(kind, e) + [CLOSE] + [Sym(";")]
    case GDecl(x, e) => [Word(TypeWord(kind)), Word(x), Sym("=")] + PrintE(kind, e) + [Sym(";")]
    case GIf(c, t, hasElse, e) =>
      [Word("if"), OPEN] + PrintE(kind, c) + [CLOSE, Sym("{")] + PrintAll(kind, t) + [Sym("}")]
      + (if hasElse then [Word("else"), Sym("{")] + PrintAll(kind, e) + [Sym("}")] else [])
  }

  function Target(c: string): seq<Tok> { [Word(c), Sym("["), Word("i"), Sym("]"), Sym("=")] }

  function PrintAll(kind: Kind, ss: seq<GStmt>): seq<Tok>
    decreases ss, 0
  {
    if ss == [] then [] else PrintS(kind, ss[0]) + PrintAll(kind, ss[1..])
  }

  lemma {:induction false} PrintAppend(kind: Kind, a: seq<GStmt>, b: seq<GStmt>)
    ensures PrintAll(kind, a + b) == PrintAll(kind, a) + PrintAll(kind, b)
    decreases |a|
  {
    if a == [] {
      assert a + b == b;
    } else {
      assert (a + b)[1..] == a[1..] + b;
      PrintAppend(kind, a[1..], b);
    }
  }

  // ---- reading ----

  predicate At(ts: seq<Tok>, t: Tok) { ts != [] && ts[0] == t }

  // The word is GLSL's name of the shader's element type.
  predicate NamesType(kind: Kind, w: string) {
    match kind case FloatKind => w == "float" case IntKind => w == "int" case UintKind => w == "uint"
  }

  lemma TypeWordNames(kind: Kind)
    ensures NamesType(kind, TypeWord(kind)) && forall w :: NamesType(kind, w) ==> w == TypeWord(kind)
  {
  }

  // How tightly a binary operator binds; operators of one level group from the left.
  function LevelOf(op: H.Op): (n: nat)
    ensures n < UNARY
  {
    if op == H.Mul || op == H.Div || op == H.Mod then 3
    else if op == H.Add || op == H.Sub then 2
    else if op == H.Eq || op == H.Neq then 0 else 1
  }

  const UNARY: nat := 4

  predicate OpAt(ts: seq<Tok>, n: nat) {
    ts != [] && ts[0].Sym? && OpOf(ts[0].s).Some? && LevelOf(OpOf(ts[0].s).value) == n
  }

  // A conditional expression: the weakest binding.
  function ReadE(kind: Kind, ts: seq<Tok>): (r: Option<(GExpr, seq<Tok>)>)
    ensures r.Some? ==> |r.value.1| < |ts|
    decreases |ts|, 8
  {
    match ReadLevel(kind, 0, ts)
    case None => None
    case Some(c) =>
      if !At(c.1, Sym("?")) then Some(c)
      else match ReadE(kind, c.1[1..])
        case None => None
        case Some(a) =>
          if !At(a.1, Sym(":")) then None
          else match ReadE(kind, a.1[1..]) case None => None case Some(b) => Some((GSel(c.0, a.0, b.0), b.1))
  }

  // Operands of the next level with this level's operators between them.
  function ReadLevel(kind: Kind, n: nat, ts: seq<Tok>): (r: Option<(GExpr, seq<Tok>)>)
    requires n <= UNARY
    ensures r.Some? ==> |r.value.1| < |ts|
    decreases |ts|, 6 - n
  {
    if n == UNARY then ReadUnary(kind, ts)
    else match ReadLevel(kind, n + 1, ts)
      case None => None
      case Some(x) => ReadMore(kind, n, x.0, x.1)
  }

  function ReadMore(kind: Kind, n: nat, x: GExpr, ts: seq<Tok>): (r: Option<(GExpr, seq<Tok>)>)
    requires n < UNARY
    ensures r.Some? ==> |r.value.1| <= |ts|
    decreases |ts|, 7
  {
    if !OpAt(ts, n) then Some((x, ts))
    else match ReadLevel(kind, n + 1, ts[1..])
      case None => None
      case Some(y) => ReadMore(kind, n, GBin(OpOf(ts[0].s).value, x, y.0), y.1)
  }

  function ReadUnary(kind: Kind, ts: seq<Tok>): (r: Option<(GExpr, seq<Tok>)>)
    ensures r.Some? ==> |r.value.1| < |ts|
    decreases |ts|, 1
  {
    if At(ts, Sym("-")) then
      (match ReadUnary(kind, ts[1..]) case None => None case Some(p) => Some((GNeg(p.0), p.1)))
    else ReadPrimary(kind, ts)
  }

  // A literal, a name, an element, a call of sqrt or of the element type, an expression in parentheses.
  function ReadPrimary(kind: Kind, ts: seq<Tok>): (r: Option<(GExpr, seq<Tok>)>)
    ensures r.Some? ==> |r.value.1| < |ts|
    decreases |ts|, 0
  {
    if ts == [] then None
    else match ts[0]
      case Num(t) => Some((GLit(t), ts[1..]))
      case Word(w) =>
        if At(ts[1..], Sym("(")) then
          (match ReadE(kind, ts[2..])
           case None => None
           case Some(p) =>
             if !At(p.1, Sym(")")) then None
             else if w == "sqrt" then Some((GSqrt(p.0), p.1[1..]))
             else if NamesType(kind, w) then Some((GCast(p.0), p.1[1..])) else None)
        else if At(ts[1..], Sym("[")) then
          (if |ts| >= 4 && ts[2] == Word(INDEX) && ts[3] == Sym("]") then Some((GCol(w), ts[4..])) else None)
        else Some((GVar(w), ts[1..]))
      case Sym(s) =>
        if s != "(" then None
        else match ReadE(kind, ts[1..])
          case None => None
          case Some(p) => if At(p.1, Sym(")")) then Some((p.0, p.1[1..])) else None
  }

  // What may follow a name without changing what it is.
  predicate Stops(ts: seq<Tok>) { !At(ts, Sym("(")) && !At(ts, Sym("[")) }

  predicate WordOk(kind: Kind, w: string) { w != "sqrt" && w != "if" && w != "else" && !NamesType(kind, w) }

  // Emitted expressions: known operators, names that are not keywords.
  predicate Readable(kind: Kind, g: GExpr) {
    match g
    case GCol(c) => WordOk(kind, c)
    case GVar(x) => WordOk(kind, x)
    case GLit(_) => true
    case GNeg(e) => Readable(kind, e)
    case GBin(op, l, r) => HasGlslOp(op) && Readable(kind, l) && Readable(kind, r)
    case GCast(e) => Readable(kind, e)
    case GSel(c, a, b) => Readable(kind, c) && Readable(kind, a) && Readable(kind, b)
    case GSqrt(e) => Readable(kind, e)
  }

  lemma OpRound(op: H.Op)
    requires HasGlslOp(op)
    ensures OpOf(OpText(op)) == Some(op) && OpText(op) != ")" && OpText(op) != "?" && OpText(op) != "(" && OpText(op) != "["
  {
  }

  // A printed expression never starts with a minus sign.
  lemma PrintHead(kind: Kind, g: GExpr)
    ensures PrintE(kind, g)[0] != Sym("-")
  {
  }

  // ---- single steps of the reader ----

  // No binary operator of this level or above comes next.
  predicate Ends(n: nat, ts: seq<Tok>) { forall m :: n <= m < UNARY ==> !OpAt(ts, m) }

  // An operand stays an operand on every level up to the next operator's.
  lemma {:induction false} Lift(kind: Kind, n: nat, ts: seq<Tok>, g: GExpr, rest: seq<Tok>)
    requires n <= UNARY && ReadUnary(kind, ts) == Some((g, rest)) && Ends(n, rest)
    ensures ReadLevel(kind, n, ts) == Some((g, rest))
    decreases UNARY - n
  {
    hide ReadUnary;
    if n < UNARY {
      Lift(kind, n + 1, ts, g, rest);
      assert !OpAt(rest, n);
    }
  }

  lemma {:induction false} LiftLevel(kind: Kind, n: nat, l: nat, ts: seq<Tok>, g: GExpr, rest: seq<Tok>)
    requires n <= l < UNARY && ReadLevel(kind, l, ts) == Some((g, rest)) && Ends(0, rest)
    ensures ReadLevel(kind, n, ts) == Some((g, rest))
    decreases l - n
  {
    if n < l {
      LiftLevel(kind, n + 1, l, ts, g, rest);
      assert !OpAt(rest, n);
    }
  }

  // Two operands and an operator between them, nothing more.
  lemma TwoOperands(kind: Kind, ts: seq<Tok>, a: GExpr, op: H.Op, right: seq<Tok>, b: GExpr, rest: seq<Tok>)
    requires HasGlslOp(op) && ReadUnary(kind, ts) == Some((a, [Sym(OpText(op))] + right))
    requires ReadUnary(kind, right) == Some((b, rest)) && Ends(0, rest)
    ensures ReadLevel(kind, 0, ts) == Some((GBin(op, a, b), rest))
  {
    hide ReadUnary, ReadLevel;
    var l := LevelOf(op);
    var after := [Sym(OpText(op))] + right;
    OpRound(op);
    assert after[1..] == right && OpAt(after, l) && Ends(l + 1, after);
    Lift(kind, l + 1, ts, a, after);
    Lift(kind, l + 1, right, b, rest);
    OneMore(kind, l, ts, a, op, after, b, rest);
    LiftLevel(kind, 0, l, ts, GBin(op, a, b), rest);
  }

  lemma OneMore(kind: Kind, l: nat, ts: seq<Tok>, a: GExpr, op: H.Op, after: seq<Tok>, b: GExpr, rest: seq<Tok>)
    requires l < UNARY && OpAt(after, l) && OpOf(after[0].s) == Some(op) && Ends(0, rest)
    requires ReadLevel(kind, l + 1, ts) == Some((a, after)) && ReadLevel(kind, l + 1, after[1..]) == Some((b, rest))
    ensures ReadLevel(kind, l, ts) == Some((GBin(op, a, b), rest))
  {
    hide ReadUnary;
    assert !OpAt(rest, l);
    assert ReadMore(kind, l, GBin(op, a, b), rest) == Some((GBin(op, a, b), rest));
  }

  // A whole expression ends here.
  predicate Closed(ts: seq<Tok>) { Stops(ts) && Ends(0, ts) && !At(ts, Sym("?")) }

  lemma ClosedBy(s: string, ts: seq<Tok>)
    requires s == ")" || s == ";" || s == ":"
    ensures Closed([Sym(s)] + ts)
  {
    assert OpOf(s).None?;
  }

  // "( e )", given that e is read.
  lemma InParens(kind: Kind, g: GExpr, inner: seq<Tok>, rest: seq<Tok>)
    requires ReadE(kind, inner) == Some((g, [CLOSE] + rest))
    ensures ReadPrimary(kind, [OPEN] + inner) == Some((g, rest)) && ReadUnary(kind, [OPEN] + inner) == Some((g, rest))
  {
    hide ReadE;
    assert ([OPEN] + inner)[1..] == inner && ([CLOSE] + rest)[1..] == rest;
  }

  lemma Whole(kind: Kind, ts: seq<Tok>, g: GExpr, rest: seq<Tok>)
    requires ReadLevel(kind, 0, ts) == Some((g, rest)) && !At(rest, Sym("?"))
    ensures ReadE(kind, ts) == Some((g, rest))
  {
    hide ReadLevel;
  }

  lemma Choice(kind: Kind, ts: seq<Tok>, c: GExpr, a: GExpr, b: GExpr, second: seq<Tok>, third: seq<Tok>, rest: seq<Tok>)
    requires ReadLevel(kind, 0, ts) == Some((c, [Sym("?")] + second))
    requires ReadE(kind, second) == Some((a, [Sym(":")] + third)) && ReadE(kind, third) == Some((b, rest))
    ensures ReadE(kind, ts) == Some((GSel(c, a, b), rest))
  {
    hide ReadLevel;
    assert ([Sym("?")] + second)[1..] == second && ([Sym(":")] + third)[1..] == third;
  }

  // ---- reading what was written ----

  // A printed expression is an operand: it is read back, whatever follows.
  lemma {:induction false} ReadOperand(kind: Kind, g: GExpr, rest: seq<Tok>)
    requires Readable(kind, g) && Stops(rest)
    ensures ReadUnary(kind, PrintE(kind, g) + rest) == Some((g, rest))
    decreases g, 1
  {
    hide ReadE, ReadUnary, ReadPrimary;
    match g
    case GCol(_) => ReadLeaf(kind, g, rest);
    case GVar(_) => ReadLeaf(kind, g, rest);
    case GLit(_) => ReadLeaf(kind, g, rest);
    case GNeg(_) => ReadNeg(kind, g, rest);
    case GBin(_, _, _) => ReadBinary(kind, g, rest);
    case GCast(e) => ReadCall(kind, TypeWord(kind), e, rest);
    case GSqrt(e) => ReadCall(kind, "sqrt", e, rest);
    case GSel(_, _, _) => ReadChoice(kind, g, rest);
  }

  // Nothing of it is left over where an expression ends.
  lemma {:induction false} ReadPrinted(kind: Kind, g: GExpr, rest: seq<Tok>)
    requires Readable(kind, g) && Closed(rest)
    ensures ReadE(kind, PrintE(kind, g) + rest) == Some((g, rest))
    decreases g, 2
  {
    hide ReadE, ReadUnary, ReadLevel, PrintE, Readable;
    ReadOperand(kind, g, rest);
    Lift(kind, 0, PrintE(kind, g) + rest, g, rest);
    Whole(kind, PrintE(kind, g) + rest, g, rest);
  }

  lemma {:induction false} ReadParen(kind: Kind, g: GExpr, rest: seq<Tok>)
    requires Readable(kind, g)
    ensures ReadUnary(kind, [OPEN] + PrintE(kind, g) + [CLOSE] + rest) == Some((g, rest))
    decreases g, 3
  {
    hide ReadE, ReadUnary, ReadPrimary, Readable, PrintE, Closed;
    var inner := PrintE(kind, g) + ([CLOSE] + rest);
    Group3(OPEN, PrintE(kind, g), CLOSE, rest);
    ClosedBy(")", rest);
    ReadPrinted(kind, g, [CLOSE] + rest);
    InParens(kind, g, inner, rest);
  }

  lemma ReadLeaf(kind: Kind, g: GExpr, rest: seq<Tok>)
    requires (g.GCol? || g.GVar? || g.GLit?) && Stops(rest)
    ensures ReadUnary(kind, PrintE(kind, g) + rest) == Some((g, rest))
  {
    hide ReadE;
    var ts := PrintE(kind, g) + rest;
    if g.GCol? {
      assert ts[1..][0] == Sym("[") && ts[2] == Word("i") && ts[3] == Sym("]") && ts[4..] == rest;
    } else {
      assert ts[1..] == rest;
    }
  }

  lemma {:induction false} ReadNeg(kind: Kind, g: GExpr, rest: seq<Tok>)
    requires g.GNeg? && Readable(kind, g)
    ensures ReadUnary(kind, PrintE(kind, g) + rest) == Some((g, rest))
    decreases g, 0
  {
    var paren := [OPEN] + PrintE(kind, g.e) + [CLOSE] + ([CLOSE] + rest);
    var inner := [Sym("-")] + paren;
    assert PrintE(kind, g) + rest == [OPEN] + inner;
    ReadParen(kind, g.e, [CLOSE] + rest);
    assert inner[1..] == paren;
    assert ReadUnary(kind, inner) == Some((g, [CLOSE] + rest)) by { hide ReadPrimary; }
    hide ReadE, ReadUnary, ReadPrimary, ReadLevel, PrintE;
    assert Closed([CLOSE] + rest) by { ClosedBy(")", rest); }
    Lift(kind, 0, inner, g, [CLOSE] + rest);
    Whole(kind, inner, g, [CLOSE] + rest);
    InParens(kind, g, inner, rest);
  }

  lemma {:induction false} ReadCall(kind: Kind, w: string, e: GExpr, rest: seq<Tok>)
    requires Readable(kind, e) && (w == "sqrt" || w == TypeWord(kind))
    ensures ReadUnary(kind, [Word(w), OPEN] + PrintE(kind, e) + [CLOSE] + rest) ==
            Some((if w == "sqrt" then GSqrt(e) else GCast(e), rest))
    decreases e, 3
  {
    hide ReadE, ReadUnary, ReadPrimary, PrintE, Readable, Closed;
    var inner := PrintE(kind, e) + ([CLOSE] + rest);
    ClosedBy(")", rest);
    ReadPrinted(kind, e, [CLOSE] + rest);
    Assoc([Word(w), OPEN] + PrintE(kind, e), [CLOSE], rest);
    Assoc([Word(w), OPEN], PrintE(kind, e), [CLOSE] + rest);
    CallStep(kind, w, e, inner, rest);
  }

  lemma CallStep(kind: Kind, w: string, e: GExpr, inner: seq<Tok>, rest: seq<Tok>)
    requires ReadE(kind, inner) == Some((e, [CLOSE] + rest)) && (w == "sqrt" || w == TypeWord(kind))
    ensures ReadUnary(kind, [Word(w), OPEN] + inner) == Some((if w == "sqrt" then GSqrt(e) else GCast(e), rest))
  {
    TypeWordNames(kind);
    hide ReadE;
    var ts := [Word(w), OPEN] + inner;
    assert ts[1..][0] == OPEN && ts[2..] == inner;
    assert ([CLOSE] + rest)[1..] == rest;
  }

  lemma {:induction false} ReadBinary(kind: Kind, g: GExpr, rest: seq<Tok>)
    requires g.GBin? && Readable(kind, g)
    ensures ReadUnary(kind, PrintE(kind, g) + rest) == Some((g, rest))
    decreases g, 0
  {
    hide ReadE, ReadUnary, ReadPrimary, ReadLevel;
    var right := PrintE(kind, g.r) + ([CLOSE] + rest);
    var after := [Sym(OpText(g.op))] + right;
    var inner := PrintE(kind, g.l) + after;
    assert PrintE(kind, g) + rest == [OPEN] + inner;
    OpRound(g.op);
    ReadOperand(kind, g.l, after);
    assert Closed([CLOSE] + rest) by { ClosedBy(")", rest); }
    ReadOperand(kind, g.r, [CLOSE] + rest);
    TwoOperands(kind, inner, g.l, g.op, right, g.r, [CLOSE] + rest);
    Whole(kind, inner, g, [CLOSE] + rest);
    InParens(kind, g, inner, rest);
  }

  lemma ChoiceText(kind: Kind, g: GExpr, rest: seq<Tok>, first: seq<Tok>, second: seq<Tok>, third: seq<Tok>)
    requires g.GSel?
    requires third == [OPEN] + PrintE(kind, g.b) + [CLOSE] + ([CLOSE] + rest)
    requires second == [OPEN] + PrintE(kind, g.a) + [CLOSE] + ([Sym(":")] + third)
    requires first == [OPEN] + PrintE(kind, g.c) + [CLOSE] + ([Sym("?")] + second)
    ensures PrintE(kind, g) + rest == [OPEN] + first
  {
    var c, a, b := PrintE(kind, g.c), PrintE(kind, g.a), PrintE(kind, g.b);
    assert PrintE(kind, g) ==
           [OPEN, OPEN] + c + [CLOSE, Sym("?"), OPEN] + a + [CLOSE, Sym(":"), OPEN] + b + [CLOSE, CLOSE];
    hide PrintE;
    Regroup([OPEN, OPEN], c, [CLOSE, Sym("?"), OPEN], a, [CLOSE, Sym(":"), OPEN], b, [CLOSE, CLOSE], rest);
    Split2(CLOSE, CLOSE, rest);
    Group3(OPEN, b, CLOSE, [CLOSE] + rest);
    Split3(CLOSE, Sym(":"), OPEN, b + ([CLOSE] + ([CLOSE] + rest)));
    Group3(OPEN, a, CLOSE, [Sym(":")] + third);
    Split3(CLOSE, Sym("?"), OPEN, a + ([CLOSE] + ([Sym(":")] + third)));
    Group3(OPEN, c, CLOSE, [Sym("?")] + second);
    Split2(OPEN, OPEN, c + ([CLOSE] + ([Sym("?")] + second)));
  }

  lemma Assoc(a: seq<Tok>, b: seq<Tok>, c: seq<Tok>)
    ensures (a + b) + c == a + (b + c)
  {
  }

  lemma Split2(x: Tok, y: Tok, r: seq<Tok>)
    ensures [x, y] + r == [x] + ([y] + r)
  {
  }

  lemma Split3(x: Tok, y: Tok, z: Tok, r: seq<Tok>)
    ensures [x, y, z] + r == [x] + ([y] + ([z] + r))
  {
  }

  lemma Group3(x: Tok, m: seq<Tok>, y: Tok, r: seq<Tok>)
    ensures [x] + m + [y] + r == [x] + (m + ([y] + r))
  {
    Assoc([x] + m, [y], r);
    Assoc([x], m, [y] + r);
  }

  lemma Regroup(a: seq<Tok>, b: seq<Tok>, c: seq<Tok>, d: seq<Tok>, e: seq<Tok>, f: seq<Tok>, g: seq<Tok>, h: seq<Tok>)
    ensures a + b + c + d + e + f + g + h == a + (b + (c + (d + (e + (f + (g + h))))))
  {
    Assoc(a + b + c + d + e + f, g, h);
    Assoc(a + b + c + d + e, f, g + h);
    Assoc(a + b + c + d, e, f + (g + h));
    Assoc(a + b + c, d, e + (f + (g + h)));
    Assoc(a + b, c, d + (e + (f + (g + h))));
    Assoc(a, b, c + (d + (e + (f + (g + h)))));
  }

  // "( e )" as a whole expression.
  lemma {:induction false} ReadWholeParen(kind: Kind, g: GExpr, rest: seq<Tok>)
    requires Readable(kind, g) && Ends(0, rest)
    ensures ReadLevel(kind, 0, [OPEN] + PrintE(kind, g) + [CLOSE] + rest) == Some((g, rest))
    ensures !At(rest, Sym("?")) ==> ReadE(kind, [OPEN] + PrintE(kind, g) + [CLOSE] + rest) == Some((g, rest))
    decreases g, 4
  {
    hide ReadE, ReadUnary, ReadLevel, PrintE, Readable;
    var ts := [OPEN] + PrintE(kind, g) + [CLOSE] + rest;
    ReadParen(kind, g, rest);
    Lift(kind, 0, ts, g, rest);
    if !At(rest, Sym("?")) {
      Whole(kind, ts, g, rest);
    }
  }

  lemma {:induction false} ReadChoice(kind: Kind, g: GExpr, rest: seq<Tok>)
    requires g.GSel? && Readable(kind, g)
    ensures ReadUnary(kind, PrintE(kind, g) + rest) == Some((g, rest))
    decreases g, 0
  {
    hide ReadE, ReadUnary, ReadPrimary, ReadLevel, PrintE;
    var third := [OPEN] + PrintE(kind, g.b) + [CLOSE] + ([CLOSE] + rest);
    var second := [OPEN] + PrintE(kind, g.a) + [CLOSE] + ([Sym(":")] + third);
    var first := [OPEN] + PrintE(kind, g.c) + [CLOSE] + ([Sym("?")] + second);
    ChoiceText(kind, g, rest, first, second, third);
    assert OpOf("?").None?;
    ClosedBy(":", third);
    ClosedBy(")", rest);
    ReadWholeParen(kind, g.c, [Sym("?")] + second);
    ReadWholeParen(kind, g.a, [Sym(":")] + third);
    ReadWholeParen(kind, g.b, [CLOSE] + rest);
    Choice(kind, first, g.c, g.a, g.b, second, third, [CLOSE] + rest);
    InParens(kind, g, first, rest);
  }

  // ---- statements ----

  function ReadS(kind: Kind, ts: seq<Tok>): (r: Option<(GStmt, seq<Tok>)>)
    ensures r.Some? ==> |r.value.1| < |ts|
    decreases |ts|, 0
  {
    if ts == [] || !ts[0].Word? then None
    else if ts[0].w == "if" then
      (if !At(ts[1..], Sym("(")) then None
       else match ReadE(kind, ts[2..])
         case None => None
         case Some(c) =>
           if !(At(c.1, Sym(")")) && At(c.1[1..], Sym("{"))) then None
           else match ReadAll(kind, c.1[2..])
             case None => None
             case Some(t) =>
               if At(t.1, Word("else")) && At(t.1[1..], Sym("{")) then
                 (match ReadAll(kind, t.1[2..]) case None => None case Some(e) => Some((GIf(c.0, t.0, true, e.0), e.1)))
               else Some((GIf(c.0, t.0, false, []), t.1)))
    else if NamesType(kind, ts[0].w) then
      (if !(|ts| >= 3 && ts[1].Word? && ts[2] == Sym("=")) then None
       else match ReadE(kind, ts[3..])
         case None => None
         case Some(e) => if At(e.1, Sym(";")) then Some((GDecl(ts[1].w, e.0), e.1[1..])) else None)
    else if |ts| >= 5 && ts[1] == Sym("[") && ts[2] == Word(INDEX) && ts[3] == Sym("]") && ts[4] == Sym("=") then
      (match ReadE(kind, ts[5..])
       case None => None
       case Some(e) => if At(e.1, Sym(";")) then Some((GAssign(ts[0].w, None, e.0), e.1[1..])) else None)
    else None
  }

  // Statements up to a closing brace, which is taken too.
  function ReadAll(kind: Kind, ts: seq<Tok>): (r: Option<(seq<GStmt>, seq<Tok>)>)
    ensures r.Some? ==> |r.value.1| < |ts|
    decreases |ts|, 1
  {
    if At(ts, Sym("}")) then Some(([], ts[1..]))
    else match ReadS(kind, ts)
      case None => None
      case Some(s) => match ReadAll(kind, s.1) case None => None case Some(r) => Some(([s.0] + r.0, r.1))
  }

  predicate ReadableS(kind: Kind, s: GStmt) {
    match s
    case GAssign(c, op, e) => WordOk(kind, c) && Readable(kind, e) && (op.Some? ==> HasGlslOp(op.value))
    case GDecl(x, e) => WordOk(kind, x) && Readable(kind, e)
    case GIf(c, t, hasElse, e) =>
      && Readable(kind, c) && (hasElse || e == [])
      && (forall i :: 0 <= i < |t| ==> ReadableS(kind, t[i])) && (forall i :: 0 <= i < |e| ==> ReadableS(kind, e[i]))
  }

  // A statement as GLSL has it: `c[i] = c[i] op (e)` is a plain assignment.
  function Plain(s: GStmt): GStmt
    decreases s, 0
  {
    match s
    case GAssign(c, op, e) => GAssign(c, None, Rhs(c, op, e))
    case GDecl(_, _) => s
    case GIf(c, t, hasElse, e) => GIf(c, PlainAll(t), hasElse, PlainAll(e))
  }

  function PlainAll(ss: seq<GStmt>): (r: seq<GStmt>)
    ensures |r| == |ss|
    decreases ss, 1
  {
    if ss == [] then [] else [Plain(ss[0])] + PlainAll(ss[1..])
  }

  // It does what the statement does.
  lemma {:induction false} PlainRuns(kind: Kind, d: Driver, f: Effect, s: GStmt)
    ensures GExec(kind, d, f, Plain(s)) == GExec(kind, d, f, s)
    decreases s, 0
  {
    hide GEval;
    match s
    case GIf(c, t, _, e) =>
      PlainAllRuns(kind, d, f, t);
      PlainAllRuns(kind, d, f, e);
    case _ =>
  }

  lemma {:induction false} PlainAllRuns(kind: Kind, d: Driver, f: Effect, ss: seq<GStmt>)
    ensures GExecAll(kind, d, f, PlainAll(ss)) == GExecAll(kind, d, f, ss)
    decreases ss, 1
  {
    hide GExec;
    if ss != [] {
      PlainRuns(kind, d, f, ss[0]);
      assert PlainAll(ss)[1..] == PlainAll(ss[1..]);
      if GExec(kind, d, f, ss[0]).Some? {
        PlainAllRuns(kind, d, GExec(kind, d, f, ss[0]).value, ss[1..]);
      }
    }
  }

  predicate NoElse(ts: seq<Tok>) { !At(ts, Word("else")) }

  lemma AssignStep(kind: Kind, c: string, e: GExpr, ts: seq<Tok>, rest: seq<Tok>)
    requires WordOk(kind, c) && ReadE(kind, ts) == Some((e, [Sym(";")] + rest))
    ensures ReadS(kind, Target(c) + ts) == Some((GAssign(c, None, e), rest))
  {
    hide ReadE;
    var all := Target(c) + ts;
    assert all[5..] == ts;
    assert ([Sym(";")] + rest)[1..] == rest;
  }

  lemma ReadAssign(kind: Kind, c: string, e: GExpr, rest: seq<Tok>)
    requires WordOk(kind, c) && Readable(kind, e)
    ensures ReadS(kind, PrintS(kind, GAssign(c, None, e)) + rest) == Some((GAssign(c, None, e), rest))
  {
    hide ReadE, ReadS, PrintE, Readable, Closed;
    var tail := PrintE(kind, e) + ([Sym(";")] + rest);
    Assoc(Target(c) + PrintE(kind, e), [Sym(";")], rest);
    Assoc(Target(c), PrintE(kind, e), [Sym(";")] + rest);
    ClosedBy(";", rest);
    ReadPrinted(kind, e, [Sym(";")] + rest);
    AssignStep(kind, c, e, tail, rest);
  }

  lemma ReadUpdate(kind: Kind, c: string, op: H.Op, e: GExpr, rest: seq<Tok>)
    requires WordOk(kind, c) && Readable(kind, e) && HasGlslOp(op)
    ensures ReadS(kind, PrintS(kind, GAssign(c, Some(op), e)) + rest) == Some((Plain(GAssign(c, Some(op), e)), rest))
  {
    hide ReadE, ReadS, ReadUnary, ReadLevel, PrintE, Readable;
    var end := [Sym(";")] + rest;
    var paren := [OPEN] + PrintE(kind, e) + [CLOSE] + end;
    var after := [Sym(OpText(op))] + paren;
    var ts := PrintE(kind, GCol(c)) + after;
    OpRound(op);
    ReadOperand(kind, GCol(c), after) by { PlainColumn(kind, c); }
    ReadParen(kind, e, end);
    ClosedBy(";", rest);
    TwoOperands(kind, ts, GCol(c), op, paren, e, end);
    Whole(kind, ts, GBin(op, GCol(c), e), end);
    UpdateText(kind, c, op, e, rest);
    AssignStep(kind, c, GBin(op, GCol(c), e), ts, rest);
  }

  lemma PlainColumn(kind: Kind, c: string)
    requires WordOk(kind, c)
    ensures Readable(kind, GCol(c))
  {
  }

  lemma UpdateText(kind: Kind, c: string, op: H.Op, e: GExpr, rest: seq<Tok>)
    ensures PrintS(kind, GAssign(c, Some(op), e)) + rest ==
            Target(c) + (PrintE(kind, GCol(c)) + ([Sym(OpText(op))] + ([OPEN] + PrintE(kind, e) + [CLOSE] + ([Sym(";")] + rest))))
  {
    var p, o := PrintE(kind, e), Sym(OpText(op));
    var col := PrintE(kind, GCol(c));
    assert [Word(c), Sym("["), Word("i"), Sym("]"), o, OPEN] == col + ([o] + [OPEN]);
    assert PrintS(kind, GAssign(c, Some(op), e)) == Target(c) + (col + ([o] + [OPEN])) + p + [CLOSE] + [Sym(";")];
    hide PrintE, PrintS;
    Regroup(Target(c), col + ([o] + [OPEN]), p, [CLOSE], [Sym(";")], rest, [], []);
    assert rest + ([] + []) == rest;
    Assoc(col, [o] + [OPEN], p + ([CLOSE] + ([Sym(";")] + rest)));
    Assoc([o], [OPEN], p + ([CLOSE] + ([Sym(";")] + rest)));
    Group3(OPEN, p, CLOSE, [Sym(";")] + rest);
  }

  lemma ReadDecl(kind: Kind, x: string, e: GExpr, rest: seq<Tok>)
    requires Readable(kind, e)
    ensures ReadS(kind, PrintS(kind, GDecl(x, e)) + rest) == Some((GDecl(x, e), rest))
  {
    hide ReadE, PrintE, Readable, Closed;
    var ts := PrintS(kind, GDecl(x, e)) + rest;
    assert ts[3..] == PrintE(kind, e) + ([Sym(";")] + rest);
    ClosedBy(";", rest);
    ReadPrinted(kind, e, [Sym(";")] + rest);
    assert ([Sym(";")] + rest)[1..] == rest;
  }

  // An if whose parts have been read.
  lemma IfSteps(kind: Kind, c: GExpr, ts: seq<Tok>, thenPart: seq<Tok>, t: seq<GStmt>, elsePart: seq<Tok>)
    requires ReadE(kind, ts) == Some((c, [CLOSE, Sym("{")] + thenPart)) && ReadAll(kind, thenPart) == Some((t, elsePart))
    ensures NoElse(elsePart) ==> ReadS(kind, [Word("if"), OPEN] + ts) == Some((GIf(c, t, false, []), elsePart))
    ensures forall x, e, rest :: elsePart == [Word("else"), Sym("{")] + x && ReadAll(kind, x) == Some((e, rest)) ==>
              ReadS(kind, [Word("if"), OPEN] + ts) == Some((GIf(c, t, true, e), rest))
  {
    hide ReadE;
    var all := [Word("if"), OPEN] + ts;
    var after := [CLOSE, Sym("{")] + thenPart;
    assert all[2..] == ts && all[1..][0] == OPEN;
    assert after[2..] == thenPart && after[1..][0] == Sym("{");
    forall x | elsePart == [Word("else"), Sym("{")] + x
      ensures elsePart[2..] == x && elsePart[1..][0] == Sym("{")
    {
    }
  }

  lemma ConditionalText(kind: Kind, s: GStmt, rest: seq<Tok>, elsePart: seq<Tok>, thenPart: seq<Tok>)
    requires s.GIf?
    requires elsePart == if s.hasElse then [Word("else"), Sym("{")] + (PrintAll(kind, s.els) + [Sym("}")] + rest) else rest
    requires thenPart == PrintAll(kind, s.thn) + [Sym("}")] + elsePart
    ensures PrintS(kind, s) + rest == [Word("if"), OPEN] + (PrintE(kind, s.cond) + ([CLOSE, Sym("{")] + thenPart))
  {
    var c, t, e := PrintE(kind, s.cond), PrintAll(kind, s.thn), PrintAll(kind, s.els);
    var tail := if s.hasElse then [Word("else"), Sym("{")] + e + [Sym("}")] else [];
    assert PrintS(kind, s) == [Word("if"), OPEN] + c + [CLOSE, Sym("{")] + t + [Sym("}")] + tail;
    hide PrintE, PrintAll, PrintS;
    ElseText(s.hasElse, e, rest, tail, elsePart);
    ThenText(c, t, tail, rest, thenPart, elsePart);
  }

  lemma ElseText(hasElse: bool, e: seq<Tok>, rest: seq<Tok>, tail: seq<Tok>, elsePart: seq<Tok>)
    requires tail == if hasElse then [Word("else"), Sym("{")] + e + [Sym("}")] else []
    requires elsePart == if hasElse then [Word("else"), Sym("{")] + (e + [Sym("}")] + rest) else rest
    ensures tail + rest == elsePart
  {
    if hasElse {
      var head := [Word("else"), Sym("{")];
      Assoc(head + e, [Sym("}")], rest);
      Assoc(head, e, [Sym("}")] + rest);
      Assoc(e, [Sym("}")], rest);
    }
  }

  lemma ThenText(c: seq<Tok>, t: seq<Tok>, tail: seq<Tok>, rest: seq<Tok>, thenPart: seq<Tok>, elsePart: seq<Tok>)
    requires tail + rest == elsePart && thenPart == t + [Sym("}")] + elsePart
    ensures [Word("if"), OPEN] + c + [CLOSE, Sym("{")] + t + [Sym("}")] + tail + rest
         == [Word("if"), OPEN] + (c + ([CLOSE, Sym("{")] + thenPart))
  {
    var p, q, r := [Word("if"), OPEN], [CLOSE, Sym("{")], [Sym("}")];
    Assoc(p + c + q + t + r, tail, rest);
    Assoc(p + c + q + t, r, elsePart);
    Assoc(p + c + q, t, r + elsePart);
    Assoc(t, r, elsePart);
    Assoc(p + c, q, thenPart);
    Assoc(p, c, q + thenPart);
  }

  lemma {:induction false} ReadIf(kind: Kind, s: GStmt, rest: seq<Tok>)
    requires s.GIf? && ReadableS(kind, s) && NoElse(rest)
    ensures ReadS(kind, PrintS(kind, s) + rest) == Some((Plain(s), rest))
    decreases s, 0
  {
    hide ReadE, ReadS, ReadAll, PrintE, PrintAll, Readable, PrintS, Closed;
    var inElse := PrintAll(kind, s.els) + [Sym("}")] + rest;
    var elsePart := if s.hasElse then [Word("else"), Sym("{")] + inElse else rest;
    var thenPart := PrintAll(kind, s.thn) + [Sym("}")] + elsePart;
    var after := [CLOSE, Sym("{")] + thenPart;
    ConditionalText(kind, s, rest, elsePart, thenPart);
    ClosedBy(")", [Sym("{")] + thenPart);
    assert after == [CLOSE] + ([Sym("{")] + thenPart);
    ReadPrinted(kind, s.cond, after);
    ReadBody(kind, s.thn, elsePart);
    ReadBody(kind, s.els, rest);
    IfSteps(kind, s.cond, PrintE(kind, s.cond) + after, thenPart, PlainAll(s.thn), elsePart);
  }

  // A statement starts with a word, and not with `else`.
  lemma StmtHead(kind: Kind, s: GStmt)
    requires ReadableS(kind, s)
    ensures PrintS(kind, s) != [] && PrintS(kind, s)[0].Word? && PrintS(kind, s)[0] != Word("else")
  {
  }

  lemma BodyHead(kind: Kind, ss: seq<GStmt>, rest: seq<Tok>)
    requires forall i :: 0 <= i < |ss| ==> ReadableS(kind, ss[i])
    ensures NoElse(PrintAll(kind, ss) + [Sym("}")] + rest)
    ensures ss != [] ==> !At(PrintAll(kind, ss) + [Sym("}")] + rest, Sym("}"))
  {
    if ss != [] {
      StmtHead(kind, ss[0]);
    }
  }

  // A block's statements are read back as GLSL has them, nested blocks included.
  lemma {:induction false} ReadBody(kind: Kind, ss: seq<GStmt>, rest: seq<Tok>)
    requires forall i :: 0 <= i < |ss| ==> ReadableS(kind, ss[i])
    ensures ReadAll(kind, PrintAll(kind, ss) + [Sym("}")] + rest) == Some((PlainAll(ss), rest))
    decreases ss, 2
  {
    hide PrintS, ReadS, ReadableS, Plain, NoElse;
    var ts := PrintAll(kind, ss) + [Sym("}")] + rest;
    if ss == [] {
      assert ts[1..] == rest;
    } else {
      var tail := PrintAll(kind, ss[1..]) + [Sym("}")] + rest;
      BodyText(kind, ss, rest);
      BodyHead(kind, ss, rest);
      BodyHead(kind, ss[1..], rest);
      ReadStmt(kind, ss[0], tail);
      ReadBody(kind, ss[1..], rest);
      MoreStmts(kind, ts, Plain(ss[0]), tail, PlainAll(ss[1..]), rest);
    }
  }

  lemma BodyText(kind: Kind, ss: seq<GStmt>, rest: seq<Tok>)
    requires ss != []
    ensures PrintAll(kind, ss) + [Sym("}")] + rest == PrintS(kind, ss[0]) + (PrintAll(kind, ss[1..]) + [Sym("}")] + rest)
  {
    hide PrintS;
    var p, q := PrintS(kind, ss[0]), PrintAll(kind, ss[1..]);
    assert PrintAll(kind, ss) == p + q;
    Assoc(p, q, [Sym("}")]);
    Assoc(p, q + [Sym("}")], rest);
  }

  lemma MoreStmts(kind: Kind, ts: seq<Tok>, s: GStmt, tail: seq<Tok>, more: seq<GStmt>, rest: seq<Tok>)
    requires !At(ts, Sym("}")) && ReadS(kind, ts) == Some((s, tail)) && ReadAll(kind, tail) == Some((more, rest))
    ensures ReadAll(kind, ts) == Some(([s] + more, rest))
  {
    hide ReadS;
  }

  lemma {:induction false} ReadStmt(kind: Kind, s: GStmt, rest: seq<Tok>)
    requires ReadableS(kind, s) && NoElse(rest)
    ensures ReadS(kind, PrintS(kind, s) + rest) == Some((Plain(s), rest))
    decreases s, 1
  {
    match s
    case GAssign(c, None, e) => ReadAssign(kind, c, e, rest);
    case GAssign(c, Some(op), e) => ReadUpdate(kind, c, op, e, rest);
    case GDecl(x, e) => ReadDecl(kind, x, e, rest);
    case GIf(_, _, _, _) => ReadIf(kind, s, rest);
  }
}

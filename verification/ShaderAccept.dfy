// Which bodies the emitter accepts, said of their parts: every expression in the body, and every statement with the
// variables bound before it in the text.
module ShaderAccept {
  import opened Bytes
  import opened ShaderLang
  import opened ShaderLower
  import H = Hir

  // ---- expressions ----

  // x is e or occurs in it.
  predicate PartOf(x: KExpr, e: KExpr)
    decreases e
  {
    || x == e
    || match e
       case KUnary(_, y) => PartOf(x, y)
       case KBinary(_, l, r) => PartOf(x, l) || PartOf(x, r)
       case KCall(_, args) => exists i :: 0 <= i < |args| && PartOf(x, args[i])
       case _ => false
  }

  // A literal that is no float, or any in a float map.
  predicate LitOk(kind: Kind, lx: string) { kind == FloatKind || ('.' !in lx && 'e' !in lx && 'E' !in lx) }

  predicate OpOk(kind: Kind, op: H.Op) {
    || op == H.Add || op == H.Sub || op == H.Mul || op == H.Div || (op == H.Mod && kind != FloatKind)
    || op == H.Eq || op == H.Neq || op == H.Lt || op == H.Gt || op == H.Lte || op == H.Gte
  }

  predicate Arithmetic(op: H.Op) { op == H.Add || op == H.Sub || op == H.Mul || op == H.Div || op == H.Mod }

  // Integers are divided by literals and literal constants only whose text is not zero.
  predicate DivisorOk(k: Kernel, op: H.Op, r: KExpr) {
    (op == H.Div || op == H.Mod) && k.kind != FloatKind ==>
      match r
      case KLit(lx) => '.' !in lx && StrtolAuto(lx) != 0
      case KName(n) => ConstLexeme(k.consts, n).Some? && '.' !in ConstLexeme(k.consts, n).value && StrtolAuto(ConstLexeme(k.consts, n).value) != 0
      case _ => false
  }

  predicate PartOk(k: Kernel, names: seq<string>, x: KExpr) {
    match x
    case KName(n) =>
      n in k.cols || n in names || (ConstLexeme(k.consts, n).Some? && LitOk(k.kind, ConstLexeme(k.consts, n).value))
    case KLit(lx) => LitOk(k.kind, lx)
    case KUnary(_, _) => true
    case KBinary(op, _, r) => OpOk(k.kind, op) && DivisorOk(k, op, r)
    case KCall(fn, args) => (fn == "select" && |args| == 3) || (fn == "sqrt" && |args| == 1)
    case KOther => false
  }

  ghost predicate PartsOk(k: Kernel, names: seq<string>, e: KExpr) { forall x :: PartOf(x, e) ==> PartOk(k, names, x) }

  lemma PartsOfBinary(k: Kernel, names: seq<string>, op: H.Op, l: KExpr, r: KExpr)
    ensures PartsOk(k, names, KBinary(op, l, r)) <==>
              PartOk(k, names, KBinary(op, l, r)) && PartsOk(k, names, l) && PartsOk(k, names, r)
  {
    hide PartOk;
    var e := KBinary(op, l, r);
    assert PartOf(e, e);
    assert forall x :: PartOf(x, l) || PartOf(x, r) ==> PartOf(x, e);
  }

  lemma PartsOfUnary(k: Kernel, names: seq<string>, op: UnaryOp, y: KExpr)
    ensures PartsOk(k, names, KUnary(op, y)) <==> PartsOk(k, names, y)
  {
    var e := KUnary(op, y);
    assert PartOk(k, names, e);
    hide PartOk;
    assert forall x :: PartOf(x, y) ==> PartOf(x, e);
  }

  lemma PartsOfCall(k: Kernel, names: seq<string>, fn: string, args: seq<KExpr>)
    ensures PartsOk(k, names, KCall(fn, args)) <==>
              PartOk(k, names, KCall(fn, args)) && forall i :: 0 <= i < |args| ==> PartsOk(k, names, args[i])
  {
    hide PartOk;
    var e := KCall(fn, args);
    assert PartOf(e, e);
    assert forall x, i :: 0 <= i < |args| && PartOf(x, args[i]) ==> PartOf(x, e);
  }

  lemma LeafParts(k: Kernel, names: seq<string>, e: KExpr)
    requires e.KName? || e.KLit? || e.KOther?
    ensures PartsOk(k, names, e) <==> PartOk(k, names, e)
  {
    hide PartOk;
    assert PartOf(e, e);
  }

  // For every expression: it is accepted if and only if every part of it is fine.
  lemma {:induction false} ExprAccepted(k: Kernel, names: seq<string>, e: KExpr, bools: bool)
    ensures LowerExpr(k, names, e, bools).Some? <==> PartsOk(k, names, e)
    decreases e
  {
    hide StrtolAuto, ConstLexeme, PartsOk;
    match e
    case KUnary(op, y) =>
      PartsOfUnary(k, names, op, y);
      ExprAccepted(k, names, y, false);
    case KBinary(op, l, r) =>
      PartsOfBinary(k, names, op, l, r);
      ExprAccepted(k, names, l, false);
      ExprAccepted(k, names, r, false);
    case KCall(fn, args) =>
      PartsOfCall(k, names, fn, args);
      if fn == "select" && |args| == 3 {
        ExprAccepted(k, names, args[0], true);
        ExprAccepted(k, names, args[1], false);
        ExprAccepted(k, names, args[2], false);
      } else if fn == "sqrt" && |args| == 1 {
        ExprAccepted(k, names, args[0], false);
      }
    case _ => LeafParts(k, names, e);
  }

  // ---- statements ----

  // The body's assignments, bindings and conditions in the order of the text.
  datatype Step =
    | Set(target: Option<string>, sop: Option<H.Op>, value: KExpr)
    | Let(names: seq<string>, init: Option<KExpr>)
    | Test(cond: KExpr)
    | Unknown

  function Steps(s: KStmt): seq<Step>
    decreases s, 0
  {
    match s
    case KAssign(t, op, v) => [Set(t, op, v)]
    case KBlock(ss) => StepsAll(ss)
    case KBind(ns, init) => [Let(ns, init)]
    case KIf(c, t, e) => [Test(c)] + StepsAll(t) + StepsAll(e)
    case KOtherStmt => [Unknown]
  }

  function StepsAll(ss: seq<KStmt>): seq<Step>
    decreases ss, 1
  {
    if ss == [] then [] else Steps(ss[0]) + StepsAll(ss[1..])
  }

  // The variables they bind, in order.
  function Bound(steps: seq<Step>): seq<string> {
    if steps == [] then [] else (if steps[0].Let? then steps[0].names else []) + Bound(steps[1..])
  }

  // A column is assigned, plainly or with an arithmetic operator; one variable is bound, the sixty-fourth at most.
  ghost predicate StepOk(k: Kernel, names: seq<string>, s: Step) {
    match s
    case Set(t, op, v) =>
      && t.Some? && t.value in k.cols && PartsOk(k, names, v)
      && (op.Some? ==> Arithmetic(op.value) && OpOk(k.kind, op.value) && DivisorOk(k, op.value, v))
    case Let(ns, init) => |ns| == 1 && init.Some? && |names| < 64 && PartsOk(k, names, init.value)
    case Test(c) => PartsOk(k, names, c)
    case Unknown => false
  }

  ghost predicate StepAt(k: Kernel, names: seq<string>, steps: seq<Step>, i: nat)
    requires i < |steps|
  {
    StepOk(k, names + Bound(steps[..i]), steps[i])
  }

  ghost predicate StepsOk(k: Kernel, names: seq<string>, steps: seq<Step>) {
    forall i :: 0 <= i < |steps| ==> StepAt(k, names, steps, i)
  }

  lemma {:induction false} BoundJoin(a: seq<Step>, b: seq<Step>)
    ensures Bound(a + b) == Bound(a) + Bound(b)
    decreases |a|
  {
    if a == [] {
      assert a + b == b;
    } else {
      assert (a + b)[0] == a[0] && (a + b)[1..] == a[1..] + b;
      BoundJoin(a[1..], b);
    }
  }

  lemma JoinAt(k: Kernel, names: seq<string>, a: seq<Step>, b: seq<Step>, i: nat)
    requires i < |a| + |b|
    ensures StepAt(k, names, a + b, i) <==>
              if i < |a| then StepAt(k, names, a, i) else StepAt(k, names + Bound(a), b, i - |a|)
  {
    hide StepOk;
    if i < |a| {
      assert (a + b)[..i] == a[..i];
    } else {
      var c := b[..i - |a|];
      assert (a + b)[..i] == a + c;
      BoundJoin(a, c);
      assert names + (Bound(a) + Bound(c)) == names + Bound(a) + Bound(c);
    }
  }

  lemma StepsJoin(k: Kernel, names: seq<string>, a: seq<Step>, b: seq<Step>)
    ensures StepsOk(k, names, a + b) <==> StepsOk(k, names, a) && StepsOk(k, names + Bound(a), b)
  {
    hide StepAt;
    if StepsOk(k, names, a + b) {
      forall i | 0 <= i < |a|
        ensures StepAt(k, names, a, i)
      {
        JoinAt(k, names, a, b, i);
      }
      forall i | 0 <= i < |b|
        ensures StepAt(k, names + Bound(a), b, i)
      {
        JoinAt(k, names, a, b, i + |a|);
      }
    }
    if StepsOk(k, names, a) && StepsOk(k, names + Bound(a), b) {
      forall i | 0 <= i < |a + b|
        ensures StepAt(k, names, a + b, i)
      {
        JoinAt(k, names, a, b, i);
      }
    }
  }

  lemma OneStep(k: Kernel, names: seq<string>, s: Step)
    ensures StepsOk(k, names, [s]) <==> StepOk(k, names, s)
    ensures Bound([s]) == if s.Let? then s.names else []
  {
    hide StepOk;
    assert [s][..0] == [] && names + [] == names && [s][1..] == [];
    assert StepAt(k, names, [s], 0) <==> StepOk(k, names, s);
    assert Bound([s]) == (if s.Let? then s.names else []) + Bound([]);
  }

  lemma OpAccepted(k: Kernel, op: H.Op, r: KExpr)
    ensures OpAllowed(k, op, r) <==> OpOk(k.kind, op) && DivisorOk(k, op, r)
    ensures OpAllowed(k, op, r) ==> (Arithmetic(op) <==> !Compares(op))
  {
    hide StrtolAuto, ConstLexeme;
  }

  // For every statement: it is accepted if and only if every step of it is fine with the variables bound so far, and then
  // the variables bound afterwards are those and its own.
  lemma {:induction false} StmtAccepted(k: Kernel, names: seq<string>, s: KStmt)
    ensures LowerStmt(k, names, s).Some? <==> StepsOk(k, names, Steps(s))
    ensures LowerStmt(k, names, s).Some? ==> LowerStmt(k, names, s).value.names == names + Bound(Steps(s))
    decreases s, 1
  {
    hide LowerExpr, PartsOk, OpAllowed, OpOk, DivisorOk, Arithmetic, Compares;
    match s
    case KAssign(t, op, v) =>
      OneStep(k, names, Set(t, op, v));
      ExprAccepted(k, names, v, false);
      if op.Some? {
        OpAccepted(k, op.value, v);
      }
      assert names + [] == names;
    case KBlock(ss) => StmtsAccepted(k, names, ss);
    case KBind(ns, init) =>
      OneStep(k, names, Let(ns, init));
      if init.Some? {
        ExprAccepted(k, names, init.value, false);
      }
      if |ns| == 1 {
        assert [ns[0]] == ns;
      }
    case KIf(_, _, _) => IfAccepted(k, names, s);
    case KOtherStmt => OneStep(k, names, Unknown);
  }

  lemma {:induction false} IfAccepted(k: Kernel, names: seq<string>, s: KStmt)
    requires s.KIf?
    ensures LowerStmt(k, names, s).Some? <==> StepsOk(k, names, Steps(s))
    ensures LowerStmt(k, names, s).Some? ==> LowerStmt(k, names, s).value.names == names + Bound(Steps(s))
    decreases s, 0
  {
    hide LowerExpr, LowerStmts, StepOk, StepsOk, StepsAll;
    var t, e := StepsAll(s.thn), StepsAll(s.els);
    OneStep(k, names, Test(s.cond));
    assert StepOk(k, names, Test(s.cond)) <==> LowerExpr(k, names, s.cond, true).Some? by {
      ExprAccepted(k, names, s.cond, true);
      TestOk(k, names, s.cond);
    }
    assert names + [] == names;
    StepsJoin(k, names, [Test(s.cond)] + t, e);
    StepsJoin(k, names, [Test(s.cond)], t);
    BoundJoin([Test(s.cond)] + t, e);
    BoundJoin([Test(s.cond)], t);
    assert [] + Bound(t) == Bound(t);
    StmtsAccepted(k, names, s.thn);
    if LowerStmts(k, names, s.thn).Some? {
      StmtsAccepted(k, names + Bound(t), s.els);
    }
    assert names + Bound(t) + Bound(e) == names + (Bound(t) + Bound(e));
  }

  lemma TestOk(k: Kernel, names: seq<string>, c: KExpr)
    ensures StepOk(k, names, Test(c)) <==> PartsOk(k, names, c)
  {
  }

  lemma {:induction false} StmtsAccepted(k: Kernel, names: seq<string>, ss: seq<KStmt>)
    ensures LowerStmts(k, names, ss).Some? <==> StepsOk(k, names, StepsAll(ss))
    ensures LowerStmts(k, names, ss).Some? ==> LowerStmts(k, names, ss).value.names == names + Bound(StepsAll(ss))
    decreases ss, 2
  {
    hide LowerStmt, Steps, StepsOk;
    if ss == [] {
      assert StepsOk(k, names, StepsAll(ss)) by { NoSteps(k, names); }
      assert names + [] == names;
    } else {
      var a, b := Steps(ss[0]), StepsAll(ss[1..]);
      StmtAccepted(k, names, ss[0]);
      StepsJoin(k, names, a, b);
      BoundJoin(a, b);
      if LowerStmt(k, names, ss[0]).Some? {
        StmtsAccepted(k, names + Bound(a), ss[1..]);
        assert names + Bound(a) + Bound(b) == names + (Bound(a) + Bound(b));
      }
    }
  }

  lemma NoSteps(k: Kernel, names: seq<string>)
    ensures StepsOk(k, names, [])
  {
  }
}

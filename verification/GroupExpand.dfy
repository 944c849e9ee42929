// Fanning a whole-group assignment out into one assignment per component, anywhere in nested bodies, by suffixing
// names or through a temporary: the pass, and why the program means the same afterwards.
module GroupExpand {
  import opened Bytes
  import opened GroupLang

  // ---- the pass ----

  predicate WholeGroupRef(ns: Names, e: Expr) {
    match e
    case EName(x) => IsGroup(ns, x)
    case EField(_, f) => IsGroup(ns, f)
    case EIndex(b, _) => WholeGroupRef(ns, b)
    case _ => false
  }

  // The right-hand side cannot be split by suffixing names: it reads this element, a local, or passes a whole group
  // to a function.
  predicate NeedsValue(ns: Names, e: Expr)
    decreases e
  {
    match e
    case EName(x) => !IsGroup(ns, x) && x !in ns.consts
    case ESelf(_) => true
    case EBin(_, l, r) => NeedsValue(ns, l) || NeedsValue(ns, r)
    case EUn(_, x) => NeedsValue(ns, x)
    case ECall(fn, args) =>
      exists i :: 0 <= i < |args| && (NeedsValue(ns, args[i]) || (fn !in ns.collectives && WholeGroupRef(ns, args[i])))
    case _ => false
  }

  // Bare group names become the columns of one component.
  function Suffix(ns: Names, s: string, e: Expr): Expr
    decreases e, 0
  {
    match e
    case EName(x) => if IsGroup(ns, x) then EName(Flat(x, s)) else e
    case EField(b, f) =>
      if IsGroup(ns, f) then EField(Suffix(ns, s, b), Flat(f, s))
      else if b.EName? && IsGroup(ns, b.name) then e
      else EField(Suffix(ns, s, b), f)
    case EIndex(b, i) => EIndex(Suffix(ns, s, b), Suffix(ns, s, i))
    case EBin(op, l, r) => EBin(op, Suffix(ns, s, l), Suffix(ns, s, r))
    case EUn(op, x) => EUn(op, Suffix(ns, s, x))
    case ECall(fn, args) => ECall(fn, SuffixAll(ns, s, args))
    case _ => e
  }

  function SuffixAll(ns: Names, s: string, es: seq<Expr>): (r: seq<Expr>)
    ensures |r| == |es| && forall i :: 0 <= i < |es| ==> r[i] == Suffix(ns, s, es[i])
    decreases es, 1
  {
    seq(|es|, i requires 0 <= i < |es| => Suffix(ns, s, es[i]))
  }

  // The name of the n-th temporary.
  function Digits(n: nat): string { if n < 10 then [(n + '0' as int) as char] else Digits(n / 10) + [(n % 10 + '0' as int) as char] }
  function Tmp(n: nat): string { "__gw" + Digits(n) }

  predicate GroupTarget(ns: Names, s: Stmt) { s.SAssign? && s.target.EName? && IsGroup(ns, s.target.name) }

  // The component assignments for the suffixes of `ss`.
  function Lanes(ns: Names, g: string, op: Option<int>, e: Expr, byValue: bool, tmp: string, ss: seq<string>): seq<Stmt> {
    if ss == [] then []
    else
      var s := ss[|ss| - 1];
      Lanes(ns, g, op, e, byValue, tmp, ss[..|ss| - 1])
      + [SAssign(EName(Flat(g, s)), op, if byValue then EField(EName(tmp), s) else Suffix(ns, s, e))]
  }

  function Fan(ns: Names, s: Stmt, tmp: string): Stmt
    requires GroupTarget(ns, s)
  {
    var g := s.target.name;
    var byValue := NeedsValue(ns, s.value);
    SBlock((if byValue then [SBind(tmp, s.value)] else []) + Lanes(ns, g, s.aop, s.value, byValue, tmp, ns.groups[g]))
  }

  // The statement, and the number of temporaries used so far.
  function Expand(ns: Names, s: Stmt, n: nat): (Stmt, nat)
    decreases s, 1
  {
    match s
    case SIf(c, t, e) =>
      var a := ExpandAll(ns, t, n);
      var b := ExpandAll(ns, e, a.1);
      (SIf(c, a.0, b.0), b.1)
    case SFor(i, c, x, body) => var a := ExpandAll(ns, body, n); (SFor(i, c, x, a.0), a.1)
    case SBlock(ss) => var a := ExpandAll(ns, ss, n); (SBlock(a.0), a.1)
    case SEach(ss) => var a := ExpandAll(ns, ss, n); (SEach(a.0), a.1)
    case SAssign(_, _, _) =>
      if GroupTarget(ns, s) then (Fan(ns, s, Tmp(n)), if NeedsValue(ns, s.value) then n + 1 else n) else (s, n)
    case _ => (s, n)
  }

  function ExpandAll(ns: Names, ss: seq<Stmt>, n: nat): (r: (seq<Stmt>, nat))
    ensures |r.0| == |ss|
    decreases ss, 0
  {
    if ss == [] then ([], n)
    else
      var a := Expand(ns, ss[0], n);
      var b := ExpandAll(ns, ss[1..], a.1);
      ([a.0] + b.0, b.1)
  }

  // In place over an array of statements; nested bodies through arrays of their own.
  method ExpandList(ns: Names, stmts: array<Stmt>, n0: nat, ghost was: seq<Stmt>) returns (n: nat)
    requires was == stmts[..]
    modifies stmts
    ensures (stmts[..], n) == ExpandAll(ns, was, n0)
    ensures RewrittenAll(ns, was, stmts[..], n0) && n == n0 + NeedingAll(ns, was)
    ensures FlatFresh(ns) ==> forall i :: 0 <= i < stmts.Length ==> NoGroupTarget(ns, stmts[i])
    decreases was, 0
  {
    hide Expand;
    n := n0;
    assert was[0..] == was;
    assert [] + ExpandAll(ns, was, n).0 == ExpandAll(ns, was, n).0;
    for i := 0 to stmts.Length
      invariant stmts[i..] == was[i..]
      invariant ExpandAll(ns, was, n0) == (stmts[..i] + ExpandAll(ns, was[i..], n).0, ExpandAll(ns, was[i..], n).1)
    {
      ghost var done, rest := stmts[..i], was[i..];
      assert rest[0] == was[i] && rest[1..] == was[i + 1..];
      assert stmts[i] == stmts[i..][0];
      var s, m := ExpandStmt(ns, stmts[i], n);
      stmts[i] := s;
      n := m;
      assert stmts[..i + 1] == done + [s];
      assert stmts[i + 1..] == was[i + 1..];
      assert done + ([s] + ExpandAll(ns, rest[1..], n).0) == (done + [s]) + ExpandAll(ns, rest[1..], n).0;
    }
    assert stmts[..stmts.Length] == stmts[..] && was[stmts.Length..] == [];
    assert stmts[..] + [] == stmts[..];
    hide ExpandAll, RewrittenAll, NoGroupTarget, FlatFresh;
    ExpandAllRewrites(ns, was, n0);
    if FlatFresh(ns) {
      RewrittenAllClear(ns, was, stmts[..], n0);
      assert forall i :: 0 <= i < stmts.Length ==> stmts[i] == stmts[..][i];
    }
  }

  method ExpandBody(ns: Names, ss: seq<Stmt>, n0: nat) returns (r: seq<Stmt>, n: nat)
    ensures (r, n) == ExpandAll(ns, ss, n0)
    decreases ss, 1
  {
    var a := new Stmt[|ss|](i requires 0 <= i < |ss| => ss[i]);
    assert a[..] == ss;
    n := ExpandList(ns, a, n0, ss);
    r := a[..];
  }

  method ExpandStmt(ns: Names, s: Stmt, n0: nat) returns (r: Stmt, n: nat)
    ensures (r, n) == Expand(ns, s, n0)
    decreases s, 2
  {
    match s
    case SIf(c, t, e) =>
      var a, n1 := ExpandBody(ns, t, n0);
      var b, n2 := ExpandBody(ns, e, n1);
      return SIf(c, a, b), n2;
    case SFor(i, c, x, body) =>
      var a, n1 := ExpandBody(ns, body, n0);
      return SFor(i, c, x, a), n1;
    case SBlock(ss) =>
      var a, n1 := ExpandBody(ns, ss, n0);
      return SBlock(a), n1;
    case SEach(ss) =>
      var a, n1 := ExpandBody(ns, ss, n0);
      return SEach(a), n1;
    case SAssign(_, _, _) =>
      if GroupTarget(ns, s) {
        return Fan(ns, s, Tmp(n0)), if NeedsValue(ns, s.value) then n0 + 1 else n0;
      }
      return s, n0;
    case _ => return s, n0;
  }

  // ---- when the value is needed ----

  // What is below an expression: operands and arguments, not the base of a field or an index.
  predicate Below(e: Expr, p: Expr)
    decreases e
  {
    || p == e
    || (e.EBin? && (Below(e.left, p) || Below(e.right, p)))
    || (e.EUn? && Below(e.operand, p))
    || (e.ECall? && exists i :: 0 <= i < |e.args| && Below(e.args[i], p))
  }

  // What makes the value needed: a name that is no group and no constant, a column read of this element, a group as an
  // argument of a function that does not fold over it.
  predicate Needs(ns: Names, p: Expr) {
    || (p.EName? && p.name !in ns.groups && p.name !in ns.consts)
    || p.ESelf?
    || (p.ECall? && p.fn !in ns.collectives && exists i :: 0 <= i < |p.args| && GroupNamed(ns, p.args[i]))
  }

  // A group by name, behind a dot or at an index.
  predicate GroupNamed(ns: Names, e: Expr) {
    (e.EName? && e.name in ns.groups) || (e.EField? && e.field in ns.groups) || (e.EIndex? && GroupNamed(ns, e.base))
  }

  lemma {:induction false} GroupNamedIs(ns: Names, e: Expr)
    ensures WholeGroupRef(ns, e) <==> GroupNamed(ns, e)
    decreases e
  {
    if e.EIndex? {
      GroupNamedIs(ns, e.base);
    }
  }

  lemma {:induction false} NeededExact(ns: Names, e: Expr)
    ensures NeedsValue(ns, e) <==> exists p :: Below(e, p) && Needs(ns, p)
    decreases e
  {
    assert Below(e, e);
    match e
    case EBin(_, l, r) =>
      NeededExact(ns, l);
      NeededExact(ns, r);
    case EUn(_, x) => NeededExact(ns, x);
    case ECall(fn, args) =>
      forall i | 0 <= i < |args|
        ensures NeedsValue(ns, args[i]) <==> exists p :: Below(args[i], p) && Needs(ns, p)
        ensures WholeGroupRef(ns, args[i]) <==> GroupNamed(ns, args[i])
      {
        NeededExact(ns, args[i]);
        GroupNamedIs(ns, args[i]);
      }
    case _ =>
  }

  // ---- twice is once ----

  // No flattened column has a group's or a constant's name.
  predicate FlatFresh(ns: Names) {
    forall g, s :: g in ns.groups && s in ns.groups[g] ==> !IsGroup(ns, Flat(g, s)) && Flat(g, s) !in ns.consts
  }

  // Components of different groups are different columns, and so are the components of one.
  predicate FlatApart(ns: Names) {
    forall g, s, h, r :: g in ns.groups && s in ns.groups[g] && h in ns.groups && r in ns.groups[h] && Flat(g, s) == Flat(h, r) ==>
      g == h && s == r
  }

  lemma {:induction false} LanesAreScalar(ns: Names, g: string, op: Option<int>, e: Expr, byValue: bool, tmp: string, ss: seq<string>)
    requires FlatFresh(ns) && g in ns.groups && (forall s :: s in ss ==> s in ns.groups[g])
    ensures forall i :: 0 <= i < |Lanes(ns, g, op, e, byValue, tmp, ss)| ==>
              Lanes(ns, g, op, e, byValue, tmp, ss)[i].SAssign? && !GroupTarget(ns, Lanes(ns, g, op, e, byValue, tmp, ss)[i])
    decreases |ss|
  {
    if ss != [] {
      var s := ss[|ss| - 1];
      assert s in ss;
      LanesAreScalar(ns, g, op, e, byValue, tmp, ss[..|ss| - 1]);
    }
  }

  lemma {:induction false} PlainStays(ns: Names, ss: seq<Stmt>, n: nat)
    requires forall i :: 0 <= i < |ss| ==> (ss[i].SAssign? && !GroupTarget(ns, ss[i])) || ss[i].SBind?
    ensures ExpandAll(ns, ss, n) == (ss, n)
    decreases |ss|
  {
    if ss != [] {
      PlainStays(ns, ss[1..], n);
      assert ss == [ss[0]] + ss[1..];
    }
  }

  lemma FanStays(ns: Names, s: Stmt, tmp: string, n: nat)
    requires FlatFresh(ns) && GroupTarget(ns, s)
    ensures Expand(ns, Fan(ns, s, tmp), n) == (Fan(ns, s, tmp), n)
  {
    var g := s.target.name;
    LanesAreScalar(ns, g, s.aop, s.value, NeedsValue(ns, s.value), tmp, ns.groups[g]);
    PlainStays(ns, Fan(ns, s, tmp).stmts, n);
  }

  // Running the pass on its own result changes nothing and uses no temporary.
  lemma {:induction false} ExpandTwice(ns: Names, s: Stmt, n: nat, m: nat)
    requires FlatFresh(ns)
    ensures Expand(ns, Expand(ns, s, n).0, m) == (Expand(ns, s, n).0, m)
    decreases s, 1
  {
    match s
    case SIf(c, t, e) =>
      ExpandAllTwice(ns, t, n, m);
      ExpandAllTwice(ns, e, ExpandAll(ns, t, n).1, m);
    case SFor(i, c, x, body) => ExpandAllTwice(ns, body, n, m);
    case SBlock(ss) => ExpandAllTwice(ns, ss, n, m);
    case SEach(ss) => ExpandAllTwice(ns, ss, n, m);
    case SAssign(_, _, _) =>
      if GroupTarget(ns, s) {
        FanStays(ns, s, Tmp(n), m);
      }
    case _ =>
  }

  lemma {:induction false} ExpandAllTwice(ns: Names, ss: seq<Stmt>, n: nat, m: nat)
    requires FlatFresh(ns)
    ensures ExpandAll(ns, ExpandAll(ns, ss, n).0, m) == (ExpandAll(ns, ss, n).0, m)
    decreases ss, 0
  {
    if ss != [] {
      var a := Expand(ns, ss[0], n);
      var b := ExpandAll(ns, ss[1..], a.1);
      ExpandTwice(ns, ss[0], n, m);
      ExpandAllTwice(ns, ss[1..], a.1, m);
      assert ([a.0] + b.0)[1..] == b.0;
    }
  }

  // ---- what the pass leaves behind ----

  // No statement assigns to a bare group name, at any depth the pass goes to: not in a for's init and increment.
  predicate NoGroupTarget(ns: Names, s: Stmt) {
    match s
    case SAssign(t, _, _) => !(t.EName? && t.name in ns.groups)
    case SIf(_, t, e) =>
      (forall i :: 0 <= i < |t| ==> NoGroupTarget(ns, t[i])) && (forall i :: 0 <= i < |e| ==> NoGroupTarget(ns, e[i]))
    case SFor(_, _, _, b) => forall i :: 0 <= i < |b| ==> NoGroupTarget(ns, b[i])
    case SBlock(ss) => forall i :: 0 <= i < |ss| ==> NoGroupTarget(ns, ss[i])
    case SEach(ss) => forall i :: 0 <= i < |ss| ==> NoGroupTarget(ns, ss[i])
    case _ => true
  }

  // One assignment for each component, in order, to the component's column with the statement's operator. Its right-hand
  // side is the component of the temporary or the suffixed expression.
  predicate Fanned(ns: Names, s: Stmt, lanes: seq<Stmt>, tmp: Option<string>)
    requires s.SAssign? && s.target.EName? && s.target.name in ns.groups
  {
    var g := s.target.name;
    && |lanes| == |ns.groups[g]|
    && forall i :: 0 <= i < |lanes| ==>
         lanes[i] == SAssign(EName(g + "_" + ns.groups[g][i]), s.aop,
                             if tmp.Some? then EField(EName(tmp.value), ns.groups[g][i]) else Suffix(ns, ns.groups[g][i], s.value))
  }

  // How many temporaries a statement needs: one for each assignment to a group whose value cannot be split.
  function Needing(ns: Names, s: Stmt): nat
    decreases s, 1
  {
    match s
    case SAssign(t, _, e) => if t.EName? && t.name in ns.groups && NeedsValue(ns, e) then 1 else 0
    case SIf(_, t, e) => NeedingAll(ns, t) + NeedingAll(ns, e)
    case SFor(_, _, _, b) => NeedingAll(ns, b)
    case SBlock(ss) => NeedingAll(ns, ss)
    case SEach(ss) => NeedingAll(ns, ss)
    case _ => 0
  }

  function NeedingAll(ns: Names, ss: seq<Stmt>): nat
    decreases ss, 0
  {
    if ss == [] then 0 else Needing(ns, ss[0]) + NeedingAll(ns, ss[1..])
  }

  // r is s with every assignment to a group in it replaced by a block: the component assignments, behind the binding of
  // the value to the next temporary exactly if it is needed. Nothing else is touched.
  predicate Rewritten(ns: Names, s: Stmt, r: Stmt, n: nat)
    decreases s, 1
  {
    match s
    case SAssign(t, op, e) =>
      if t.EName? && t.name in ns.groups then
        && r.SBlock?
        && (if NeedsValue(ns, e) then
              r.stmts != [] && r.stmts[0] == SBind(Tmp(n), e) && Fanned(ns, s, r.stmts[1..], Some(Tmp(n)))
            else Fanned(ns, s, r.stmts, None))
      else r == s
    case SIf(c, t, e) =>
      r.SIf? && r.cond == c && RewrittenAll(ns, t, r.thn, n) && RewrittenAll(ns, e, r.els, n + NeedingAll(ns, t))
    case SFor(i, c, x, b) => r.SFor? && r.init == i && r.test == c && r.incr == x && RewrittenAll(ns, b, r.body, n)
    case SBlock(ss) => r.SBlock? && RewrittenAll(ns, ss, r.stmts, n)
    case SEach(ss) => r.SEach? && RewrittenAll(ns, ss, r.inner, n)
    case _ => r == s
  }

  predicate RewrittenAll(ns: Names, ss: seq<Stmt>, rs: seq<Stmt>, n: nat)
    decreases ss, 0
  {
    |rs| == |ss| && (ss != [] ==> Rewritten(ns, ss[0], rs[0], n) && RewrittenAll(ns, ss[1..], rs[1..], n + Needing(ns, ss[0])))
  }

  lemma {:induction false} LanesAre(ns: Names, g: string, op: Option<int>, e: Expr, byValue: bool, tmp: string, ss: seq<string>)
    ensures var l := Lanes(ns, g, op, e, byValue, tmp, ss);
            && |l| == |ss|
            && forall i :: 0 <= i < |ss| ==>
                 l[i] == SAssign(EName(g + "_" + ss[i]), op, if byValue then EField(EName(tmp), ss[i]) else Suffix(ns, ss[i], e))
    decreases |ss|
  {
    hide Suffix;
    if ss != [] {
      var front := ss[..|ss| - 1];
      LanesAre(ns, g, op, e, byValue, tmp, front);
      assert forall i :: 0 <= i < |front| ==> front[i] == ss[i];
    }
  }

  lemma FanIsRewriting(ns: Names, s: Stmt, n: nat)
    requires GroupTarget(ns, s)
    ensures Rewritten(ns, s, Fan(ns, s, Tmp(n)), n)
  {
    hide Suffix, NeedsValue, Lanes;
    var g, byValue := s.target.name, NeedsValue(ns, s.value);
    LanesAre(ns, g, s.aop, s.value, byValue, Tmp(n), ns.groups[g]);
    var lanes := Lanes(ns, g, s.aop, s.value, byValue, Tmp(n), ns.groups[g]);
    var all := Fan(ns, s, Tmp(n)).stmts;
    if byValue {
      assert all[1..] == lanes;
    } else {
      assert all == lanes;
    }
  }

  // What the pass makes of a statement.
  lemma {:induction false} ExpandRewrites(ns: Names, s: Stmt, n: nat)
    ensures Rewritten(ns, s, Expand(ns, s, n).0, n) && Expand(ns, s, n).1 == n + Needing(ns, s)
    decreases s, 1
  {
    hide Fan, NeedsValue;
    match s
    case SAssign(_, _, _) =>
      if GroupTarget(ns, s) {
        FanIsRewriting(ns, s, n);
      }
    case SIf(_, t, e) =>
      ExpandAllRewrites(ns, t, n);
      ExpandAllRewrites(ns, e, n + NeedingAll(ns, t));
    case SFor(_, _, _, b) => ExpandAllRewrites(ns, b, n);
    case SBlock(ss) => ExpandAllRewrites(ns, ss, n);
    case SEach(ss) => ExpandAllRewrites(ns, ss, n);
    case _ =>
  }

  lemma {:induction false} ExpandAllRewrites(ns: Names, ss: seq<Stmt>, n: nat)
    ensures RewrittenAll(ns, ss, ExpandAll(ns, ss, n).0, n) && ExpandAll(ns, ss, n).1 == n + NeedingAll(ns, ss)
    decreases ss, 0
  {
    hide Expand, Rewritten, Needing;
    if ss != [] {
      var a := Expand(ns, ss[0], n);
      var b := ExpandAll(ns, ss[1..], a.1);
      ExpandRewrites(ns, ss[0], n);
      ExpandAllRewrites(ns, ss[1..], a.1);
      assert ([a.0] + b.0)[1..] == b.0;
    }
  }

  // What has been rewritten has no assignment to a group left.
  lemma {:induction false} RewrittenClears(ns: Names, s: Stmt, r: Stmt, n: nat)
    requires FlatFresh(ns) && Rewritten(ns, s, r, n)
    ensures NoGroupTarget(ns, r)
    decreases s, 1
  {
    hide Suffix, NeedsValue, FlatFresh;
    match s
    case SAssign(t, _, e) =>
      if t.EName? && t.name in ns.groups {
        var lanes := if NeedsValue(ns, e) then r.stmts[1..] else r.stmts;
        forall i | 0 <= i < |lanes|
          ensures NoGroupTarget(ns, lanes[i])
        {
          ComponentIsNoGroup(ns, t.name, i);
        }
        assert NeedsValue(ns, e) ==> forall i :: 1 <= i < |r.stmts| ==> r.stmts[i] == lanes[i - 1];
      }
    case SIf(_, t, e) =>
      RewrittenAllClear(ns, t, r.thn, n);
      RewrittenAllClear(ns, e, r.els, n + NeedingAll(ns, t));
    case SFor(_, _, _, b) => RewrittenAllClear(ns, b, r.body, n);
    case SBlock(ss) => RewrittenAllClear(ns, ss, r.stmts, n);
    case SEach(ss) => RewrittenAllClear(ns, ss, r.inner, n);
    case _ =>
  }

  lemma ComponentIsNoGroup(ns: Names, g: string, i: nat)
    requires FlatFresh(ns) && g in ns.groups && i < |ns.groups[g]|
    ensures g + "_" + ns.groups[g][i] !in ns.groups
  {
    assert ns.groups[g][i] in ns.groups[g];
    assert Flat(g, ns.groups[g][i]) == g + "_" + ns.groups[g][i];
  }

  lemma {:induction false} RewrittenAllClear(ns: Names, ss: seq<Stmt>, rs: seq<Stmt>, n: nat)
    requires FlatFresh(ns) && RewrittenAll(ns, ss, rs, n)
    ensures forall i :: 0 <= i < |rs| ==> NoGroupTarget(ns, rs[i])
    decreases ss, 0
  {
    hide FlatFresh, Rewritten, NoGroupTarget, Needing;
    if ss != [] {
      RewrittenClears(ns, ss[0], rs[0], n);
      RewrittenAllClear(ns, ss[1..], rs[1..], n + Needing(ns, ss[0]));
      assert forall i :: 1 <= i < |rs| ==> rs[i] == rs[1..][i - 1];
    }
  }

  // ---- what a suffixed expression is worth ----

  // Pure functions of scalars return scalars.
  ghost predicate ScalarCalls(o: Ops) {
    forall fn, vs :: !AnyTuple(vs) ==> o.call(fn, vs).S?
  }

  // A name that a component assignment to group `t` does not write before its last component.
  predicate NotEarly(ns: Names, t: string, c: string) {
    t in ns.groups && forall s :: s in ns.groups[t] && s != Last(ns, t) ==> c != Flat(t, s)
  }

  function Last(ns: Names, t: string): string {
    if t in ns.groups && ns.groups[t] != [] then ns.groups[t][|ns.groups[t]| - 1] else ""
  }

  // No group as a whole anywhere, and no component of the target but its last.
  predicate ScalarOk(ns: Names, t: string, e: Expr)
    decreases e
  {
    match e
    case ELit(_) => true
    case EName(x) => !IsGroup(ns, x) && NotEarly(ns, t, x)
    case ESelf(_) => false
    case EField(b, f) =>
      !IsGroup(ns, f) && b.EName? && NotEarly(ns, t, if IsGroup(ns, b.name) then Flat(b.name, f) else f)
    case EIndex(b, i) =>
      b.EField? && b.base.EName? && !IsGroup(ns, b.base.name) && !IsGroup(ns, b.field) && NotEarly(ns, t, b.field)
      && ScalarOk(ns, t, i)
    case EBin(_, l, r) => ScalarOk(ns, t, l) && ScalarOk(ns, t, r)
    case EUn(_, x) => ScalarOk(ns, t, x)
    case ECall(_, args) => forall i :: 0 <= i < |args| ==> ScalarOk(ns, t, args[i])
  }

  // A vector right-hand side: groups with the target's components, constants, scalars, operators, folds; calls of
  // other functions on scalars only; no component of the target but its last.
  ghost predicate VectorOk(ns: Names, t: string, e: Expr)
    decreases e
  {
    match e
    case ELit(_) => true
    case EName(x) => if IsGroup(ns, x) then SameParts(ns, t, x) else x in ns.consts && NotEarly(ns, t, x)
    case ESelf(_) => false
    case EField(b, f) => if IsGroup(ns, f) then b.EName? && !IsGroup(ns, b.name) && b.name in ns.pools && SameParts(ns, t, f) else ScalarOk(ns, t, e)
    case EIndex(b, i) =>
      b.EField? && b.base.EName? && !IsGroup(ns, b.base.name) && ScalarOk(ns, t, i)
      && (if IsGroup(ns, b.field) then SameParts(ns, t, b.field) else NotEarly(ns, t, b.field))
    case EBin(_, l, r) => VectorOk(ns, t, l) && VectorOk(ns, t, r)
    case EUn(_, x) => VectorOk(ns, t, x)
    case ECall(fn, args) =>
      if fn in ns.collectives then forall i :: 0 <= i < |args| ==> VectorOk(ns, t, args[i])
      else forall i :: 0 <= i < |args| ==> ScalarOk(ns, t, args[i]) && !NeedsValue(ns, args[i])
  }

  ghost predicate SameParts(ns: Names, t: string, x: string) {
    t in ns.groups && x in ns.groups && forall s :: s in ns.groups[t] <==> s in ns.groups[x]
  }

  // Locals do not hide groups, constants, pools or flattened columns.
  predicate LocalsOk(ns: Names, st: State) {
    && (forall x :: x in st.locals ==> !IsGroup(ns, x) && x !in ns.consts && x !in ns.pools)
    && (forall g, s :: g in ns.groups && s in ns.groups[g] ==> Flat(g, s) !in st.locals)
  }

  // States that differ at most in the components of t written before component s.
  ghost predicate Partly(ns: Names, t: string, s: string, a: State, b: State) {
    && a.locals == b.locals
    && forall c :: (NotEarly(ns, t, c) || c == Flat(t, s)) ==> ColOf(a.cols, c) == ColOf(b.cols, c)
  }

  lemma PoolUnchanged(ns: Names, s: string, b: Expr)
    ensures b.EName? && !IsGroup(ns, b.name) ==> Suffix(ns, s, b) == b
  {
  }

  lemma {:induction false} ScalarUnchanged(ns: Names, s: string, t: string, e: Expr)
    requires ScalarOk(ns, t, e)
    ensures Suffix(ns, s, e) == e
    decreases e
  {
    match e
    case EField(b, f) => PoolUnchanged(ns, s, b);
    case EIndex(b, i) =>
      ScalarUnchanged(ns, s, t, i);
      PoolUnchanged(ns, s, b.base);
      assert Suffix(ns, s, b) == b;
    case EBin(_, l, r) =>
      ScalarUnchanged(ns, s, t, l);
      ScalarUnchanged(ns, s, t, r);
    case EUn(_, x) => ScalarUnchanged(ns, s, t, x);
    case ECall(fn, args) =>
      forall i | 0 <= i < |args|
        ensures SuffixAll(ns, s, args)[i] == args[i]
      {
        ScalarUnchanged(ns, s, t, args[i]);
      }
      assert SuffixAll(ns, s, args) == args;
    case _ =>
  }

  lemma {:induction false} ScalarSame(ns: Names, o: Ops, t: string, s: string, a: State, b: State, e: Expr)
    requires ScalarOk(ns, t, e) && Partly(ns, t, s, a, b)
    ensures Eval(ns, o, a, e) == Eval(ns, o, b, e)
    decreases e
  {
    match e
    case EIndex(x, i) => ScalarSame(ns, o, t, s, a, b, i);
    case EBin(_, l, r) =>
      ScalarSame(ns, o, t, s, a, b, l);
      ScalarSame(ns, o, t, s, a, b, r);
    case EUn(_, x) => ScalarSame(ns, o, t, s, a, b, x);
    case ECall(fn, args) =>
      forall i | 0 <= i < |args|
        ensures EvalAll(ns, o, a, args)[i] == EvalAll(ns, o, b, args)[i]
      {
        ScalarSame(ns, o, t, s, a, b, args[i]);
      }
      assert EvalAll(ns, o, a, args) == EvalAll(ns, o, b, args);
    case _ =>
  }

  // A scalar expression that reads no local has a scalar value.
  lemma {:induction false} ScalarValue(ns: Names, o: Ops, t: string, st: State, e: Expr)
    requires ScalarOk(ns, t, e) && !NeedsValue(ns, e) && ScalarCalls(o)
    ensures Eval(ns, o, st, e).S?
    decreases e
  {
    hide ScalarCalls;
    match e
    case EBin(_, l, r) =>
      ScalarValue(ns, o, t, st, l);
      ScalarValue(ns, o, t, st, r);
    case EUn(_, x) => ScalarValue(ns, o, t, st, x);
    case ECall(fn, args) =>
      forall i | 0 <= i < |args|
        ensures EvalAll(ns, o, st, args)[i].S?
      {
        ScalarValue(ns, o, t, st, args[i]);
      }
      CallScalar(o, fn, EvalAll(ns, o, st, args));
    case _ =>
  }

  lemma CallScalar(o: Ops, fn: string, vs: seq<Val>)
    requires ScalarCalls(o) && forall i :: 0 <= i < |vs| ==> vs[i].S?
    ensures o.call(fn, vs).S? && !AnyTuple(vs)
  {
  }

  // A vector value of a group's components: every component, or a scalar for all.
  ghost predicate HasParts(v: Val, ss: seq<string>) { v.T? ==> forall s :: s in v.lanes <==> s in ss }

  lemma {:induction false} FirstTupleIs(vs: seq<Val>, ss: seq<string>)
    requires AnyTuple(vs) && forall i :: 0 <= i < |vs| ==> HasParts(vs[i], ss)
    ensures forall s :: s in FirstTuple(vs) <==> s in ss
    decreases |vs|
  {
    if !vs[0].T? {
      var i :| 0 <= i < |vs| && vs[i].T?;
      assert vs[1..][i - 1].T?;
      FirstTupleIs(vs[1..], ss);
    }
  }

  lemma FoldLane(o: Ops, fn: string, vs: seq<Val>, ws: seq<Val>, ss: seq<string>, s: string)
    requires |vs| == |ws| && s in ss && (forall i :: 0 <= i < |vs| ==> HasParts(vs[i], ss) && ws[i] == S(Lane(vs[i], s)))
    ensures HasParts(FoldLanes(o, fn, vs), ss) && FoldLanes(o, fn, ws) == S(Lane(FoldLanes(o, fn, vs), s))
  {
    assert !AnyTuple(ws);
    assert LanesOf(ws, "") == LanesOf(vs, s);
    if AnyTuple(vs) {
      FirstTupleIs(vs, ss);
    } else {
      assert LanesOf(vs, "") == LanesOf(vs, s);
    }
  }

  // One component of a vector expression is what the suffixed expression computes, also after earlier components of
  // the target have been written.
  lemma {:induction false} SuffixIsLane(ns: Names, o: Ops, t: string, s: string, a: State, b: State, e: Expr)
    requires FlatFresh(ns) && FlatApart(ns) && ScalarCalls(o) && LocalsOk(ns, a) && Partly(ns, t, s, a, b)
    requires VectorOk(ns, t, e) && !NeedsValue(ns, e) && t in ns.groups && s in ns.groups[t]
    ensures HasParts(Eval(ns, o, a, e), ns.groups[t])
    ensures Eval(ns, o, b, Suffix(ns, s, e)) == S(Lane(Eval(ns, o, a, e), s))
    decreases e
  {
    hide ScalarCalls;
    match e
    case ELit(_) =>
    case EName(x) => GroupLane(ns, o, t, s, a, b, x);
    case EField(_, _) => FieldLane(ns, o, t, s, a, b, e);
    case EIndex(_, _) => IndexLane(ns, o, t, s, a, b, e);
    case EBin(_, l, r) =>
      SuffixIsLane(ns, o, t, s, a, b, l);
      SuffixIsLane(ns, o, t, s, a, b, r);
    case EUn(_, x) => SuffixIsLane(ns, o, t, s, a, b, x);
    case ECall(fn, args) => CallLane(ns, o, t, s, a, b, e);
    case ESelf(_) =>
  }

  lemma GroupLane(ns: Names, o: Ops, t: string, s: string, a: State, b: State, x: string)
    requires FlatFresh(ns) && FlatApart(ns) && LocalsOk(ns, a) && Partly(ns, t, s, a, b) && t in ns.groups && s in ns.groups[t]
    requires VectorOk(ns, t, EName(x))
    ensures HasParts(Eval(ns, o, a, EName(x)), ns.groups[t])
    ensures Eval(ns, o, b, Suffix(ns, s, EName(x))) == S(Lane(Eval(ns, o, a, EName(x)), s))
  {
    hide FlatFresh, FlatApart, LocalsOk, Partly;
    assert a.locals == b.locals by { PartlyLocals(ns, t, s, a, b); }
    if IsGroup(ns, x) {
      assert s in ns.groups[x];
      ComponentSame(ns, t, s, a, b, x);
      FlatIsColumn(ns, o, b, x, s) by { OkSame(ns, a, b); }
    }
  }

  lemma PartlyLocals(ns: Names, t: string, s: string, a: State, b: State)
    requires Partly(ns, t, s, a, b)
    ensures a.locals == b.locals
  {
  }

  lemma OkSame(ns: Names, a: State, b: State)
    requires LocalsOk(ns, a) && a.locals == b.locals
    ensures LocalsOk(ns, b)
  {
  }

  // A flattened column is read as a column.
  lemma FlatIsColumn(ns: Names, o: Ops, st: State, x: string, s: string)
    requires FlatFresh(ns) && LocalsOk(ns, st) && x in ns.groups && s in ns.groups[x]
    ensures Eval(ns, o, st, EName(Flat(x, s))) == S(ColOf(st.cols, Flat(x, s)))
    ensures !IsGroup(ns, Flat(x, s))
  {
  }

  lemma PoolNotLocal(ns: Names, st: State, p: string)
    requires LocalsOk(ns, st)
    ensures p in ns.pools ==> p !in st.locals
  {
  }

  // Component s of any group with the target's components has not been written yet.
  lemma ComponentSame(ns: Names, t: string, s: string, a: State, b: State, x: string)
    requires FlatApart(ns) && Partly(ns, t, s, a, b) && t in ns.groups && s in ns.groups[t] && x in ns.groups && s in ns.groups[x]
    ensures ColOf(a.cols, Flat(x, s)) == ColOf(b.cols, Flat(x, s))
  {
    if x != t {
      assert NotEarly(ns, t, Flat(x, s));
    }
  }

  lemma FieldLane(ns: Names, o: Ops, t: string, s: string, a: State, b: State, e: Expr)
    requires FlatFresh(ns) && FlatApart(ns) && LocalsOk(ns, a) && Partly(ns, t, s, a, b) && t in ns.groups && s in ns.groups[t]
    requires e.EField? && VectorOk(ns, t, e)
    ensures HasParts(Eval(ns, o, a, e), ns.groups[t])
    ensures Eval(ns, o, b, Suffix(ns, s, e)) == S(Lane(Eval(ns, o, a, e), s))
  {
    hide FlatFresh, FlatApart, LocalsOk, Partly;
    assert a.locals == b.locals by { PartlyLocals(ns, t, s, a, b); }
    if IsGroup(ns, e.field) {
      assert s in ns.groups[e.field];
      ComponentSame(ns, t, s, a, b, e.field);
      FlatIsColumn(ns, o, b, e.field, s) by { OkSame(ns, a, b); }
      PoolNotLocal(ns, a, e.base.name);
      PoolUnchanged(ns, s, e.base);
      assert Suffix(ns, s, e) == EField(EName(e.base.name), Flat(e.field, s));
    } else {
      ScalarUnchanged(ns, s, t, e);
      ScalarSame(ns, o, t, s, a, b, e);
    }
  }

  lemma IndexLane(ns: Names, o: Ops, t: string, s: string, a: State, b: State, e: Expr)
    requires FlatFresh(ns) && FlatApart(ns) && LocalsOk(ns, a) && Partly(ns, t, s, a, b) && t in ns.groups && s in ns.groups[t]
    requires e.EIndex? && VectorOk(ns, t, e)
    ensures HasParts(Eval(ns, o, a, e), ns.groups[t])
    ensures Eval(ns, o, b, Suffix(ns, s, e)) == S(Lane(Eval(ns, o, a, e), s))
  {
    hide FlatFresh, FlatApart, LocalsOk, Partly;
    var p, f := e.base.base.name, e.base.field;
    assert a.locals == b.locals by { PartlyLocals(ns, t, s, a, b); }
    PoolUnchanged(ns, s, e.base.base);
    ScalarUnchanged(ns, s, t, e.index);
    ScalarSame(ns, o, t, s, a, b, e.index);
    if IsGroup(ns, f) {
      assert s in ns.groups[f];
      ComponentSame(ns, t, s, a, b, f);
      FlatIsColumn(ns, o, b, f, s) by { OkSame(ns, a, b); }
      assert Suffix(ns, s, e.base) == EField(EName(p), Flat(f, s));
      assert Suffix(ns, s, e) == EIndex(EField(EName(p), Flat(f, s)), e.index);
    } else {
      assert Suffix(ns, s, e.base) == e.base;
      NotEarlySame(ns, t, s, a, b, f);
    }
  }

  lemma NotEarlySame(ns: Names, t: string, s: string, a: State, b: State, c: string)
    requires Partly(ns, t, s, a, b) && NotEarly(ns, t, c)
    ensures ColOf(a.cols, c) == ColOf(b.cols, c)
  {
  }

  lemma {:induction false} CallLane(ns: Names, o: Ops, t: string, s: string, a: State, b: State, e: Expr)
    requires FlatFresh(ns) && FlatApart(ns) && ScalarCalls(o) && LocalsOk(ns, a) && Partly(ns, t, s, a, b)
    requires e.ECall? && VectorOk(ns, t, e) && !NeedsValue(ns, e) && t in ns.groups && s in ns.groups[t]
    ensures HasParts(Eval(ns, o, a, e), ns.groups[t])
    ensures Eval(ns, o, b, Suffix(ns, s, e)) == S(Lane(Eval(ns, o, a, e), s))
    decreases e, 0
  {
    hide ScalarCalls, LocalsOk, Partly, FlatFresh, FlatApart, FoldLanes;
    var fn, args := e.fn, e.args;
    var vs, ws := EvalAll(ns, o, a, args), EvalAll(ns, o, b, SuffixAll(ns, s, args));
    CallParts(ns, o, s, a, b, e);
    CallArgs(ns, t, e);
    hide Eval, Suffix, VectorOk, NeedsValue;
    if fn in ns.collectives {
      hide HasParts, Lane;
      forall i | 0 <= i < |args|
        ensures HasParts(vs[i], ns.groups[t]) && ws[i] == S(Lane(vs[i], s))
      {
        SuffixIsLane(ns, o, t, s, a, b, args[i]);
      }
      FoldLane(o, fn, vs, ws, ns.groups[t], s);
    } else {
      hide ScalarOk;
      forall i | 0 <= i < |args|
        ensures ws[i] == vs[i] && vs[i].S?
      {
        ScalarUnchanged(ns, s, t, args[i]);
        ScalarSame(ns, o, t, s, a, b, args[i]);
        ScalarValue(ns, o, t, a, args[i]);
      }
      assert ws == vs;
      CallScalar(o, fn, vs);
    }
  }

  // A call and its suffixed form, in terms of their arguments' values.
  lemma CallParts(ns: Names, o: Ops, s: string, a: State, b: State, e: Expr)
    requires e.ECall?
    ensures var vs, ws := EvalAll(ns, o, a, e.args), EvalAll(ns, o, b, SuffixAll(ns, s, e.args));
            && Suffix(ns, s, e) == ECall(e.fn, SuffixAll(ns, s, e.args))
            && Eval(ns, o, a, e) == (if e.fn in ns.collectives then FoldLanes(o, e.fn, vs) else o.call(e.fn, vs))
            && Eval(ns, o, b, Suffix(ns, s, e)) == (if e.fn in ns.collectives then FoldLanes(o, e.fn, ws) else o.call(e.fn, ws))
  {
  }

  lemma CallArgs(ns: Names, t: string, e: Expr)
    requires e.ECall? && VectorOk(ns, t, e) && !NeedsValue(ns, e)
    ensures forall i :: 0 <= i < |e.args| ==>
              !NeedsValue(ns, e.args[i])
              && (if e.fn in ns.collectives then VectorOk(ns, t, e.args[i]) else ScalarOk(ns, t, e.args[i]))
  {
  }

  // ---- the component assignments ----

  // The target's components are distinct, and their columns are no locals.
  predicate TargetOk(ns: Names, g: string) {
    g in ns.groups && forall i, j :: 0 <= i < j < |ns.groups[g]| ==> ns.groups[g][i] != ns.groups[g][j]
  }

  lemma {:induction false} WrittenAt(o: Ops, cols: map<string, int>, g: string, ss: seq<string>, op: Option<int>, v: Val, c: string)
    ensures (forall s :: s in ss ==> c != Flat(g, s)) ==> ColOf(WriteLanes(o, cols, g, ss, op, v), c) == ColOf(cols, c)
    decreases |ss|
  {
    if ss != [] {
      WrittenAt(o, cols, g, ss[..|ss| - 1], op, v, c);
      assert ss[|ss| - 1] in ss;
    }
  }

  // After the first components: everything but those is as it was.
  lemma PartlyWritten(ns: Names, o: Ops, st: State, g: string, k: nat, op: Option<int>, v: Val)
    requires FlatApart(ns) && TargetOk(ns, g) && k < |ns.groups[g]|
    ensures Partly(ns, g, ns.groups[g][k], st, State(WriteLanes(o, st.cols, g, ns.groups[g][..k], op, v), st.locals))
  {
    var all := ns.groups[g];
    var w := WriteLanes(o, st.cols, g, all[..k], op, v);
    forall c | NotEarly(ns, g, c) || c == Flat(g, all[k])
      ensures ColOf(w, c) == ColOf(st.cols, c)
    {
      forall s | s in all[..k]
        ensures c != Flat(g, s)
      {
        var i :| 0 <= i < k && all[i] == s;
        assert all[i] != all[k] && (k < |all| - 1 ==> all[i] != all[|all| - 1]);
        assert s in all && s != Last(ns, g);
      }
      WrittenAt(o, st.cols, g, all[..k], op, v, c);
    }
  }

  lemma {:induction false} ExecSnoc(ns: Names, o: Ops, st: State, ss: seq<Stmt>, s: Stmt, fuel: nat)
    ensures ExecAll(ns, o, st, ss + [s], fuel) ==
            (match ExecAll(ns, o, st, ss, fuel) case None => None case Some(r) => Exec(ns, o, r, s, fuel))
    decreases |ss|
  {
    hide Exec;
    if ss == [] {
      assert ss + [s] == [s] && [s][1..] == [];
      match Exec(ns, o, st, s, fuel)
      case Some(r) => assert ExecAll(ns, o, r, [], fuel) == Some(r);
      case None =>
    } else {
      assert (ss + [s])[1..] == ss[1..] + [s];
      match Exec(ns, o, st, ss[0], fuel)
      case Some(r) => ExecSnoc(ns, o, r, ss[1..], s, fuel);
      case None =>
    }
  }

  // The first k component assignments write exactly the first k components, from the columns as they were.
  lemma {:induction false} LanesRun(ns: Names, o: Ops, st: State, e: Expr, v: Val, g: string, op: Option<int>, byValue: bool,
                                    tmp: string, k: nat, fuel: nat)
    requires FlatFresh(ns) && FlatApart(ns) && ScalarCalls(o) && LocalsOk(ns, st) && g in ns.groups && TargetOk(ns, g) && k <= |ns.groups[g]|
    requires if byValue then tmp in st.locals && st.locals[tmp] == v else Eval(ns, o, st, e) == v && VectorOk(ns, g, e) && !NeedsValue(ns, e)
    ensures ExecAll(ns, o, st, Lanes(ns, g, op, e, byValue, tmp, ns.groups[g][..k]), fuel) ==
            Some(State(WriteLanes(o, st.cols, g, ns.groups[g][..k], op, v), st.locals))
    decreases k
  {
    hide FlatFresh, FlatApart, ScalarCalls, VectorOk, NeedsValue, Suffix, Exec, LocalsOk, Updated, Partly, Eval, Lane, ColOf, TargetOk;
    var all := ns.groups[g];
    if k > 0 {
      var s := all[k - 1];
      var front := all[..k - 1];
      assert all[..k][..k - 1] == front && all[..k][k - 1] == s;
      LanesRun(ns, o, st, e, v, g, op, byValue, tmp, k - 1, fuel);
      var w := State(WriteLanes(o, st.cols, g, front, op, v), st.locals);
      var rhs := if byValue then EField(EName(tmp), s) else Suffix(ns, s, e);
      PartlyWritten(ns, o, st, g, k - 1, op, v);
      OkSame(ns, st, w);
      if byValue {
        TmpLane(ns, o, w, tmp, v, s);
      } else {
        SuffixIsLane(ns, o, g, s, st, w, e);
      }
      ColumnTarget(ns, o, w, g, s, op, rhs, Lane(v, s), fuel);
      ExecSnoc(ns, o, st, Lanes(ns, g, op, e, byValue, tmp, front), SAssign(EName(Flat(g, s)), op, rhs), fuel);
    }
  }

  lemma TmpLane(ns: Names, o: Ops, st: State, tmp: string, v: Val, s: string)
    requires LocalsOk(ns, st) && tmp in st.locals && st.locals[tmp] == v
    ensures Eval(ns, o, st, EField(EName(tmp), s)) == S(Lane(v, s))
  {
  }

  // Assigning to one flattened column.
  lemma ColumnTarget(ns: Names, o: Ops, st: State, g: string, s: string, op: Option<int>, rhs: Expr, n: int, fuel: nat)
    requires FlatFresh(ns) && LocalsOk(ns, st) && g in ns.groups && s in ns.groups[g] && Eval(ns, o, st, rhs) == S(n)
    ensures Exec(ns, o, st, SAssign(EName(Flat(g, s)), op, rhs), fuel) ==
            Some(State(st.cols[Flat(g, s) := Updated(o, op, ColOf(st.cols, Flat(g, s)), n)], st.locals))
  {
  }

  // ---- the whole pass ----

  // What the pass is right for: an assignment to a group whose right-hand side, if it is split, is one that can be.
  ghost predicate Splits(ns: Names, s: Stmt) {
    GroupTarget(ns, s) ==> TargetOk(ns, s.target.name) && (!NeedsValue(ns, s.value) ==> VectorOk(ns, s.target.name, s.value))
  }

  // New locals hide nothing, nor does a temporary.
  ghost predicate NameOk(ns: Names, x: string) {
    && !IsGroup(ns, x) && x !in ns.consts && x !in ns.pools && (forall n: nat :: x != Tmp(n))
    && (forall g, s :: g in ns.groups && s in ns.groups[g] ==> x != Flat(g, s))
  }

  ghost predicate Supported(ns: Names, s: Stmt) {
    match s
    case SAssign(_, _, _) => Splits(ns, s)
    case SBind(x, _) => NameOk(ns, x)
    case SIf(_, t, e) => (forall i :: 0 <= i < |t| ==> Supported(ns, t[i])) && (forall i :: 0 <= i < |e| ==> Supported(ns, e[i]))
    case SFor(i, _, x, b) =>
      && (forall j :: 0 <= j < |i| ==> Supported(ns, i[j])) && (forall j :: 0 <= j < |x| ==> Supported(ns, x[j]))
      && (forall j :: 0 <= j < |b| ==> Supported(ns, b[j]))
    case SBlock(ss) => forall i :: 0 <= i < |ss| ==> Supported(ns, ss[i])
    case SEach(ss) => forall i :: 0 <= i < |ss| ==> Supported(ns, ss[i])
    case SOther(_) => true
  }

  ghost predicate TmpsFree(ns: Names) {
    forall n: nat ::
      && !IsGroup(ns, Tmp(n)) && Tmp(n) !in ns.consts && Tmp(n) !in ns.pools
      && (forall g, s :: g in ns.groups && s in ns.groups[g] ==> Tmp(n) != Flat(g, s))
  }

  // What every program of the pass's language assumes about its names.
  ghost predicate World(ns: Names, o: Ops) { FlatFresh(ns) && FlatApart(ns) && ScalarCalls(o) && TmpsFree(ns) }

  ghost predicate StateOk(ns: Names, st: State) { LocalsOk(ns, st) && forall n: nat :: Tmp(n) !in st.locals }

  // Fanned out, an assignment writes what it would have written at once.
  lemma FanRuns(ns: Names, o: Ops, st: State, s: Stmt, n: nat, fuel: nat)
    requires World(ns, o) && StateOk(ns, st) && GroupTarget(ns, s) && Splits(ns, s)
    ensures Exec(ns, o, st, Fan(ns, s, Tmp(n)), fuel) == Exec(ns, o, st, s, fuel)
  {
    hide ScalarCalls, VectorOk, FlatFresh, FlatApart, TmpsFree, Lanes, WriteLanes, LocalsOk, NeedsValue, Suffix, TargetOk;
    var g, tmp := s.target.name, Tmp(n);
    var all := ns.groups[g];
    var v := Eval(ns, o, st, s.value);
    var byValue := NeedsValue(ns, s.value);
    var lanes := Lanes(ns, g, s.aop, s.value, byValue, tmp, all);
    assert all[..|all|] == all;
    var inner := if byValue then State(st.cols, st.locals[tmp := v]) else st;
    assert LocalsOk(ns, inner) by { TmpHides(ns, st, n, v); }
    LanesRun(ns, o, inner, s.value, v, g, s.aop, byValue, tmp, |all|, fuel);
    var w := State(WriteLanes(o, st.cols, g, all, s.aop, v), inner.locals);
    assert Leave(st, w) == State(w.cols, st.locals);
    if byValue {
      var body := [SBind(tmp, s.value)] + lanes;
      assert body[1..] == lanes;
      assert ExecAll(ns, o, st, body, fuel) == ExecAll(ns, o, inner, lanes, fuel);
    } else {
      assert [] + lanes == lanes;
    }
  }

  lemma TmpHides(ns: Names, st: State, n: nat, v: Val)
    requires TmpsFree(ns) && LocalsOk(ns, st)
    ensures LocalsOk(ns, State(st.cols, st.locals[Tmp(n) := v]))
  {
  }

  // Leaving a block keeps the outer names and nothing else.
  lemma LeaveKeeps(ns: Names, outer: State, st: State)
    requires StateOk(ns, st) && outer.locals.Keys <= st.locals.Keys
    ensures StateOk(ns, Leave(outer, st)) && Leave(outer, st).locals.Keys == outer.locals.Keys
  {
  }

  lemma LocalsDecide(ns: Names, a: State, b: State)
    requires StateOk(ns, a) && a.locals == b.locals
    ensures StateOk(ns, b)
  {
  }

  lemma SimpleKeeps(ns: Names, o: Ops, st: State, s: Stmt, fuel: nat)
    requires StateOk(ns, st) && Supported(ns, s) && (s.SAssign? || s.SBind? || s.SOther?)
    ensures var r := Exec(ns, o, st, s, fuel);
            r.Some? && StateOk(ns, r.value) && st.locals.Keys <= r.value.locals.Keys
  {
    hide Eval, WriteLanes, Splits;
  }

  lemma {:induction false} StmtKeepsState(ns: Names, o: Ops, st: State, s: Stmt, fuel: nat)
    requires World(ns, o) && StateOk(ns, st) && Supported(ns, s) && Exec(ns, o, st, s, fuel).Some?
    ensures StateOk(ns, Exec(ns, o, st, s, fuel).value)
    ensures st.locals.Keys <= Exec(ns, o, st, s, fuel).value.locals.Keys
    decreases fuel, s, 1
  {
    hide World, Splits, StateOk, Eval, Leave;
    match s
    case SIf(c, t, e) =>
      var body := if IntOf(Eval(ns, o, st, c)) != 0 then t else e;
      StmtsKeepState(ns, o, st, body, fuel);
      LeaveKeeps(ns, st, ExecAll(ns, o, st, body, fuel).value);
    case SFor(i, c, x, b) =>
      StmtsKeepState(ns, o, st, i, fuel);
      var s1 := ExecAll(ns, o, st, i, fuel).value;
      LoopKeepsState(ns, o, s1, c, x, b, fuel);
      LeaveKeeps(ns, st, Loop(ns, o, s1, c, x, b, fuel).value);
    case SBlock(ss) =>
      StmtsKeepState(ns, o, st, ss, fuel);
      LeaveKeeps(ns, st, ExecAll(ns, o, st, ss, fuel).value);
    case SEach(ss) => RowsKeepState(ns, o, st, ss, o.rows, fuel);
    case _ => SimpleKeeps(ns, o, st, s, fuel);
  }

  lemma {:induction false} LoopKeepsState(ns: Names, o: Ops, st: State, c: Expr, x: seq<Stmt>, b: seq<Stmt>, fuel: nat)
    requires World(ns, o) && StateOk(ns, st) && Loop(ns, o, st, c, x, b, fuel).Some?
    requires (forall j :: 0 <= j < |x| ==> Supported(ns, x[j])) && (forall j :: 0 <= j < |b| ==> Supported(ns, b[j]))
    ensures StateOk(ns, Loop(ns, o, st, c, x, b, fuel).value)
    ensures st.locals.Keys <= Loop(ns, o, st, c, x, b, fuel).value.locals.Keys
    decreases fuel, b, 0
  {
    hide World, Supported, StateOk, Eval, Leave;
    if IntOf(Eval(ns, o, st, c)) != 0 {
      StmtsKeepState(ns, o, st, b, fuel - 1);
      LeaveKeeps(ns, st, ExecAll(ns, o, st, b, fuel - 1).value);
      var s1 := LeaveOpt(st, ExecAll(ns, o, st, b, fuel - 1)).value;
      StmtsKeepState(ns, o, s1, x, fuel - 1);
      LeaveKeeps(ns, s1, ExecAll(ns, o, s1, x, fuel - 1).value);
      var s2 := LeaveOpt(s1, ExecAll(ns, o, s1, x, fuel - 1)).value;
      LoopKeepsState(ns, o, s2, c, x, b, fuel - 1);
    }
  }

  lemma {:induction false} RowsKeepState(ns: Names, o: Ops, st: State, ss: seq<Stmt>, n: nat, fuel: nat)
    requires World(ns, o) && StateOk(ns, st) && (forall j :: 0 <= j < |ss| ==> Supported(ns, ss[j]))
    requires EachRow(ns, o, st, ss, n, fuel).Some?
    ensures StateOk(ns, EachRow(ns, o, st, ss, n, fuel).value)
    ensures st.locals.Keys <= EachRow(ns, o, st, ss, n, fuel).value.locals.Keys
    decreases fuel, ss, 2, n
  {
    hide World, Supported;
    if n > 0 {
      RowsKeepState(ns, o, st, ss, n - 1, fuel);
      var s1 := EachRow(ns, o, st, ss, n - 1, fuel).value;
      LocalsDecide(ns, s1, State(o.enter(n - 1, s1.cols), s1.locals));
      StmtsKeepState(ns, o, State(o.enter(n - 1, s1.cols), s1.locals), ss, fuel);
    }
  }

  lemma {:induction false} StmtsKeepState(ns: Names, o: Ops, st: State, ss: seq<Stmt>, fuel: nat)
    requires World(ns, o) && StateOk(ns, st) && (forall i :: 0 <= i < |ss| ==> Supported(ns, ss[i]))
    requires ExecAll(ns, o, st, ss, fuel).Some?
    ensures StateOk(ns, ExecAll(ns, o, st, ss, fuel).value)
    ensures st.locals.Keys <= ExecAll(ns, o, st, ss, fuel).value.locals.Keys
    decreases fuel, ss, 0
  {
    hide World, StateOk;
    if ss != [] {
      StmtKeepsState(ns, o, st, ss[0], fuel);
      StmtsKeepState(ns, o, Exec(ns, o, st, ss[0], fuel).value, ss[1..], fuel);
    }
  }

  // For every supported program, nested bodies included: the expanded statement leaves exactly the state the
  // original leaves, and runs out of fuel exactly where it does.
  lemma {:induction false} ExpandMeans(ns: Names, o: Ops, st: State, s: Stmt, n: nat, fuel: nat)
    requires World(ns, o) && StateOk(ns, st) && Supported(ns, s)
    ensures Exec(ns, o, st, Expand(ns, s, n).0, fuel) == Exec(ns, o, st, s, fuel)
    decreases fuel, s, 1
  {
    hide World, StateOk, Splits, Fan;
    match s
    case SIf(c, t, e) =>
      ExpandAllMeans(ns, o, st, t, n, fuel);
      ExpandAllMeans(ns, o, st, e, ExpandAll(ns, t, n).1, fuel);
    case SFor(i, c, x, b) =>
      if ExecAll(ns, o, st, i, fuel).Some? {
        StmtsKeepState(ns, o, st, i, fuel);
        LoopMeans(ns, o, ExecAll(ns, o, st, i, fuel).value, c, x, b, n, fuel);
      }
    case SBlock(ss) => ExpandAllMeans(ns, o, st, ss, n, fuel);
    case SEach(ss) => RowsMean(ns, o, st, ss, n, o.rows, fuel);
    case SAssign(_, _, _) =>
      if GroupTarget(ns, s) {
        FanRuns(ns, o, st, s, n, fuel);
      }
    case _ =>
  }

  lemma {:induction false} LoopMeans(ns: Names, o: Ops, st: State, c: Expr, x: seq<Stmt>, b: seq<Stmt>, n: nat, fuel: nat)
    requires World(ns, o) && StateOk(ns, st)
    requires (forall j :: 0 <= j < |x| ==> Supported(ns, x[j])) && (forall j :: 0 <= j < |b| ==> Supported(ns, b[j]))
    ensures Loop(ns, o, st, c, x, ExpandAll(ns, b, n).0, fuel) == Loop(ns, o, st, c, x, b, fuel)
    decreases fuel, b, 0
  {
    hide World, Supported, StateOk, Eval, Leave;
    if fuel > 0 && IntOf(Eval(ns, o, st, c)) != 0 {
      ExpandAllMeans(ns, o, st, b, n, fuel - 1);
      var r := ExecAll(ns, o, st, b, fuel - 1);
      if r.Some? {
        StmtsKeepState(ns, o, st, b, fuel - 1);
        LeaveKeeps(ns, st, r.value);
        var s1 := Leave(st, r.value);
        var r2 := ExecAll(ns, o, s1, x, fuel - 1);
        if r2.Some? {
          StmtsKeepState(ns, o, s1, x, fuel - 1);
          LeaveKeeps(ns, s1, r2.value);
          LoopMeans(ns, o, Leave(s1, r2.value), c, x, b, n, fuel - 1);
        }
      }
    }
  }

  lemma {:induction false} RowsMean(ns: Names, o: Ops, st: State, ss: seq<Stmt>, n: nat, k: nat, fuel: nat)
    requires World(ns, o) && StateOk(ns, st) && (forall j :: 0 <= j < |ss| ==> Supported(ns, ss[j]))
    ensures EachRow(ns, o, st, ExpandAll(ns, ss, n).0, k, fuel) == EachRow(ns, o, st, ss, k, fuel)
    decreases fuel, ss, 2, k
  {
    hide World, Supported;
    if k > 0 {
      RowsMean(ns, o, st, ss, n, k - 1, fuel);
      var r := EachRow(ns, o, st, ss, k - 1, fuel);
      if r.Some? {
        RowsKeepState(ns, o, st, ss, k - 1, fuel);
        ExpandAllMeans(ns, o, State(o.enter(k - 1, r.value.cols), r.value.locals), ss, n, fuel);
      }
    }
  }

  lemma {:induction false} ExpandAllMeans(ns: Names, o: Ops, st: State, ss: seq<Stmt>, n: nat, fuel: nat)
    requires World(ns, o) && StateOk(ns, st) && (forall i :: 0 <= i < |ss| ==> Supported(ns, ss[i]))
    ensures ExecAll(ns, o, st, ExpandAll(ns, ss, n).0, fuel) == ExecAll(ns, o, st, ss, fuel)
    decreases fuel, ss, 0
  {
    hide World, StateOk, Supported, Exec;
    if ss != [] {
      var a := Expand(ns, ss[0], n);
      var b := ExpandAll(ns, ss[1..], a.1);
      assert ([a.0] + b.0)[1..] == b.0;
      ExpandMeans(ns, o, st, ss[0], n, fuel);
      var r := Exec(ns, o, st, ss[0], fuel);
      if r.Some? {
        StmtKeepsState(ns, o, st, ss[0], fuel);
        ExpandAllMeans(ns, o, r.value, ss[1..], a.1, fuel);
      }
    }
  }

  // ---- where splitting is not right ----

  ghost predicate FanRight(ns: Names, o: Ops, st: State, s: Stmt, n: nat, fuel: nat)
    requires GroupTarget(ns, s)
  {
    Exec(ns, o, st, Fan(ns, s, Tmp(n)), fuel) == Exec(ns, o, st, s, fuel)
  }

  // Whatever the operations compute and whatever the state, the fanned-out assignment does what the whole one does.
  ghost predicate AlwaysRight(ns: Names, s: Stmt, n: nat)
    requires GroupTarget(ns, s)
  {
    forall o, st, fuel: nat :: World(ns, o) && StateOk(ns, st) ==> FanRight(ns, o, st, s, n, fuel)
  }

  ghost predicate NamesOk(ns: Names, g: string) {
    FlatFresh(ns) && FlatApart(ns) && TmpsFree(ns) && g in ns.groups && ns.groups[g] != [] && TargetOk(ns, g)
  }

  // Operations for the counterexamples: every binary operator adds, a call tells a vector from a scalar.
  const ADDING: Ops := Ops((op, a, b) => a + b, (op, a) => a, (fn, vs) => if AnyTuple(vs) then S(1) else S(2),
                           (fn, ns) => 0, (p, c, at, n) => n, 0, (i, m) => m, (i, a, b) => b, (e, m, v) => m, (k, m) => m)

  // g = g op g.r
  function OwnComponent(g: string, r: string, op: int): Stmt { SAssign(EName(g), None, EBin(op, EName(g), EField(EName(g), r))) }

  // The first k component assignments of g = g op g.r from g.r = 1 and g.l = 0 on, l the last component: r doubles
  // when its turn comes, l stays.
  lemma {:induction false} OwnLanes(ns: Names, st: State, g: string, r: string, op: int, k: nat, fuel: nat)
    requires NamesOk(ns, g) && LocalsOk(ns, st) && k < |ns.groups[g]| && r in ns.groups[g] && !IsGroup(ns, r)
    requires ColOf(st.cols, Flat(g, r)) == 1 && ColOf(st.cols, Flat(g, Last(ns, g))) == 0
    ensures var e := OwnComponent(g, r, op).value;
            var m := ExecAll(ns, ADDING, st, Lanes(ns, g, None, e, false, "", ns.groups[g][..k]), fuel);
            && m.Some? && m.value.locals == st.locals
            && ColOf(m.value.cols, Flat(g, r)) == (if r in ns.groups[g][..k] then 2 else 1)
            && ColOf(m.value.cols, Flat(g, Last(ns, g))) == 0
    decreases k
  {
    hide FlatFresh, FlatApart, LocalsOk, TmpsFree;
    var e := OwnComponent(g, r, op).value;
    if k > 0 {
      OwnLanes(ns, st, g, r, op, k - 1, fuel);
      var all := ns.groups[g];
      var s := all[k - 1];
      var front := Lanes(ns, g, None, e, false, "", all[..k - 1]);
      var m := ExecAll(ns, ADDING, st, front, fuel).value;
      assert LocalsOk(ns, m) by { OkSame(ns, st, m); }
      assert all[..k][..k - 1] == all[..k - 1] && all[..k][k - 1] == s;
      OwnLane(ns, m, g, r, op, s, fuel);
      ExecSnoc(ns, ADDING, st, front, SAssign(EName(Flat(g, s)), None, Suffix(ns, s, e)), fuel);
      if s != r {
        ApartIs(ns, g, r, s);
      }
      ApartIs(ns, g, s, Last(ns, g));
    }
  }

  // One of them.
  lemma OwnLane(ns: Names, m: State, g: string, r: string, op: int, s: string, fuel: nat)
    requires NamesOk(ns, g) && LocalsOk(ns, m) && r in ns.groups[g] && s in ns.groups[g] && !IsGroup(ns, r)
    ensures var e := OwnComponent(g, r, op).value;
            var n := ColOf(m.cols, Flat(g, s)) + ColOf(m.cols, Flat(g, r));
            Exec(ns, ADDING, m, SAssign(EName(Flat(g, s)), None, Suffix(ns, s, e)), fuel)
            == Some(State(m.cols[Flat(g, s) := n], m.locals))
  {
    hide FlatFresh, FlatApart, LocalsOk, TmpsFree;
    FlatIsColumn(ns, ADDING, m, g, s);
    var x := EField(EName(g), r);
    var y := EName(Flat(g, s));
    assert Suffix(ns, s, x) == x && Suffix(ns, s, EName(g)) == y;
    assert Suffix(ns, s, OwnComponent(g, r, op).value) == EBin(op, y, x);
    assert Eval(ns, ADDING, m, x) == S(ColOf(m.cols, Flat(g, r)));
    hide Suffix, Flat, ColOf;
    assert Eval(ns, ADDING, m, EBin(op, y, x)) == S(ColOf(m.cols, Flat(g, s)) + ColOf(m.cols, Flat(g, r)));
    ColumnTarget(ns, ADDING, m, g, s, None, Suffix(ns, s, OwnComponent(g, r, op).value),
                 ColOf(m.cols, Flat(g, s)) + ColOf(m.cols, Flat(g, r)), fuel);
  }

  lemma AddingWorld(ns: Names, g: string, cols: map<string, int>)
    requires NamesOk(ns, g)
    ensures World(ns, ADDING) && StateOk(ns, State(cols, map[]))
  {
  }

  // A split assignment is over when its components but the last, then the last, are.
  lemma SplitRuns(ns: Names, o: Ops, st: State, s: Stmt, n: nat, fuel: nat, m: State, w: State)
    requires GroupTarget(ns, s) && ns.groups[s.target.name] != [] && !NeedsValue(ns, s.value)
    requires var g := s.target.name;
             var all := ns.groups[g];
             && ExecAll(ns, o, st, Lanes(ns, g, s.aop, s.value, false, "", all[..|all| - 1]), fuel) == Some(m)
             && Exec(ns, o, m, SAssign(EName(Flat(g, Last(ns, g))), s.aop, Suffix(ns, Last(ns, g), s.value)), fuel) == Some(w)
             && w.locals == st.locals
    ensures Exec(ns, o, st, Fan(ns, s, Tmp(n)), fuel) == Some(w)
  {
    var g, l := s.target.name, Last(ns, s.target.name);
    var all := ns.groups[g];
    FanIs(ns, s, Tmp(n), l);
    hide Suffix, NeedsValue, Eval, ExecAssign, Fan, Last, Lanes;
    ExecSnoc(ns, o, st, Lanes(ns, g, s.aop, s.value, false, "", all[..|all| - 1]), SAssign(EName(Flat(g, l)), s.aop, Suffix(ns, l, s.value)), fuel);
    assert Leave(st, w) == w;
  }

  // From g.r = 1 and g.l = 0 the whole assignment leaves g.l = 1, the fanned-out one g.l = 2.
  lemma OwnComponentDiffers(ns: Names, g: string, r: string, op: int, n: nat, fuel: nat)
    requires NamesOk(ns, g) && r in ns.groups[g] && !IsGroup(ns, r) && r != Last(ns, g)
    ensures var s := OwnComponent(g, r, op);
            var st := State(map[Flat(g, r) := 1], map[]);
            var l := Flat(g, Last(ns, g));
            && World(ns, ADDING) && StateOk(ns, st)
            && Exec(ns, ADDING, st, s, fuel).Some? && ColOf(Exec(ns, ADDING, st, s, fuel).value.cols, l) == 1
            && Exec(ns, ADDING, st, Fan(ns, s, Tmp(n)), fuel).Some?
            && ColOf(Exec(ns, ADDING, st, Fan(ns, s, Tmp(n)), fuel).value.cols, l) == 2
  {
    var st := State(map[Flat(g, r) := 1], map[]);
    AddingWorld(ns, g, st.cols);
    assert Flat(g, r) != Flat(g, Last(ns, g)) by { ApartIs(ns, g, r, Last(ns, g)); }
    OwnWhole(ns, st, g, r, op, fuel);
    OwnFanned(ns, st, g, r, op, n, fuel);
    hide NamesOk, World, StateOk, Exec, Fan, Tmp;
  }

  lemma OwnWhole(ns: Names, st: State, g: string, r: string, op: int, fuel: nat)
    requires g in ns.groups && ns.groups[g] != [] && r in ns.groups[g] && !IsGroup(ns, r)
    requires ColOf(st.cols, Flat(g, r)) == 1 && ColOf(st.cols, Flat(g, Last(ns, g))) == 0
    ensures var w := Exec(ns, ADDING, st, OwnComponent(g, r, op), fuel);
            w.Some? && ColOf(w.value.cols, Flat(g, Last(ns, g))) == 1
  {
    var v := Eval(ns, ADDING, st, OwnComponent(g, r, op).value);
    var x := Eval(ns, ADDING, st, EName(g));
    assert Eval(ns, ADDING, st, EField(EName(g), r)) == S(1);
    assert Last(ns, g) in x.lanes && x.lanes[Last(ns, g)] == 0;
    assert v == Lift2(x, S(1), (a, b) => ADDING.bin(op, a, b));
    hide Eval, Flat, WriteLanes, Last, ColOf;
    assert Lane(v, Last(ns, g)) == 1;
    WholeWrites(ns, ADDING, st, OwnComponent(g, r, op), fuel);
    WrittenLast(ns, ADDING, st, g, v);
  }

  lemma WholeWrites(ns: Names, o: Ops, st: State, s: Stmt, fuel: nat)
    requires GroupTarget(ns, s)
    ensures Exec(ns, o, st, s, fuel) ==
            Some(State(WriteLanes(o, st.cols, s.target.name, ns.groups[s.target.name], s.aop, Eval(ns, o, st, s.value)), st.locals))
  {
    hide Eval, WriteLanes;
  }

  lemma OwnFanned(ns: Names, st: State, g: string, r: string, op: int, n: nat, fuel: nat)
    requires NamesOk(ns, g) && LocalsOk(ns, st) && r in ns.groups[g] && !IsGroup(ns, r) && r != Last(ns, g)
    requires ColOf(st.cols, Flat(g, r)) == 1 && ColOf(st.cols, Flat(g, Last(ns, g))) == 0
    ensures var w := Exec(ns, ADDING, st, Fan(ns, OwnComponent(g, r, op), Tmp(n)), fuel);
            w.Some? && ColOf(w.value.cols, Flat(g, Last(ns, g))) == 2
  {
    hide FlatFresh, FlatApart, TmpsFree, LocalsOk, Suffix, Eval, Fan, Exec, Lanes, Flat, TargetOk;
    var s, all, l := OwnComponent(g, r, op), ns.groups[g], Last(ns, g);
    var k := |all| - 1;
    OwnLanes(ns, st, g, r, op, k, fuel);
    assert all[..k] + [l] == all;
    assert r in all[..k];
    var m := ExecAll(ns, ADDING, st, Lanes(ns, g, None, s.value, false, "", all[..k]), fuel).value;
    assert LocalsOk(ns, m) by { OkSame(ns, st, m); }
    OwnLane(ns, m, g, r, op, l, fuel);
    OwnSplits(ns, g, r, op);
    SplitRuns(ns, ADDING, st, s, n, fuel, m, State(m.cols[Flat(g, l) := 2], m.locals));
  }

  lemma OwnSplits(ns: Names, g: string, r: string, op: int)
    requires g in ns.groups && r in ns.groups[g] && !IsGroup(ns, r)
    ensures !NeedsValue(ns, OwnComponent(g, r, op).value)
    ensures NotEarly(ns, g, Flat(g, r)) ==> VectorOk(ns, g, OwnComponent(g, r, op).value)
  {
    var x := EField(EName(g), r);
    assert ScalarOk(ns, g, x) <==> NotEarly(ns, g, Flat(g, r));
    assert VectorOk(ns, g, EName(g));
  }

  // The block of a split assignment: all components but the last, then the last.
  lemma FanIs(ns: Names, s: Stmt, tmp: string, l: string)
    requires GroupTarget(ns, s) && ns.groups[s.target.name] != [] && l == Last(ns, s.target.name) && !NeedsValue(ns, s.value)
    ensures var g := s.target.name;
            var all := ns.groups[g];
            Fan(ns, s, tmp) == SBlock(Lanes(ns, g, s.aop, s.value, false, "", all[..|all| - 1])
                                      + [SAssign(EName(Flat(g, l)), s.aop, Suffix(ns, l, s.value))])
  {
    hide Suffix, NeedsValue;
    var g := s.target.name;
    SameLanes(ns, g, s.aop, s.value, tmp, ns.groups[g]);
  }

  lemma {:induction false} SameLanes(ns: Names, g: string, op: Option<int>, e: Expr, tmp: string, ss: seq<string>)
    ensures Lanes(ns, g, op, e, false, tmp, ss) == Lanes(ns, g, op, e, false, "", ss)
    decreases |ss|
  {
    hide Suffix;
    if ss != [] {
      SameLanes(ns, g, op, e, tmp, ss[..|ss| - 1]);
    }
  }

  // Written together, the last component gets its lane of the value.
  lemma WrittenLast(ns: Names, o: Ops, st: State, g: string, v: Val)
    requires g in ns.groups && ns.groups[g] != []
    ensures ColOf(WriteLanes(o, st.cols, g, ns.groups[g], None, v), Flat(g, Last(ns, g))) == Lane(v, Last(ns, g))
  {
  }

  // Splitting g = g op g.r is right for every choice of operations and every state if and only if r is the last
  // component: any other r has been written before the last component is computed from it.
  lemma EarlyComponentExact(ns: Names, g: string, r: string, op: int, n: nat)
    requires NamesOk(ns, g) && r in ns.groups[g] && !IsGroup(ns, r)
    ensures AlwaysRight(ns, OwnComponent(g, r, op), n) <==> r == Last(ns, g)
  {
    var s := OwnComponent(g, r, op);
    OwnSplits(ns, g, r, op);
    if r == Last(ns, g) {
      LastIsNotEarly(ns, g);
      hide World, StateOk, Fan, Exec, VectorOk, NeedsValue, TargetOk;
      forall o, st, fuel: nat | World(ns, o) && StateOk(ns, st)
        ensures FanRight(ns, o, st, s, n, fuel)
      {
        FanRuns(ns, o, st, s, n, fuel);
      }
    } else {
      hide World, StateOk, Fan, Exec;
      OwnComponentDiffers(ns, g, r, op, n, 0);
      var st := State(map[Flat(g, r) := 1], map[]);
      assert !FanRight(ns, ADDING, st, s, n, 0);
    }
  }

  // g = g.r: the component assignments all write what g.r holds, itself included.
  lemma {:induction false} SoleLanes(ns: Names, o: Ops, st: State, g: string, r: string, k: nat, fuel: nat)
    requires FlatFresh(ns) && FlatApart(ns) && LocalsOk(ns, st) && g in ns.groups && r in ns.groups[g] && !IsGroup(ns, r)
    requires k <= |ns.groups[g]|
    ensures var v := ColOf(st.cols, Flat(g, r));
            var w := WriteLanes(o, st.cols, g, ns.groups[g][..k], None, S(v));
            && ExecAll(ns, o, st, Lanes(ns, g, None, EField(EName(g), r), false, "", ns.groups[g][..k]), fuel) == Some(State(w, st.locals))
            && ColOf(w, Flat(g, r)) == v
    decreases k
  {
    hide FlatFresh, FlatApart, LocalsOk, Exec;
    var all, e, v := ns.groups[g], EField(EName(g), r), ColOf(st.cols, Flat(g, r));
    if k > 0 {
      var s := all[k - 1];
      var front := all[..k - 1];
      assert all[..k][..k - 1] == front && all[..k][k - 1] == s;
      SoleLanes(ns, o, st, g, r, k - 1, fuel);
      var w := State(WriteLanes(o, st.cols, g, front, None, S(v)), st.locals);
      OkSame(ns, st, w);
      assert Suffix(ns, s, e) == e && Eval(ns, o, w, e) == S(v);
      ColumnTarget(ns, o, w, g, s, None, e, v, fuel);
      ExecSnoc(ns, o, st, Lanes(ns, g, None, e, false, "", front), SAssign(EName(Flat(g, s)), None, e), fuel);
    }
  }

  // That a component is read after it has been written does not make the split wrong by itself: g = g.r is right for every
  // component r, with no operation between the two.
  lemma SoleComponentRight(ns: Names, g: string, r: string, n: nat)
    requires NamesOk(ns, g) && r in ns.groups[g] && !IsGroup(ns, r)
    ensures AlwaysRight(ns, SAssign(EName(g), None, EField(EName(g), r)), n)
  {
    var s := SAssign(EName(g), None, EField(EName(g), r));
    var all := ns.groups[g];
    forall o, st, fuel: nat | World(ns, o) && StateOk(ns, st)
      ensures FanRight(ns, o, st, s, n, fuel)
    {
      hide FlatFresh, FlatApart, LocalsOk, TmpsFree, ScalarCalls;
      SoleLanes(ns, o, st, g, r, |all|, fuel);
      assert all[..|all|] == all;
      SameLanes(ns, g, None, s.value, Tmp(n), all);
      var lanes := Lanes(ns, g, None, s.value, false, "", all);
      assert [] + lanes == lanes;
      assert Fan(ns, s, Tmp(n)) == SBlock(lanes);
      var w := State(WriteLanes(o, st.cols, g, all, None, S(ColOf(st.cols, Flat(g, r)))), st.locals);
      assert Leave(st, w) == w;
    }
  }

  lemma LastIsNotEarly(ns: Names, g: string)
    requires NamesOk(ns, g)
    ensures NotEarly(ns, g, Flat(g, Last(ns, g)))
  {
    forall s | s in ns.groups[g] && s != Last(ns, g)
      ensures Flat(g, Last(ns, g)) != Flat(g, s)
    {
      ApartIs(ns, g, Last(ns, g), s);
    }
  }

  lemma ApartIs(ns: Names, g: string, r: string, s: string)
    requires FlatApart(ns) && g in ns.groups && r in ns.groups[g] && s in ns.groups[g]
    ensures r != s ==> Flat(g, r) != Flat(g, s)
  {
  }

  // ---- calls on vectors ----

  // An expression with a whole group somewhere in it.
  predicate HoldsGroup(ns: Names, e: Expr) {
    match e
    case EName(x) => IsGroup(ns, x)
    case EField(_, f) => IsGroup(ns, f)
    case EIndex(b, _) => b.EField? && IsGroup(ns, b.field)
    case EBin(_, l, r) => HoldsGroup(ns, l) || HoldsGroup(ns, r)
    case EUn(_, x) => HoldsGroup(ns, x)
    case _ => false
  }

  lemma {:induction false} HoldsTuple(ns: Names, o: Ops, st: State, t: string, e: Expr)
    requires VectorOk(ns, t, e) && HoldsGroup(ns, e) && LocalsOk(ns, st)
    ensures Eval(ns, o, st, e).T?
    decreases e
  {
    match e
    case EBin(_, l, r) =>
      if HoldsGroup(ns, l) {
        HoldsTuple(ns, o, st, t, l);
      } else {
        HoldsTuple(ns, o, st, t, r);
      }
    case EUn(_, x) => HoldsTuple(ns, o, st, t, x);
    case _ =>
  }

  lemma OneArgument(ns: Names, f: string, e: Expr)
    requires f !in ns.collectives && !NeedsValue(ns, e)
    ensures NeedsValue(ns, ECall(f, [e])) <==> WholeGroupRef(ns, e)
    ensures forall s :: Suffix(ns, s, ECall(f, [e])) == ECall(f, [Suffix(ns, s, e)])
  {
    var args := [e];
    assert args[0] == e;
    forall s
      ensures Suffix(ns, s, ECall(f, [e])) == ECall(f, [Suffix(ns, s, e)])
    {
      assert SuffixAll(ns, s, args) == [Suffix(ns, s, e)];
    }
  }

  // One component of g = f(e), split: f gets a scalar.
  lemma CallLaneRuns(ns: Names, m: State, g: string, f: string, e: Expr, s: string, fuel: nat)
    requires NamesOk(ns, g) && LocalsOk(ns, m) && s in ns.groups[g] && f !in ns.collectives
    requires VectorOk(ns, g, e) && !NeedsValue(ns, e)
    ensures Exec(ns, ADDING, m, SAssign(EName(Flat(g, s)), None, Suffix(ns, s, ECall(f, [e]))), fuel)
            == Some(State(m.cols[Flat(g, s) := 2], m.locals))
  {
    hide FlatFresh, FlatApart, LocalsOk, TmpsFree, VectorOk, NeedsValue, Suffix, HasParts;
    OneArgument(ns, f, e);
    SuffixIsLane(ns, ADDING, g, s, m, m, e);
    var x := Suffix(ns, s, e);
    var vs := EvalAll(ns, ADDING, m, [x]);
    assert vs == [Eval(ns, ADDING, m, x)];
    assert !AnyTuple(vs);
    assert Eval(ns, ADDING, m, ECall(f, [x])) == S(2);
    ColumnTarget(ns, ADDING, m, g, s, None, Suffix(ns, s, ECall(f, [e])), 2, fuel);
  }

  lemma {:induction false} CallLanesRun(ns: Names, st: State, g: string, f: string, e: Expr, k: nat, fuel: nat)
    requires NamesOk(ns, g) && LocalsOk(ns, st) && k <= |ns.groups[g]| && f !in ns.collectives
    requires VectorOk(ns, g, e) && !NeedsValue(ns, e)
    ensures var m := ExecAll(ns, ADDING, st, Lanes(ns, g, None, ECall(f, [e]), false, "", ns.groups[g][..k]), fuel);
            m.Some? && m.value.locals == st.locals
    decreases k
  {
    hide FlatFresh, FlatApart, LocalsOk, TmpsFree, VectorOk, NeedsValue, Suffix;
    if k > 0 {
      CallLanesRun(ns, st, g, f, e, k - 1, fuel);
      var all := ns.groups[g];
      var s := all[k - 1];
      var front := Lanes(ns, g, None, ECall(f, [e]), false, "", all[..k - 1]);
      var m := ExecAll(ns, ADDING, st, front, fuel).value;
      assert LocalsOk(ns, m) by { OkSame(ns, st, m); }
      assert all[..k][..k - 1] == all[..k - 1] && all[..k][k - 1] == s;
      CallLaneRuns(ns, m, g, f, e, s, fuel);
      ExecSnoc(ns, ADDING, st, front, SAssign(EName(Flat(g, s)), None, Suffix(ns, s, ECall(f, [e]))), fuel);
    }
  }

  // Where a function tells a vector from a scalar, splitting g = f(e) leaves 2 in g's last component instead of 1.
  lemma VectorArgumentDiffers(ns: Names, g: string, f: string, e: Expr, n: nat, fuel: nat)
    requires NamesOk(ns, g) && f !in ns.collectives && VectorOk(ns, g, e) && !NeedsValue(ns, e) && HoldsGroup(ns, e)
    requires !WholeGroupRef(ns, e)
    ensures var s := SAssign(EName(g), None, ECall(f, [e]));
            var st := State(map[], map[]);
            var l := Flat(g, Last(ns, g));
            && World(ns, ADDING) && StateOk(ns, st)
            && Exec(ns, ADDING, st, s, fuel).Some? && ColOf(Exec(ns, ADDING, st, s, fuel).value.cols, l) == 1
            && Exec(ns, ADDING, st, Fan(ns, s, Tmp(n)), fuel).Some?
            && ColOf(Exec(ns, ADDING, st, Fan(ns, s, Tmp(n)), fuel).value.cols, l) == 2
  {
    var st := State(map[], map[]);
    AddingWorld(ns, g, st.cols);
    CallWhole(ns, st, g, f, e, fuel);
    CallFanned(ns, st, g, f, e, n, fuel);
    hide NamesOk, World, StateOk, Exec, Fan, Tmp, VectorOk, NeedsValue, HoldsGroup, WholeGroupRef;
  }

  lemma CallWhole(ns: Names, st: State, g: string, f: string, e: Expr, fuel: nat)
    requires g in ns.groups && ns.groups[g] != [] && f !in ns.collectives && VectorOk(ns, g, e) && HoldsGroup(ns, e)
    requires LocalsOk(ns, st)
    ensures var w := Exec(ns, ADDING, st, SAssign(EName(g), None, ECall(f, [e])), fuel);
            w.Some? && ColOf(w.value.cols, Flat(g, Last(ns, g))) == 1
  {
    HoldsTuple(ns, ADDING, st, g, e);
    CallOnVector(ns, st, f, e);
    WholeWrites(ns, ADDING, st, SAssign(EName(g), None, ECall(f, [e])), fuel);
    hide VectorOk, HoldsGroup, LocalsOk, WriteLanes, Eval, Exec, Last, Flat, ColOf;
    WrittenLast(ns, ADDING, st, g, S(1));
  }

  lemma CallOnVector(ns: Names, st: State, f: string, e: Expr)
    requires f !in ns.collectives && Eval(ns, ADDING, st, e).T?
    ensures Eval(ns, ADDING, st, ECall(f, [e])) == S(1)
  {
    var vs := EvalAll(ns, ADDING, st, [e]);
    assert vs[0] == Eval(ns, ADDING, st, [e][0]);
    assert vs[0].T?;
  }

  lemma CallFanned(ns: Names, st: State, g: string, f: string, e: Expr, n: nat, fuel: nat)
    requires NamesOk(ns, g) && f !in ns.collectives && VectorOk(ns, g, e) && !NeedsValue(ns, e) && !WholeGroupRef(ns, e)
    requires LocalsOk(ns, st)
    ensures var w := Exec(ns, ADDING, st, Fan(ns, SAssign(EName(g), None, ECall(f, [e])), Tmp(n)), fuel);
            w.Some? && ColOf(w.value.cols, Flat(g, Last(ns, g))) == 2
  {
    hide FlatFresh, FlatApart, TmpsFree, LocalsOk, Suffix, Eval, Fan, Exec, Lanes, Flat, TargetOk, VectorOk, NeedsValue, WholeGroupRef;
    var s, all, l := SAssign(EName(g), None, ECall(f, [e])), ns.groups[g], Last(ns, g);
    var k := |all| - 1;
    OneArgument(ns, f, e);
    CallLanesRun(ns, st, g, f, e, k, fuel);
    var m := ExecAll(ns, ADDING, st, Lanes(ns, g, None, s.value, false, "", all[..k]), fuel).value;
    assert LocalsOk(ns, m) by { OkSame(ns, st, m); }
    CallLaneRuns(ns, m, g, f, e, l, fuel);
    SplitRuns(ns, ADDING, st, s, n, fuel, m, State(m.cols[Flat(g, l) := 2], m.locals));
  }

  // For every vector e without locals or self reads: g = f(e) is split if and only if e is no bare group, and the
  // fan-out is right for every choice of operations and every state if and only if it is one.
  lemma VectorArgumentExact(ns: Names, g: string, f: string, e: Expr, n: nat)
    requires NamesOk(ns, g) && f !in ns.collectives && VectorOk(ns, g, e) && !NeedsValue(ns, e) && HoldsGroup(ns, e)
    ensures !NeedsValue(ns, ECall(f, [e])) <==> !WholeGroupRef(ns, e)
    ensures AlwaysRight(ns, SAssign(EName(g), None, ECall(f, [e])), n) <==> WholeGroupRef(ns, e)
  {
    var s := SAssign(EName(g), None, ECall(f, [e]));
    OneArgument(ns, f, e);
    hide World, StateOk, Fan, Exec, NeedsValue, VectorOk, WholeGroupRef;
    if WholeGroupRef(ns, e) {
      forall o, st, fuel: nat | World(ns, o) && StateOk(ns, st)
        ensures FanRight(ns, o, st, s, n, fuel)
      {
        FanRuns(ns, o, st, s, n, fuel);
      }
    } else {
      VectorArgumentDiffers(ns, g, f, e, n, 0);
      var st := State(map[], map[]);
      assert !FanRight(ns, ADDING, st, s, n, 0);
    }
  }
}

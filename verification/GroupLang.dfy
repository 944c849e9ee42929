// The part of the HIR that whole-group assignments live in, and its meaning: a tuple group is a vector of flattened
// columns, and assigning to it evaluates the right-hand side once and writes all components together.
module GroupLang {
  import opened Bytes

  // A scalar, or a tuple by component name.
  datatype Val = S(n: int) | T(lanes: map<string, int>)

  // `ESelf` is a read of this element's own column, however the name is used around it.
  datatype Expr =
    | ELit(n: int)
    | EName(name: string)
    | ESelf(name: string)
    | EField(base: Expr, field: string)
    | EIndex(base: Expr, index: Expr)
    | EBin(op: int, left: Expr, right: Expr)
    | EUn(op: int, operand: Expr)
    | ECall(fn: string, args: seq<Expr>)

  datatype Stmt =
    | SAssign(target: Expr, aop: Option<int>, value: Expr)
    | SBind(name: string, value: Expr)
    | SIf(cond: Expr, thn: seq<Stmt>, els: seq<Stmt>)
    | SFor(init: seq<Stmt>, test: Expr, incr: seq<Stmt>, body: seq<Stmt>)
    | SBlock(stmts: seq<Stmt>)
    | SEach(inner: seq<Stmt>)
    | SOther(kind: int)

  // The tuple groups with their component names, the constants, the functions that fold over a column, the pools.
  datatype Names = Names(groups: map<string, seq<string>>, consts: map<string, int>, collectives: set<string>, pools: set<string>)

  // What the operations compute is left open: scalar operators, pure functions, folds over columns, reads of other
  // pools, rows of a nested map, and everything else a statement may do.
  datatype Ops = Ops(
    bin: (int, int, int) -> int,
    un: (int, int) -> int,
    call: (string, seq<Val>) -> Val,
    fold: (string, seq<int>) -> int,
    pool: (string, string, Option<int>, int) -> int,
    rows: nat,
    enter: (nat, map<string, int>) -> map<string, int>,
    leave: (nat, map<string, int>, map<string, int>) -> map<string, int>,
    store: (Expr, map<string, int>, Val) -> map<string, int>,
    other: (int, map<string, int>) -> map<string, int>)

  datatype State = State(cols: map<string, int>, locals: map<string, Val>)

  function Flat(g: string, s: string): string { g + "_" + s }

  function ColOf(cols: map<string, int>, c: string): int { if c in cols then cols[c] else 0 }

  function Lane(v: Val, s: string): int { if v.S? then v.n else if s in v.lanes then v.lanes[s] else 0 }

  function IntOf(v: Val): int { if v.S? then v.n else 0 }

  predicate IsGroup(ns: Names, x: string) { x in ns.groups }

  // A tuple with a component for each suffix.
  function Tuple(ss: seq<string>, f: string -> int): Val { T(map s | s in ss :: f(s)) }

  // ---- expressions ----

  // Component by component; a scalar counts for every component.
  function Lift2(a: Val, b: Val, f: (int, int) -> int): Val {
    if a.S? && b.S? then S(f(a.n, b.n))
    else T(map s | s in (if a.T? then a.lanes else b.lanes) :: f(Lane(a, s), Lane(b, s)))
  }

  function Lift1(a: Val, f: int -> int): Val {
    if a.S? then S(f(a.n)) else T(map s | s in a.lanes :: f(a.lanes[s]))
  }

  predicate AnyTuple(vs: seq<Val>) { exists i :: 0 <= i < |vs| && vs[i].T? }

  function LanesOf(vs: seq<Val>, s: string): seq<int> { seq(|vs|, i requires 0 <= i < |vs| => Lane(vs[i], s)) }

  function FirstTuple(vs: seq<Val>): map<string, int> {
    if vs == [] then map[] else if vs[0].T? then vs[0].lanes else FirstTuple(vs[1..])
  }

  function FoldLanes(o: Ops, fn: string, vs: seq<Val>): Val {
    if AnyTuple(vs) then T(map s | s in FirstTuple(vs) :: o.fold(fn, LanesOf(vs, s))) else S(o.fold(fn, LanesOf(vs, "")))
  }

  // A column of another pool, whole or at an index; it may be the storage of one of this kernel's columns.
  function PoolCol(o: Ops, cols: map<string, int>, p: string, c: string, at: Option<int>): int { o.pool(p, c, at, ColOf(cols, c)) }

  function PoolVal(ns: Names, o: Ops, cols: map<string, int>, p: string, f: string, at: Option<int>): Val {
    if IsGroup(ns, f) then Tuple(ns.groups[f], s => PoolCol(o, cols, p, Flat(f, s), at))
    else S(PoolCol(o, cols, p, f, at))
  }

  function Eval(ns: Names, o: Ops, st: State, e: Expr): Val
    decreases e, 0
  {
    match e
    case ELit(n) => S(n)
    case EName(x) =>
      if IsGroup(ns, x) then Tuple(ns.groups[x], s => ColOf(st.cols, Flat(x, s)))
      else if x in ns.consts then S(ns.consts[x])
      else if x in st.locals then st.locals[x]
      else S(ColOf(st.cols, x))
    case ESelf(x) =>
      if IsGroup(ns, x) then Tuple(ns.groups[x], s => ColOf(st.cols, Flat(x, s))) else S(ColOf(st.cols, x))
    case EField(base, f) =>
      (match base
       case EName(b) =>
         if IsGroup(ns, b) then S(ColOf(st.cols, Flat(b, f)))
         else if b in st.locals then S(Lane(st.locals[b], f))
         else PoolVal(ns, o, st.cols, b, f, None)
       case _ => S(Lane(Eval(ns, o, st, base), f)))
    case EIndex(base, i) =>
      if base.EField? && base.base.EName?
      then PoolVal(ns, o, st.cols, base.base.name, base.field, Some(IntOf(Eval(ns, o, st, i))))
      else S(0)
    case EBin(op, l, r) => Lift2(Eval(ns, o, st, l), Eval(ns, o, st, r), (a, b) => o.bin(op, a, b))
    case EUn(op, x) => Lift1(Eval(ns, o, st, x), a => o.un(op, a))
    case ECall(fn, args) =>
      var vs := EvalAll(ns, o, st, args);
      if fn in ns.collectives then FoldLanes(o, fn, vs) else o.call(fn, vs)
  }

  function EvalAll(ns: Names, o: Ops, st: State, es: seq<Expr>): (r: seq<Val>)
    ensures |r| == |es|
    ensures forall i :: 0 <= i < |es| ==> r[i] == Eval(ns, o, st, es[i])
    decreases es, 1
  {
    seq(|es|, i requires 0 <= i < |es| => Eval(ns, o, st, es[i]))
  }

  // ---- statements ----

  function Updated(o: Ops, op: Option<int>, old_: int, v: int): int { if op.Some? then o.bin(op.value, old_, v) else v }

  // All components, computed from the columns as they were.
  function WriteLanes(o: Ops, cols: map<string, int>, g: string, ss: seq<string>, op: Option<int>, v: Val): map<string, int> {
    if ss == [] then cols
    else
      var s := ss[|ss| - 1];
      WriteLanes(o, cols, g, ss[..|ss| - 1], op, v)[Flat(g, s) := Updated(o, op, ColOf(cols, Flat(g, s)), Lane(v, s))]
  }

  function ExecAssign(ns: Names, o: Ops, st: State, target: Expr, op: Option<int>, v: Val): State {
    match target
    case EName(x) =>
      if IsGroup(ns, x) then State(WriteLanes(o, st.cols, x, ns.groups[x], op, v), st.locals)
      else if x in st.locals then
        State(st.cols, st.locals[x := if op.Some? then Lift2(st.locals[x], v, (a, b) => o.bin(op.value, a, b)) else v])
      else State(st.cols[x := Updated(o, op, ColOf(st.cols, x), IntOf(v))], st.locals)
    case _ => State(o.store(target, st.cols, v), st.locals)
  }

  // Leaving a block: what it bound is gone.
  function Leave(outer: State, st: State): State {
    State(st.cols, map x | x in st.locals && x in outer.locals :: st.locals[x])
  }

  function LeaveOpt(outer: State, r: Option<State>): Option<State> {
    match r case None => None case Some(st) => Some(Leave(outer, st))
  }

  // None: a loop has run out of fuel.
  function Exec(ns: Names, o: Ops, st: State, s: Stmt, fuel: nat): Option<State>
    decreases fuel, s, 1
  {
    match s
    case SAssign(t, op, e) => Some(ExecAssign(ns, o, st, t, op, Eval(ns, o, st, e)))
    case SBind(x, e) => Some(State(st.cols, st.locals[x := Eval(ns, o, st, e)]))
    case SIf(c, t, e) =>
      if IntOf(Eval(ns, o, st, c)) != 0 then LeaveOpt(st, ExecAll(ns, o, st, t, fuel)) else LeaveOpt(st, ExecAll(ns, o, st, e, fuel))
    case SFor(init, test, incr, body) =>
      (match ExecAll(ns, o, st, init, fuel)
       case None => None
       case Some(s1) => LeaveOpt(st, Loop(ns, o, s1, test, incr, body, fuel)))
    case SBlock(ss) => LeaveOpt(st, ExecAll(ns, o, st, ss, fuel))
    case SEach(ss) => EachRow(ns, o, st, ss, o.rows, fuel)
    case SOther(k) => Some(State(o.other(k, st.cols), st.locals))
  }

  function Loop(ns: Names, o: Ops, st: State, test: Expr, incr: seq<Stmt>, body: seq<Stmt>, fuel: nat): Option<State>
    decreases fuel, body, 0
  {
    if fuel == 0 then None
    else if IntOf(Eval(ns, o, st, test)) == 0 then Some(st)
    else match LeaveOpt(st, ExecAll(ns, o, st, body, fuel - 1))
      case None => None
      case Some(s1) =>
        match LeaveOpt(s1, ExecAll(ns, o, s1, incr, fuel - 1))
        case None => None
        case Some(s2) => Loop(ns, o, s2, test, incr, body, fuel - 1)
  }

  // A nested map runs its body on each of its rows.
  function EachRow(ns: Names, o: Ops, st: State, ss: seq<Stmt>, n: nat, fuel: nat): Option<State>
    decreases fuel, ss, 2, n
  {
    if n == 0 then Some(st)
    else match EachRow(ns, o, st, ss, n - 1, fuel)
      case None => None
      case Some(s1) =>
        match ExecAll(ns, o, State(o.enter(n - 1, s1.cols), s1.locals), ss, fuel)
        case None => None
        case Some(s2) => Some(Leave(s1, State(o.leave(n - 1, s1.cols, s2.cols), s2.locals)))
  }

  function ExecAll(ns: Names, o: Ops, st: State, ss: seq<Stmt>, fuel: nat): Option<State>
    decreases fuel, ss, 0
  {
    if ss == [] then Some(st)
    else match Exec(ns, o, st, ss[0], fuel) case None => None case Some(r) => ExecAll(ns, o, r, ss[1..], fuel)
  }
}

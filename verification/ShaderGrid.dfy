// A dispatch of the shader over its grid: enough groups of 64 invocations for the rows, their statements interleaved
// in any order, against the CPU's loop over the rows.
module ShaderGrid {
  import opened Bytes
  import opened ShaderLang
  import opened ShaderFits
  import opened ShaderLower
  import opened ShaderMeans
  import opened ShaderSafe

  // Columns of equal length.
  type Memory = map<string, seq<V>>

  predicate Rows(m: Memory, n: nat) { forall c :: c in m ==> |m[c]| == n }

  function RowAt(m: Memory, i: nat): Row
    requires exists n :: i < n && Rows(m, n)
  {
    map c | c in m && i < |m[c]| :: m[c][i]
  }

  // Row i replaced, column by column.
  function PutRow(m: Memory, n: nat, i: nat, row: Row): (r: Memory)
    requires Rows(m, n) && i < n
    ensures Rows(r, n) && r.Keys == m.Keys
  {
    map c | c in m :: if c in row then m[c][i := row[c]] else m[c]
  }

  lemma RowKeys(m: Memory, n: nat, i: nat)
    requires Rows(m, n) && i < n
    ensures RowAt(m, i).Keys == m.Keys
  {
  }

  lemma PutRowAt(m: Memory, n: nat, i: nat, row: Row, j: nat)
    requires Rows(m, n) && i < n && j < n && row.Keys == m.Keys
    ensures RowAt(PutRow(m, n, i, row), j) == if j == i then row else RowAt(m, j)
  {
  }

  lemma RowsDecide(a: Memory, b: Memory, n: nat)
    requires Rows(a, n) && Rows(b, n) && a.Keys == b.Keys
    requires forall i :: 0 <= i < n ==> RowAt(a, i) == RowAt(b, i)
    ensures a == b
  {
    forall c | c in a
      ensures a[c] == b[c]
    {
      forall i | 0 <= i < n
        ensures a[c][i] == b[c][i]
      {
        assert RowAt(a, i)[c] == RowAt(b, i)[c];
      }
    }
  }

  // ---- the grid ----

  const U32: nat := 0x1_0000_0000

  // (count + 63) / 64 in 32-bit arithmetic.
  function Groups(count: nat): nat { ((count + 63) % U32) / 64 }

  // Every row has an invocation if and only if the sum does not wrap around.
  lemma GridCovers(count: nat)
    requires 0 < count < U32
    ensures count <= 64 * Groups(count) <==> count <= U32 - 64
    ensures 64 * Groups(count) <= U32
  {
  }

  // ---- the CPU's loop ----

  function CpuLoop(k: Kernel, d: Driver, m: Memory, n: nat, ss: seq<KStmt>, rows: nat): (r: Option<Memory>)
    requires Rows(m, n) && rows <= n
    ensures r.Some? ==> Rows(r.value, n) && r.value.Keys == m.Keys
  {
    if rows == 0 then Some(m)
    else match CpuLoop(k, d, m, n, ss, rows - 1)
      case None => None
      case Some(p) =>
        match ExecAll(k, d, Start(RowAt(p, rows - 1)), ss)
        case None => None
        case Some(f) => Some(PutRow(p, n, rows - 1, f.row))
  }

  // Row i of a memory, spelled out.
  function Across(m: Memory, i: nat): Row { map c | c in m && i < |m[c]| :: m[c][i] }

  lemma OtherSame(m: Memory, n: nat, i: nat, row: Row, j: nat)
    requires Rows(m, n) && i < n && j < n && j != i
    ensures RowSame(m, PutRow(m, n, i, row), j)
  {
  }

  // Row i of r is what the body makes of row i of m.
  ghost predicate RowDone(k: Kernel, d: Driver, m: Memory, ss: seq<KStmt>, r: Memory, i: nat) {
    var f := ExecAll(k, d, Start(Across(m, i)), ss);
    f.Some? && forall c :: c in m ==> c in f.value.row && c in r && i < |r[c]| && r[c][i] == f.value.row[c]
  }

  // The same row i in both.
  predicate RowSame(m: Memory, r: Memory, i: nat) {
    m.Keys == r.Keys && forall c :: c in m ==> i < |m[c]| && i < |r[c]| && r[c][i] == m[c][i]
  }

  lemma DoneStays(k: Kernel, d: Driver, m: Memory, ss: seq<KStmt>, p: Memory, r: Memory, i: nat)
    requires RowDone(k, d, m, ss, p, i) && RowSame(p, r, i)
    ensures RowDone(k, d, m, ss, r, i)
  {
    hide ExecAll, Across;
  }

  lemma SameStays(m: Memory, p: Memory, r: Memory, i: nat)
    requires RowSame(m, p, i) && RowSame(p, r, i)
    ensures RowSame(m, r, i)
  {
  }

  lemma DoneNow(k: Kernel, d: Driver, m: Memory, ss: seq<KStmt>, p: Memory, n: nat, i: nat)
    requires Rows(p, n) && i < n && RowSame(m, p, i)
    requires var f := ExecAll(k, d, Start(RowAt(p, i)), ss); f.Some? && f.value.row.Keys == p.Keys
    ensures RowDone(k, d, m, ss, PutRow(p, n, i, ExecAll(k, d, Start(RowAt(p, i)), ss).value.row), i)
  {
    hide ExecAll;
    assert RowAt(p, i) == Across(m, i);
  }

  // The last row reached is put into what the loop over the rows before it leaves.
  lemma LoopStep(k: Kernel, d: Driver, m: Memory, n: nat, ss: seq<KStmt>, rows: nat)
    requires Rows(m, n) && 0 < rows <= n && CpuLoop(k, d, m, n, ss, rows).Some?
    ensures CpuLoop(k, d, m, n, ss, rows - 1).Some?
    ensures var p := CpuLoop(k, d, m, n, ss, rows - 1).value;
            var f := ExecAll(k, d, Start(RowAt(p, rows - 1)), ss);
            && p.Keys == m.Keys && f.Some? && f.value.row.Keys == p.Keys
            && CpuLoop(k, d, m, n, ss, rows).value == PutRow(p, n, rows - 1, f.value.row)
  {
    hide ExecAll;
    var p := CpuLoop(k, d, m, n, ss, rows - 1).value;
    RowKeysKeptAll(k, d, Start(RowAt(p, rows - 1)), ss);
  }

  // For every loop that runs to its end: row i of the result is what the body makes of row i, and of no other; the rows not
  // reached are as they were.
  lemma {:induction false} LoopExact(k: Kernel, d: Driver, m: Memory, n: nat, ss: seq<KStmt>, rows: nat, i: nat)
    requires Rows(m, n) && i < n && rows <= n && CpuLoop(k, d, m, n, ss, rows).Some?
    ensures var r := CpuLoop(k, d, m, n, ss, rows).value; if i < rows then RowDone(k, d, m, ss, r, i) else RowSame(m, r, i)
    decreases rows
  {
    hide ExecAll, RowDone;
    if rows > 0 {
      LoopStep(k, d, m, n, ss, rows);
      LoopExact(k, d, m, n, ss, rows - 1, i);
      var p := CpuLoop(k, d, m, n, ss, rows - 1).value;
      var f := ExecAll(k, d, Start(RowAt(p, rows - 1)), ss).value;
      hide CpuLoop, RowAt, RowSame;
      if i == rows - 1 {
        DoneNow(k, d, m, ss, p, n, i);
      } else {
        OtherSame(p, n, rows - 1, f.row, i);
        hide PutRow;
        if i < rows {
          DoneStays(k, d, m, ss, p, PutRow(p, n, rows - 1, f.row), i);
        } else {
          SameStays(m, p, PutRow(p, n, rows - 1, f.row), i);
        }
      }
    }
  }

  lemma {:induction false} RowKeysKept(k: Kernel, d: Driver, f: Frame, s: KStmt)
    requires Exec(k, d, f, s).Some?
    ensures Exec(k, d, f, s).value.row.Keys == f.row.Keys
    decreases s, 0
  {
    match s
    case KBlock(ss) => RowKeysKeptAll(k, d, f, ss);
    case KIf(c, t, e) =>
      if ExecAll(k, d, f, t).Some? {
        RowKeysKeptAll(k, d, f, t);
      }
      if ExecAll(k, d, f, e).Some? {
        RowKeysKeptAll(k, d, f, e);
      }
    case _ =>
  }

  lemma {:induction false} RowKeysKeptAll(k: Kernel, d: Driver, f: Frame, ss: seq<KStmt>)
    requires ExecAll(k, d, f, ss).Some?
    ensures ExecAll(k, d, f, ss).value.row.Keys == f.row.Keys
    decreases ss, 0
  {
    if ss != [] {
      RowKeysKept(k, d, f, ss[0]);
      RowKeysKeptAll(k, d, Exec(k, d, f, ss[0]).value, ss[1..]);
    }
  }

  // The loop runs the body once on every row's own data.
  lemma {:induction false} CpuRow(k: Kernel, d: Driver, m: Memory, n: nat, ss: seq<KStmt>, rows: nat, j: nat)
    requires Rows(m, n) && rows <= n && j < n && CpuLoop(k, d, m, n, ss, rows).Some?
    ensures var r := CpuLoop(k, d, m, n, ss, rows).value;
            var f := ExecAll(k, d, Start(RowAt(m, j)), ss);
            if j < rows then f.Some? && RowAt(r, j) == f.value.row else RowAt(r, j) == RowAt(m, j)
    decreases rows
  {
    hide ExecAll, RowAt, PutRow, Rows;
    if rows > 0 {
      var p := CpuLoop(k, d, m, n, ss, rows - 1).value;
      var f := ExecAll(k, d, Start(RowAt(p, rows - 1)), ss).value;
      CpuRow(k, d, m, n, ss, rows - 1, j);
      CpuRow(k, d, m, n, ss, rows - 1, rows - 1);
      RowKeys(p, n, rows - 1);
      RowKeysKeptAll(k, d, Start(RowAt(p, rows - 1)), ss);
      assert f.row.Keys == p.Keys;
      PutRowAt(p, n, rows - 1, f.row, j);
    }
  }

  // ---- invocations ----

  // What an invocation has still to do, and its variables.
  datatype Thread = Thread(code: seq<GStmt>, vars: Scope)

  datatype Grid = Grid(mem: Memory, threads: seq<Thread>)

  // Invocations at or beyond count return at once.
  function Begin(m: Memory, code: seq<GStmt>, count: nat): Grid {
    Grid(m, seq(64 * Groups(count), i => Thread(if i < count then code else [], map[])))
  }

  // Invocation i does its next statement on its own row; None if the statement is undefined there.
  function Step(kind: Kind, d: Driver, n: nat, s: Grid, i: nat): Option<Grid>
    requires Rows(s.mem, n) && i < |s.threads|
  {
    var t := s.threads[i];
    if t.code == [] then Some(s)
    else if i >= n then None
    else match GExec(kind, d, Effect(RowAt(s.mem, i), t.vars), t.code[0])
      case None => None
      case Some(f) => Some(Grid(PutRow(s.mem, n, i, f.row), s.threads[i := Thread(t.code[1..], f.locals)]))
  }

  // A schedule names the invocation that moves next, again and again.
  function Run(kind: Kind, d: Driver, n: nat, s: Grid, schedule: seq<nat>): Option<Grid>
    requires Rows(s.mem, n) && forall i :: 0 <= i < |schedule| ==> schedule[i] < |s.threads|
    decreases |schedule|
  {
    if schedule == [] then Some(s)
    else match Step(kind, d, n, s, schedule[0])
      case None => None
      case Some(t) => Run(kind, d, n, t, schedule[1..])
  }

  predicate Finished(s: Grid) { forall i :: 0 <= i < |s.threads| ==> s.threads[i].code == [] }

  lemma {:induction false} GRowKeys(kind: Kind, d: Driver, f: Effect, s: GStmt)
    requires GExec(kind, d, f, s).Some?
    ensures GExec(kind, d, f, s).value.row.Keys == f.row.Keys
    decreases s, 0
  {
    match s
    case GIf(c, t, _, e) =>
      if GExecAll(kind, d, f, t).Some? {
        GRowKeysAll(kind, d, f, t);
      }
      if GExecAll(kind, d, f, e).Some? {
        GRowKeysAll(kind, d, f, e);
      }
    case _ =>
  }

  lemma {:induction false} GRowKeysAll(kind: Kind, d: Driver, f: Effect, ss: seq<GStmt>)
    requires GExecAll(kind, d, f, ss).Some?
    ensures GExecAll(kind, d, f, ss).value.row.Keys == f.row.Keys
    decreases ss, 0
  {
    if ss != [] {
      GRowKeys(kind, d, f, ss[0]);
      GRowKeysAll(kind, d, GExec(kind, d, f, ss[0]).value, ss[1..]);
    }
  }

  // Every row, finished or not, is on its way to its result.
  ghost predicate OnTheWay(kind: Kind, d: Driver, n: nat, count: nat, s: Grid, goal: Memory) {
    && count <= n && count <= |s.threads| && Rows(s.mem, n) && Rows(goal, n) && s.mem.Keys == goal.Keys
    && (forall i :: 0 <= i < |s.threads| && i >= count ==> s.threads[i].code == [])
    && (forall i :: 0 <= i < count ==> Arrives(kind, d, n, s, i, goal))
    && (forall i :: count <= i < n ==> RowAt(s.mem, i) == RowAt(goal, i))
  }

  ghost predicate Arrives(kind: Kind, d: Driver, n: nat, s: Grid, i: nat, goal: Memory)
    requires Rows(s.mem, n) && Rows(goal, n) && i < n && i < |s.threads|
  {
    var r := GExecAll(kind, d, Effect(RowAt(s.mem, i), s.threads[i].vars), s.threads[i].code);
    r.Some? && r.value.row == RowAt(goal, i)
  }

  lemma StepArrives(kind: Kind, d: Driver, n: nat, count: nat, s: Grid, i: nat, goal: Memory)
    requires OnTheWay(kind, d, n, count, s, goal) && i < |s.threads|
    ensures Step(kind, d, n, s, i).Some? && |Step(kind, d, n, s, i).value.threads| == |s.threads|
    ensures OnTheWay(kind, d, n, count, Step(kind, d, n, s, i).value, goal)
  {
    var t := s.threads[i];
    if t.code != [] {
      var f0 := Effect(RowAt(s.mem, i), t.vars);
      assert Arrives(kind, d, n, s, i, goal);
      var f := GExec(kind, d, f0, t.code[0]).value;
      GRowKeys(kind, d, f0, t.code[0]);
      assert f.row.Keys == s.mem.Keys;
      var s' := Step(kind, d, n, s, i).value;
      forall j | 0 <= j < n
        ensures RowAt(s'.mem, j) == if j == i then f.row else RowAt(s.mem, j)
      {
        PutRowAt(s.mem, n, i, f.row, j);
      }
      forall j | 0 <= j < count
        ensures Arrives(kind, d, n, s', j, goal)
      {
        assert Arrives(kind, d, n, s, j, goal);
      }
    }
  }

  lemma {:induction false} RunArrives(kind: Kind, d: Driver, n: nat, count: nat, s: Grid, schedule: seq<nat>, goal: Memory)
    requires OnTheWay(kind, d, n, count, s, goal) && forall i :: 0 <= i < |schedule| ==> schedule[i] < |s.threads|
    ensures Run(kind, d, n, s, schedule).Some? && OnTheWay(kind, d, n, count, Run(kind, d, n, s, schedule).value, goal)
    decreases |schedule|
  {
    hide OnTheWay, Step;
    WayRows(kind, d, n, count, s, goal);
    if schedule != [] {
      StepArrives(kind, d, n, count, s, schedule[0], goal);
      WayRows(kind, d, n, count, Step(kind, d, n, s, schedule[0]).value, goal);
      RunArrives(kind, d, n, count, Step(kind, d, n, s, schedule[0]).value, schedule[1..], goal);
    }
  }

  lemma WayRows(kind: Kind, d: Driver, n: nat, count: nat, s: Grid, goal: Memory)
    requires OnTheWay(kind, d, n, count, s, goal)
    ensures Rows(s.mem, n)
  {
  }

  lemma FinishedIsGoal(kind: Kind, d: Driver, n: nat, count: nat, s: Grid, goal: Memory)
    requires OnTheWay(kind, d, n, count, s, goal) && Finished(s)
    ensures s.mem == goal
  {
    forall i | 0 <= i < n
      ensures RowAt(s.mem, i) == RowAt(goal, i)
    {
      if i < count {
        assert Arrives(kind, d, n, s, i, goal);
      }
    }
    RowsDecide(s.mem, goal, n);
  }

  // ---- the shader is the loop ----

  // A body whose names and literals mean the same in both languages, whose operations are safe, and whose shader compiles.
  ghost predicate Faithful(k: Kernel, d: Driver, ss: seq<KStmt>) {
    && DriverOk(d) && PlainConsts(k) && (forall i :: 0 <= i < |ss| ==> PlainStmt(k, ss[i]))
    && (k.fused <==> FlatBody(ss)) && Safe(k, ss)
    && LowerStmts(k, [], ss).Some?
    && BoundOnce(LowerStmts(k, [], ss).value.names)
    && Compiles(k.kind, LowerStmts(k, [], ss).value.code)
  }

  lemma RowShader(k: Kernel, d: Driver, ss: seq<KStmt>, row: Row)
    requires Faithful(k, d, ss) && RowHolds(k.kind, row) && ExecAll(k, d, Start(row), ss).Some?
    ensures var r := GExecAll(k.kind, d, Effect(row, map[]), LowerStmts(k, [], ss).value.code);
            r.Some? && r.value.row == ExecAll(k, d, Start(row), ss).value.row
  {
    hide DriverOk, PlainConsts, PlainStmt, Safe, RowHolds;
    SafeFits(k, d, ss, row);
    RunExact(k, d, [], Start(row), Effect(row, map[]), ss, {}, {});
  }

  lemma Lowers(k: Kernel, d: Driver, ss: seq<KStmt>)
    requires Faithful(k, d, ss)
    ensures LowerStmts(k, [], ss).Some?
  {
  }

  // Columns hold numbers of the element type.
  predicate Typed(kind: Kind, m: Memory) { forall c :: c in m ==> forall i :: 0 <= i < |m[c]| ==> InColumn(kind, m[c][i]) }

  lemma TypedRow(kind: Kind, m: Memory, n: nat, i: nat)
    requires Rows(m, n) && i < n && Typed(kind, m)
    ensures RowHolds(kind, RowAt(m, i))
  {
  }

  // Code that leaves a row as the body does, wherever the body is defined.
  ghost predicate RowLike(k: Kernel, d: Driver, ss: seq<KStmt>, code: seq<GStmt>, row: Row) {
    var f, g := ExecAll(k, d, Start(row), ss), GExecAll(k.kind, d, Effect(row, map[]), code);
    RowHolds(k.kind, row) && f.Some? ==> g.Some? && g.value.row == f.value.row
  }

  ghost predicate RowsLike(k: Kernel, d: Driver, ss: seq<KStmt>, code: seq<GStmt>) {
    forall row :: RowLike(k, d, ss, code, row)
  }

  lemma CodeIsLoop(k: Kernel, d: Driver, ss: seq<KStmt>, code: seq<GStmt>, m: Memory, n: nat, count: nat, schedule: seq<nat>)
    requires RowsLike(k, d, ss, code) && Rows(m, n) && Typed(k.kind, m) && 0 < count <= n && count <= U32 - 64
    requires CpuLoop(k, d, m, n, ss, count).Some?
    requires forall i :: 0 <= i < |schedule| ==> schedule[i] < 64 * Groups(count)
    ensures var r := Run(k.kind, d, n, Begin(m, code, count), schedule);
            r.Some? && (Finished(r.value) ==> r.value.mem == CpuLoop(k, d, m, n, ss, count).value)
  {
    var goal := CpuLoop(k, d, m, n, ss, count).value;
    var s := Begin(m, code, count);
    GridCovers(count);
    forall i | 0 <= i < n
      ensures i < count ==> Arrives(k.kind, d, n, s, i, goal)
      ensures i >= count ==> RowAt(s.mem, i) == RowAt(goal, i)
    {
      CpuRow(k, d, m, n, ss, count, i);
      TypedRow(k.kind, m, n, i);
      assert RowLike(k, d, ss, code, RowAt(m, i));
    }
    RunArrives(k.kind, d, n, count, s, schedule, goal);
    var r := Run(k.kind, d, n, s, schedule).value;
    if Finished(r) {
      FinishedIsGoal(k.kind, d, n, count, r, goal);
    }
  }

  // For every column length and every count up to 2^32 - 64: whatever the order in which the invocations' statements
  // run, once all have finished the columns hold what the CPU's loop over the first `count` rows leaves, and no
  // statement meets an undefined operation on the way.
  lemma GridIsLoop(k: Kernel, d: Driver, ss: seq<KStmt>, m: Memory, n: nat, count: nat, schedule: seq<nat>)
    requires Faithful(k, d, ss) && Rows(m, n) && Typed(k.kind, m) && 0 < count <= n && count <= U32 - 64
    requires CpuLoop(k, d, m, n, ss, count).Some?
    requires forall i :: 0 <= i < |schedule| ==> schedule[i] < 64 * Groups(count)
    ensures var r := Run(k.kind, d, n, Begin(m, LowerStmts(k, [], ss).value.code, count), schedule);
            r.Some? && (Finished(r.value) ==> r.value.mem == CpuLoop(k, d, m, n, ss, count).value)
  {
    hide Faithful, ExecAll, GExecAll, LowerStmts, CpuLoop, Run, Groups;
    Lowers(k, d, ss);
    var code := LowerStmts(k, [], ss).value.code;
    forall row
      ensures RowLike(k, d, ss, code, row)
    {
      if RowHolds(k.kind, row) && ExecAll(k, d, Start(row), ss).Some? {
        RowShader(k, d, ss, row);
      }
    }
    CodeIsLoop(k, d, ss, code, m, n, count, schedule);
  }
}

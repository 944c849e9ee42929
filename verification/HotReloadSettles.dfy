// Once the edits stop: whatever the order in which the watcher's and the host's steps follow each other, the watcher
// comes to rest on the last edit and the host runs it. And exactly when an accident prevents that.
module HotReloadSettles {
  import opened Bytes
  import opened HotReload

  // ---- continuations without an edit, in which the watcher's steps succeed ----

  // What the watcher does next when everything it tries succeeds.
  function Next(t: Tool, s: State): Act {
    match s.w
    case Waiting => Poll
    case Sampled(_) => ReadSources
    case Checking(_, _, u) => if u == t.units then EndPass else CheckUnit(true)
    case Linking(_, _, _, _) => FinishLink(true)
    case Publishing(_, _, _, _) => Rename
    case Recording(_, _, _) => Record(true)
  }

  predicate HostAct(a: Act) { a.Stat? || a.Open? || a.DlOpen? }

  predicate Goes(t: Tool, s: State, a: Act) {
    Apply(t, s, a).Some? && (a == Next(t, s) || HostAct(a))
  }

  predicate Quiet(t: Tool, s: State, acts: seq<Act>)
    decreases |acts|
  {
    acts == [] || (Goes(t, s, acts[0]) && Quiet(t, Apply(t, s, acts[0]).value, acts[1..]))
  }

  // Where it leads.
  function After(t: Tool, s: State, acts: seq<Act>): State
    requires Quiet(t, s, acts)
    decreases |acts|
  {
    if acts == [] then s else After(t, Apply(t, s, acts[0]).value, acts[1..])
  }

  function WatcherSteps(acts: seq<Act>): nat {
    if acts == [] then 0 else (if HostAct(acts[0]) then 0 else 1) + WatcherSteps(acts[1..])
  }

  predicate ActsOn(a: Act, u: nat) { HostAct(a) && a.u == u }

  function HostSteps(acts: seq<Act>, u: nat): nat {
    if acts == [] then 0 else (if ActsOn(acts[0], u) then 1 else 0) + HostSteps(acts[1..], u)
  }

  lemma {:induction false} AfterIsRun(t: Tool, s: State, acts: seq<Act>)
    requires Quiet(t, s, acts)
    ensures Run(t, s, acts) == Some(After(t, s, acts))
    decreases |acts|
  {
    hide Apply;
    if acts != [] {
      AfterIsRun(t, Apply(t, s, acts[0]).value, acts[1..]);
    }
  }

  // ---- sidecars that do not mislead the next pass ----

  // Unit v's recorded hash is that of its new code only if that code is published.
  predicate Honest(t: Tool, s: State, v: nat)
    requires v < |s.path| && v < |s.side|
  {
    s.path[v].Some? && t.code(s.src, v).Some? && s.side[v] == Some(t.hash(t.code(s.src, v).value)) ==> Built(t, s, s.src, v)
  }

  predicate AllBuilt(t: Tool, s: State) { |s.path| == t.units && forall v :: 0 <= v < t.units ==> Built(t, s, s.src, v) }

  predicate Pass(t: Tool, s: State, m: nat, c: int, u: nat)
    requires |s.path| == t.units
  {
    && s.watch < m <= s.srcTime && (m == s.srcTime ==> c == s.src) && u <= t.units && Compiles(t, c)
    && (c == s.src ==> forall v :: 0 <= v < u ==> Built(t, s, s.src, v))
  }

  // Where the watcher is: at rest only when everything is built, and in a pass with everything it has passed built.
  predicate OnCourse(t: Tool, s: State)
    requires |s.path| == t.units
  {
    && s.watch <= s.srcTime && (s.watch == s.srcTime ==> s.w == Waiting && AllBuilt(t, s))
    && match s.w
       case Waiting => true
       case Sampled(m) => s.watch < m <= s.srcTime
       case Checking(m, c, u) => Pass(t, s, m, c, u)
       case Linking(m, c, u, tmp) =>
         Pass(t, s, m, c, u) && u < t.units && tmp < |s.files| && t.code(c, u) == Some(s.files[tmp].code)
       case Publishing(m, c, u, tmp) =>
         Pass(t, s, m, c, u) && u < t.units && tmp < |s.files| && s.files[tmp].complete && t.code(c, u) == Some(s.files[tmp].code)
       case Recording(m, c, u) => Pass(t, s, m, c, u) && u < t.units && Built(t, s, c, u)
  }

  // Between a rename and its record a unit's sidecar may be anything.
  predicate Settling(t: Tool, s: State) {
    && |s.path| == t.units && |s.side| == t.units && Compiles(t, s.src) && OnCourse(t, s)
    && forall v :: 0 <= v < t.units && !(s.w.Recording? && s.w.u == v) ==> Honest(t, s, v)
  }

  lemma FreshSettles(t: Tool, s: State)
    requires NoCollision(t) && Fresh(t, s) && Safe(t, s) && Compiles(t, s.src)
    ensures Settling(t, s)
  {
    forall v | 0 <= v < t.units && !(s.w.Recording? && s.w.u == v)
      ensures Honest(t, s, v)
    {
      assert UnitOk(s, v);
      if s.path[v].Some? && s.side[v] == Some(t.hash(t.code(s.src, v).value)) {
        SameHash(t, t.code(s.src, v).value, s.files[s.path[v].value].code);
      }
    }
  }

  lemma SameHash(t: Tool, a: int, b: int)
    requires NoCollision(t) && t.hash(a) == t.hash(b)
    ensures a == b
  {
  }

  // ---- one step ----

  predicate SameFiles(s: State, r: State) { r.path == s.path && r.side == s.side && r.files == s.files && r.src == s.src }

  lemma SameBuilt(t: Tool, s: State, r: State)
    requires SameFiles(s, r) && |s.path| == t.units && |s.side| == t.units
    ensures forall c, v :: 0 <= v < t.units ==> Built(t, r, c, v) == Built(t, s, c, v)
    ensures forall v :: 0 <= v < t.units ==> Honest(t, r, v) == Honest(t, s, v)
  {
  }

  lemma HostSettles(t: Tool, s: State, a: Act)
    requires Settling(t, s) && HostAct(a) && Apply(t, s, a).Some?
    ensures var r := Apply(t, s, a).value; Settling(t, r) && r == s.(host := r.host)
  {
    var r := Apply(t, s, a).value;
    assert r == s.(host := r.host);
    SameBuilt(t, s, r);
    hide Apply, Built, Honest;
  }

  lemma PassSettles(t: Tool, s: State, a: Act)
    requires Settling(t, s) && a == Next(t, s) && (a.Poll? || a.ReadSources? || a.EndPass?)
    ensures Apply(t, s, a).Some? && Settling(t, Apply(t, s, a).value)
  {
    var r := Apply(t, s, a).value;
    SameBuilt(t, s, r);
    hide Built, Honest;
  }

  lemma CheckSettles(t: Tool, s: State)
    requires Safe(t, s) && Settling(t, s) && s.w.Checking? && s.w.u < t.units
    ensures Apply(t, s, CheckUnit(true)).Some? && Settling(t, Apply(t, s, CheckUnit(true)).value)
  {
    var u := s.w.u;
    assert t.code(s.w.c, u).Some?;
    assert UnitOk(s, u) && Honest(t, s, u);
    var r := Apply(t, s, CheckUnit(true)).value;
    assert r.path == s.path && r.side == s.side && r.src == s.src && s.files <= r.files;
    forall v | 0 <= v < t.units
      ensures Built(t, s, s.src, v) ==> Built(t, r, s.src, v)
      ensures Honest(t, s, v) ==> Honest(t, r, v)
    {
    }
  }

  lemma LinkSettles(t: Tool, s: State)
    requires Safe(t, s) && Settling(t, s) && s.w.Linking?
    ensures Apply(t, s, FinishLink(true)).Some? && Settling(t, Apply(t, s, FinishLink(true)).value)
  {
    var r := Apply(t, s, FinishLink(true)).value;
    forall v | 0 <= v < t.units
      ensures Built(t, s, s.src, v) ==> Built(t, r, s.src, v)
      ensures Honest(t, s, v) ==> Honest(t, r, v)
    {
      assert UnitOk(s, v) && Unused(s, v, s.w.tmp);
    }
  }

  lemma RenameSettles(t: Tool, s: State)
    requires Settling(t, s) && s.w.Publishing?
    ensures Apply(t, s, Rename).Some? && Settling(t, Apply(t, s, Rename).value)
  {
    var r := Apply(t, s, Rename).value;
    forall v | 0 <= v < t.units && v != s.w.u
      ensures Built(t, r, s.src, v) == Built(t, s, s.src, v) && Honest(t, r, v) == Honest(t, s, v)
    {
    }
  }

  lemma RecordSettles(t: Tool, s: State)
    requires NoCollision(t) && Settling(t, s) && s.w.Recording?
    ensures Apply(t, s, Record(true)).Some? && Settling(t, Apply(t, s, Record(true)).value)
  {
    var r := Apply(t, s, Record(true)).value;
    forall v | 0 <= v < t.units
      ensures Built(t, r, s.src, v) == Built(t, s, s.src, v) && Honest(t, r, v)
    {
      if v == s.w.u {
        var code := t.code(s.w.c, v).value;
        assert r.side[v] == Some(t.hash(code));
        if t.hash(t.code(s.src, v).value) == t.hash(code) {
          SameHash(t, t.code(s.src, v).value, code);
        }
      } else {
        assert Honest(t, s, v);
      }
    }
  }

  // Every successful step stays on course, and every one of the watcher's brings it nearer to its rest.
  lemma StepSettles(t: Tool, s: State, a: Act)
    requires NoCollision(t) && Safe(t, s) && Settling(t, s) && (a == Next(t, s) || (HostAct(a) && Apply(t, s, a).Some?))
    ensures Apply(t, s, a).Some?
    ensures var r := Apply(t, s, a).value; Safe(t, r) && Settling(t, r) && r.src == s.src && r.srcTime == s.srcTime
  {
    if HostAct(a) {
      hide Apply, Safe;
      HostSettles(t, s, a);
      StepKeeps(t, s, a);
    } else {
      TimesKept(t, s, a);
      hide Apply, Safe;
      match a
      case CheckUnit(_) => CheckInBounds(t, s); CheckSettles(t, s); StepKeeps(t, s, a);
      case FinishLink(_) => LinkSettles(t, s); StepKeeps(t, s, a);
      case Rename => RenameSettles(t, s); StepKeeps(t, s, a);
      case Record(_) => RecordSettles(t, s); StepKeeps(t, s, a);
      case _ => PassSettles(t, s, a); StepKeeps(t, s, a);
    }
  }

  lemma CheckInBounds(t: Tool, s: State)
    requires Settling(t, s) && Next(t, s).CheckUnit?
    ensures s.w.u < t.units
  {
  }

  lemma TimesKept(t: Tool, s: State, a: Act)
    requires a == Next(t, s) && Apply(t, s, a).Some?
    ensures Apply(t, s, a).value.src == s.src && Apply(t, s, a).value.srcTime == s.srcTime
    ensures Apply(t, s, a).value.host == s.host
  {
  }

  // ---- how far it is to the watcher's rest ----

  function Left(t: Tool, u: nat, done: int): nat { if u <= t.units && 4 * (t.units - u) >= done then 4 * (t.units - u) - done else 0 }

  // Steps left until then; a pass over older sources is followed by another.
  function Distance(t: Tool, s: State): nat {
    var whole := 4 * t.units + 3;
    match s.w
    case Waiting => if s.watch == s.srcTime then 0 else whole
    case Sampled(m) => whole - 1 + if m == s.srcTime then 0 else whole
    case Checking(m, _, u) => Left(t, u, -1) + if m == s.srcTime then 0 else whole
    case Linking(m, _, u, _) => Left(t, u, 0) + if m == s.srcTime then 0 else whole
    case Publishing(m, _, u, _) => Left(t, u, 1) + if m == s.srcTime then 0 else whole
    case Recording(m, _, u) => Left(t, u, 2) + if m == s.srcTime then 0 else whole
  }

  lemma StepNearer(t: Tool, s: State, a: Act)
    requires Settling(t, s) && Apply(t, s, a).Some?
    ensures HostAct(a) ==> Distance(t, Apply(t, s, a).value) == Distance(t, s)
    ensures a == Next(t, s) ==> Distance(t, Apply(t, s, a).value) < Distance(t, s) || (Idle(s) && Apply(t, s, a) == Some(s))
  {
    hide Honest, Built, Compiles;
    if HostAct(a) {
      HostSettles(t, s, a);
    }
  }

  lemma AtRest(t: Tool, s: State)
    requires Settling(t, s) && Distance(t, s) == 0
    ensures Idle(s) && AllBuilt(t, s)
  {
  }

  // From every state on course, every continuation stays on course and, with enough watcher steps among its steps,
  // leads to a watcher at rest and every unit built from the last edit.
  lemma {:induction false} WatcherSettles(t: Tool, s: State, acts: seq<Act>)
    requires NoCollision(t) && Safe(t, s) && Settling(t, s) && Quiet(t, s, acts)
    ensures var r := After(t, s, acts);
            && Safe(t, r) && Settling(t, r) && r.src == s.src && r.srcTime == s.srcTime
            && (WatcherSteps(acts) >= Distance(t, s) ==> Idle(r) && AllBuilt(t, r))
    decreases |acts|
  {
    hide Apply, NoCollision, Safe, Settling, Distance, Next, AllBuilt, Idle;
    if acts == [] {
      if Distance(t, s) == 0 {
        AtRest(t, s);
      }
    } else {
      StepSettles(t, s, acts[0]);
      StepNearer(t, s, acts[0]);
      var r := Apply(t, s, acts[0]).value;
      WatcherSettles(t, r, acts[1..]);
      if Idle(s) {
        IdleDistance(t, s);
        if acts[0] == Next(t, s) && !HostAct(acts[0]) {
          IdleStays(t, s);
        } else {
          assert WatcherSteps(acts) == WatcherSteps(acts[1..]);
        }
      }
    }
  }

  lemma IdleDistance(t: Tool, s: State)
    requires Idle(s)
    ensures Distance(t, s) == 0
  {
  }

  lemma IdleStays(t: Tool, s: State)
    requires Idle(s)
    ensures Next(t, s) == Poll && Apply(t, s, Poll) == Some(s)
  {
  }

  // Such continuations exist: the watcher alone is never stuck.
  lemma {:induction false} WatcherAlone(t: Tool, s: State, n: nat)
    requires NoCollision(t) && Safe(t, s) && Settling(t, s)
    ensures exists acts :: Quiet(t, s, acts) && WatcherSteps(acts) == n
    decreases n
  {
    hide Apply, NoCollision, Safe, Settling, Next;
    if n == 0 {
      assert Quiet(t, s, []) && WatcherSteps([]) == 0;
    } else {
      var a := Next(t, s);
      StepSettles(t, s, a);
      var r := Apply(t, s, a).value;
      WatcherAlone(t, r, n - 1);
      var rest :| Quiet(t, r, rest) && WatcherSteps(rest) == n - 1;
      NotHost(t, s);
      assert ([a] + rest)[1..] == rest;
      assert Quiet(t, s, [a] + rest) && WatcherSteps([a] + rest) == n;
    }
  }

  lemma NotHost(t: Tool, s: State)
    ensures !HostAct(Next(t, s))
  {
  }

  // ---- the host catches up ----

  // Steps left until unit u runs what is published.
  function Behind(s: State, u: nat): nat
    requires u < |s.host| && u < |s.path|
  {
    if s.path[u].None? || s.host[u].handle == s.path[u] then 0
    else match s.host[u].load
      case Ready => 3
      case Statted(_) => 2
      case Opened(_, f) => if s.path[u] == Some(f) then 1 else 4
  }

  lemma HostNearer(t: Tool, s: State, a: Act, u: nat)
    requires Safe(t, s) && Settling(t, s) && Idle(s) && Goes(t, s, a) && u < t.units && a != DlOpen(u, false)
    ensures var r := Apply(t, s, a).value;
            && Idle(r) && r.path == s.path && |r.host| == |s.host|
            && if ActsOn(a, u) then Behind(r, u) < Behind(s, u) || (Behind(s, u) == 0 && Behind(r, u) == 0) else Behind(r, u) == Behind(s, u)
  {
    assert UnitOk(s, u);
    hide Settling;
  }

  lemma {:induction false} HostCatchesUp(t: Tool, s: State, acts: seq<Act>, u: nat)
    requires NoCollision(t) && Safe(t, s) && Settling(t, s) && Idle(s) && Quiet(t, s, acts) && u < t.units
    requires |s.host| == t.units && |s.path| == t.units && HostSteps(acts, u) >= Behind(s, u) && DlOpen(u, false) !in acts
    ensures var r := After(t, s, acts); |r.host| == t.units && |r.path| == t.units && Behind(r, u) == 0
    decreases |acts|
  {
    hide Apply, NoCollision, Safe, Settling, Behind, Idle, ActsOn;
    if acts != [] {
      StepSettles(t, s, acts[0]);
      HostNearer(t, s, acts[0], u);
      HostCatchesUp(t, Apply(t, s, acts[0]).value, acts[1..], u);
    }
  }

  lemma CaughtUp(t: Tool, s: State, u: nat)
    requires Safe(t, s) && AllBuilt(t, s) && u < t.units && Behind(s, u) == 0
    ensures Runs(s, u, t.code(s.src, u))
  {
    assert UnitOk(s, u) && Built(t, s, s.src, u);
  }

  lemma Shapes(t: Tool, s: State, u: nat)
    requires Safe(t, s) && u < t.units
    ensures |s.host| == t.units && |s.path| == t.units && |s.side| == t.units && Behind(s, u) <= 4
  {
  }

  // From every state a run can reach without the two accidents: however the steps of the watcher and the host follow
  // each other, if no edit comes and the builds succeed, enough watcher steps bring every unit to the last edit; then
  // four steps of the host at a unit, its loads succeeding, make it run the last edit's code, and it stays so.
  lemma ReachesLastEdit(t: Tool, start: State, acts: seq<Act>, a: seq<Act>, b: seq<Act>, u: nat)
    requires NoCollision(t) && Begins(t, start) && Run(t, start, acts).Some? && u < t.units
    requires var s := Run(t, start, acts).value; s.clean && Compiles(t, s.src)
    requires var s := Run(t, start, acts).value;
             && Quiet(t, s, a) && WatcherSteps(a) >= Distance(t, s)
             && Quiet(t, After(t, s, a), b) && HostSteps(b, u) >= 4 && DlOpen(u, false) !in b
    ensures var s := Run(t, start, acts).value;
            var q, r := After(t, s, a), After(t, After(t, s, a), b);
            && Idle(q) && AllBuilt(t, q) && q.src == s.src
            && Idle(r) && AllBuilt(t, r) && r.src == s.src && Runs(r, u, t.code(s.src, u))
  {
    hide Run, Apply, Begins, NoCollision, Compiles, Quiet, After, Distance, Safe, Settling, Fresh, AllBuilt, Behind, Runs, Idle;
    BeginsGood(t, start);
    RunGood(t, start, acts);
    var s := Run(t, start, acts).value;
    FreshSettles(t, s);
    WatcherSettles(t, s, a);
    var q := After(t, s, a);
    IdleDistance(t, q);
    WatcherSettles(t, q, b);
    Shapes(t, q, u);
    HostCatchesUp(t, q, b, u);
    CaughtUp(t, After(t, q, b), u);
  }

  // ---- exactly when an accident loses an edit ----

  // The pass that misleads: it finds unit v's hash and leaves the other code published.
  predicate Misled(t: Tool, s: State, v: nat) {
    && |s.path| == t.units && |s.side| == t.units && v < t.units
    && !Honest(t, s, v)
    && match s.w
       case Waiting => true
       case Sampled(_) => true
       case Checking(_, c, _) => c == s.src
       case Linking(_, c, u, tmp) => c == s.src && u != v
       case Publishing(_, c, u, tmp) => c == s.src && u != v
       case Recording(_, c, u) => c == s.src && u != v
  }

  lemma MisledStays(t: Tool, s: State, a: Act, v: nat)
    requires Safe(t, s) && Misled(t, s, v) && Goes(t, s, a)
    ensures var r := Apply(t, s, a).value; Misled(t, r, v) && Safe(t, r) && r.src == s.src
  {
    StepKeeps(t, s, a);
    assert UnitOk(s, v);
    if s.w.Linking? {
      assert Unused(s, v, s.w.tmp);
    }
  }

  lemma {:induction false} MisledForever(t: Tool, s: State, acts: seq<Act>, v: nat)
    requires Safe(t, s) && Misled(t, s, v) && Quiet(t, s, acts)
    ensures !AllBuilt(t, After(t, s, acts))
    decreases |acts|
  {
    hide Apply, Safe, Misled, AllBuilt, Next;
    if acts == [] {
      MisledIsNot(t, s, v);
    } else {
      MisledStays(t, s, acts[0], v);
      MisledForever(t, Apply(t, s, acts[0]).value, acts[1..], v);
    }
  }

  lemma MisledIsNot(t: Tool, s: State, v: nat)
    requires Misled(t, s, v)
    ensures !AllBuilt(t, s)
  {
  }

  // A watcher between two passes that has yet to read the last edit, with any sidecars whatever: every continuation
  // with enough watcher steps ends with all units built from the last edit if and only if no sidecar holds the hash of
  // code that is not published.
  lemma SidecarsExact(t: Tool, s: State, acts: seq<Act>)
    requires NoCollision(t) && Safe(t, s) && Compiles(t, s.src)
    requires s.watch < s.srcTime && (s.w == Waiting || (s.w.Sampled? && s.watch < s.w.m <= s.srcTime))
    requires Quiet(t, s, acts) && WatcherSteps(acts) >= Distance(t, s)
    ensures |s.path| == t.units && |s.side| == t.units
    ensures AllBuilt(t, After(t, s, acts)) <==> forall v :: 0 <= v < t.units ==> Honest(t, s, v)
  {
    if forall v :: 0 <= v < t.units ==> Honest(t, s, v) {
      WatcherSettles(t, s, acts);
    } else {
      var v :| 0 <= v < t.units && !Honest(t, s, v);
      MisledForever(t, s, acts, v);
    }
  }

  // The sources cannot be read when the watcher wakes, in any state without an earlier accident: the edit is lost, that
  // is no continuation whatever brings it, if and only if no newer edit has come since the sample and some unit is not
  // built from it. Otherwise every continuation with enough watcher steps brings it.
  lemma UnreadableExact(t: Tool, s: State, acts: seq<Act>)
    requires NoCollision(t) && Safe(t, s) && Fresh(t, s) && Compiles(t, s.src) && s.w.Sampled?
    requires Quiet(t, Apply(t, s, SourcesUnreadable).value, acts)
    ensures var r := Apply(t, s, SourcesUnreadable).value;
            if s.srcTime == s.w.m && !AllBuilt(t, s) then !AllBuilt(t, After(t, r, acts))
            else WatcherSteps(acts) >= Distance(t, r) ==> AllBuilt(t, After(t, r, acts))
  {
    hide NoCollision;
    var r := Apply(t, s, SourcesUnreadable).value;
    FreshSettles(t, s);
    StepKeeps(t, s, SourcesUnreadable);
    SameBuilt(t, s, r);
    if s.srcTime == s.w.m && !AllBuilt(t, s) {
      RestIsFinal(t, r, acts);
    } else {
      WatcherSettles(t, r, acts);
    }
  }

  // A watcher at rest publishes nothing more.
  lemma {:induction false} RestIsFinal(t: Tool, s: State, acts: seq<Act>)
    requires Idle(s) && Quiet(t, s, acts)
    ensures var r := After(t, s, acts); SameFiles(s, r) && AllBuilt(t, r) == AllBuilt(t, s)
    decreases |acts|
  {
    hide Apply, Next;
    if acts != [] {
      RestStep(t, s, acts[0]);
      RestIsFinal(t, Apply(t, s, acts[0]).value, acts[1..]);
    }
  }

  lemma RestStep(t: Tool, s: State, a: Act)
    requires Idle(s) && Goes(t, s, a)
    ensures var r := Apply(t, s, a).value; Idle(r) && SameFiles(s, r) && AllBuilt(t, r) == AllBuilt(t, s)
  {
    var r := Apply(t, s, a).value;
    assert r == s.(host := r.host);
    forall v | 0 <= v < |s.path|
      ensures Built(t, r, r.src, v) == Built(t, s, s.src, v)
    {
    }
  }

  // ---- an edit before the watcher's first sample ----

  // The sources are edited after the first build has read them and before the first sample is taken: the sample holds the
  // edit's time.
  function EarlyEdit(s: State, c: int, time: nat): State { s.(src := c, srcTime := time, watch := time) }

  // Such an edit is lost, that is no continuation without a newer edit publishes it, if and only if some unit's code is
  // not what it was before the edit.
  lemma EarlyEditExact(t: Tool, s: State, c: int, time: nat, acts: seq<Act>)
    requires Begins(t, s) && Compiles(t, c) && Quiet(t, EarlyEdit(s, c, time), acts)
    ensures AllBuilt(t, After(t, EarlyEdit(s, c, time), acts)) <==> forall u :: 0 <= u < t.units ==> t.code(c, u) == t.code(s.src, u)
  {
    var r := EarlyEdit(s, c, time);
    RestIsFinal(t, r, acts);
    assert AllBuilt(t, r) <==> forall u :: 0 <= u < t.units ==> t.code(c, u) == t.code(s.src, u) by {
      forall u | 0 <= u < t.units
        ensures Built(t, r, c, u) <==> t.code(c, u) == t.code(s.src, u)
      {
      }
    }
  }

  // ---- a sidecar that could not be written ----

  // What is left of the pass after the failed record: unit u's code published, its sidecar as before, every other
  // unit's sidecar that of its code.
  predicate Unrecorded(t: Tool, s: State, u: nat, side: Option<int>, code: int) {
    && |s.path| == t.units && |s.side| == t.units && u < t.units
    && s.side[u] == side && s.path[u].Some? && s.path[u].value < |s.files| && s.files[s.path[u].value].complete
    && s.files[s.path[u].value].code == code
    && (forall v :: 0 <= v < t.units && v != u && s.side[v].Some? && !(s.w.Recording? && s.w.u == v) ==> Recorded(t, s, v))
    && s.watch <= s.srcTime
    && match s.w
       case Waiting => true
       case Sampled(m) => s.watch < m <= s.srcTime
       case Checking(m, _, i) => m <= s.srcTime && i > u
       case Linking(m, c, i, tmp) => m <= s.srcTime && i > u && tmp < |s.files| && t.code(c, i) == Some(s.files[tmp].code)
       case Publishing(m, c, i, tmp) => m <= s.srcTime && i > u && tmp < |s.files| && t.code(c, i) == Some(s.files[tmp].code)
       case Recording(m, c, i) => m <= s.srcTime && i > u && i < t.units && Built(t, s, c, i)
  }

  predicate Recorded(t: Tool, s: State, v: nat)
    requires v < |s.path| && v < |s.side|
  {
    s.path[v].Some? && s.path[v].value < |s.files| && s.side[v] == Some(t.hash(s.files[s.path[v].value].code))
  }

  lemma UnrecordedStays(t: Tool, s: State, a: Act, u: nat, side: Option<int>, code: int)
    requires Safe(t, s) && Unrecorded(t, s, u, side, code) && Goes(t, s, a) && a != ReadSources
    ensures var r := Apply(t, s, a).value; Safe(t, r) && Unrecorded(t, r, u, side, code)
  {
    StepKeeps(t, s, a);
    if HostAct(a) {
      HostUnrecorded(t, s, a, u, side, code);
    } else if s.w.Linking? {
      LinkUnrecorded(t, s, u, side, code);
    } else {
      WatcherUnrecorded(t, s, a, u, side, code);
    }
  }

  lemma HostUnrecorded(t: Tool, s: State, a: Act, u: nat, side: Option<int>, code: int)
    requires Unrecorded(t, s, u, side, code) && HostAct(a) && Apply(t, s, a).Some?
    ensures Unrecorded(t, Apply(t, s, a).value, u, side, code)
  {
    var r := Apply(t, s, a).value;
    assert r == s.(host := r.host);
    hide Apply;
    SameBuilt(t, s, r);
    assert forall v :: 0 <= v < t.units ==> Recorded(t, r, v) == Recorded(t, s, v);
  }

  lemma LinkUnrecorded(t: Tool, s: State, u: nat, side: Option<int>, code: int)
    requires Safe(t, s) && Unrecorded(t, s, u, side, code) && s.w.Linking?
    ensures Apply(t, s, FinishLink(true)).Some? && Unrecorded(t, Apply(t, s, FinishLink(true)).value, u, side, code)
  {
    var r := Apply(t, s, FinishLink(true)).value;
    forall v | 0 <= v < t.units && s.path[v].Some?
      ensures s.path[v].value != s.w.tmp && (Recorded(t, s, v) ==> Recorded(t, r, v))
    {
      assert UnitOk(s, v) && Unused(s, v, s.w.tmp);
    }
  }

  lemma WatcherUnrecorded(t: Tool, s: State, a: Act, u: nat, side: Option<int>, code: int)
    requires Safe(t, s) && Unrecorded(t, s, u, side, code) && a == Next(t, s) && Apply(t, s, a).Some?
    requires a != ReadSources && !s.w.Linking?
    ensures Unrecorded(t, Apply(t, s, a).value, u, side, code)
  {
    var r := Apply(t, s, a).value;
    forall v | 0 <= v < t.units && !(s.w.Publishing? && s.w.u == v) && !(s.w.Recording? && s.w.u == v)
      ensures Recorded(t, s, v) ==> Recorded(t, r, v)
      ensures r.side[v] == s.side[v] && r.path[v] == s.path[v]
    {
      assert UnitOk(s, v);
    }
  }

  lemma {:induction false} RestOfPass(t: Tool, s: State, acts: seq<Act>, u: nat, side: Option<int>, code: int)
    requires Safe(t, s) && Unrecorded(t, s, u, side, code) && Quiet(t, s, acts)
    requires forall i :: 0 <= i < |acts| ==> acts[i] != ReadSources
    ensures var r := After(t, s, acts); Safe(t, r) && Unrecorded(t, r, u, side, code)
    decreases |acts|
  {
    hide Apply, Safe, Unrecorded, Next;
    if acts != [] {
      UnrecordedStays(t, s, acts[0], u, side, code);
      RestOfPass(t, Apply(t, s, acts[0]).value, acts[1..], u, side, code);
    }
  }

  // The next edit after it.
  lemma EditAfter(t: Tool, q: State, c2: int, time: nat, u: nat, side: Option<int>, code: int)
    requires NoCollision(t) && Safe(t, q) && Unrecorded(t, q, u, side, code) && (q.w == Waiting || q.w.Sampled?)
    requires time > q.srcTime && Compiles(t, c2)
    ensures var e := Apply(t, q, Edit(c2, time)).value;
            && Safe(t, e) && |e.path| == t.units && |e.side| == t.units && e.src == c2
            && e.watch < e.srcTime && (e.w == Waiting || (e.w.Sampled? && e.watch < e.w.m <= e.srcTime))
            && ((forall v :: 0 <= v < t.units ==> Honest(t, e, v))
                <==> !(side == Some(t.hash(t.code(c2, u).value)) && t.code(c2, u) != Some(code)))
  {
    var e := Apply(t, q, Edit(c2, time)).value;
    StepKeeps(t, q, Edit(c2, time));
    forall v | 0 <= v < t.units && v != u
      ensures Honest(t, e, v)
    {
      assert UnitOk(q, v);
      if q.path[v].Some? && q.side[v] == Some(t.hash(t.code(c2, v).value)) {
        assert Recorded(t, q, v);
        SameHash(t, t.code(c2, v).value, q.files[q.path[v].value].code);
      }
    }
    assert Honest(t, e, u) <==> !(side == Some(t.hash(t.code(c2, u).value)) && t.code(c2, u) != Some(code));
  }

  // A record that failed, in any state without an earlier accident: the rest of the pass and everything up to the
  // next time the sources are read may go in any order, then an edit comes, and the builds succeed. The undone code
  // stays published if and only if the edit takes unit u back to code of the hash recorded before, and that is not the
  // code published.
  lemma LostSidecarExact(t: Tool, s: State, rest: seq<Act>, c2: int, time: nat, acts: seq<Act>)
    requires NoCollision(t) && Safe(t, s) && Fresh(t, s) && s.w.Recording? && Compiles(t, c2)
    requires Quiet(t, Apply(t, s, Record(false)).value, rest) && forall i :: 0 <= i < |rest| ==> rest[i] != ReadSources
    requires var q := After(t, Apply(t, s, Record(false)).value, rest);
             && (q.w == Waiting || q.w.Sampled?) && time > q.srcTime
             && Quiet(t, Apply(t, q, Edit(c2, time)).value, acts)
             && WatcherSteps(acts) >= Distance(t, Apply(t, q, Edit(c2, time)).value)
    ensures var q := After(t, Apply(t, s, Record(false)).value, rest);
            AllBuilt(t, After(t, Apply(t, q, Edit(c2, time)).value, acts))
            <==> !(s.side[s.w.u] == Some(t.hash(t.code(c2, s.w.u).value)) && t.code(c2, s.w.u) != t.code(s.w.c, s.w.u))
  {
    var u := s.w.u;
    var code := t.code(s.w.c, u).value;
    hide Apply, Safe, Fresh, NoCollision, Compiles, Unrecorded, Honest, AllBuilt, Distance, Quiet, After, WatcherSteps;
    NowUnrecorded(t, s);
    StepKeeps(t, s, Record(false));
    var r := Apply(t, s, Record(false)).value;
    RestOfPass(t, r, rest, u, s.side[u], code);
    var q := After(t, r, rest);
    EditAfter(t, q, c2, time, u, s.side[u], code);
    var e := Apply(t, q, Edit(c2, time)).value;
    SidecarsExact(t, e, acts);
  }

  lemma NowUnrecorded(t: Tool, s: State)
    requires Safe(t, s) && Fresh(t, s) && s.w.Recording?
    ensures s.w.u < t.units && s.w.u < |s.side| && t.code(s.w.c, s.w.u).Some? && Apply(t, s, Record(false)).Some?
    ensures Unrecorded(t, Apply(t, s, Record(false)).value, s.w.u, s.side[s.w.u], t.code(s.w.c, s.w.u).value)
  {
  }
}

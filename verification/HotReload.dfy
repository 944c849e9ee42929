// The development loop as a protocol: an editor, the watcher with its builder, and the running host, interleaved in
// any order and meeting only through files. Every image the host runs is complete, it never goes back to an older
// one, and once the edits stop it runs the code of the last one.
module HotReload {
  import opened Bytes

  // The compiler: a unit's code in a version of the sources (None if the version does not compile), and the hash that
  // stands for code in the sidecar file.
  datatype Tool = Tool(units: nat, code: (int, nat) -> Option<int>, hash: int -> int)

  ghost predicate NoCollision(t: Tool) { forall a, b :: t.hash(a) == t.hash(b) ==> a == b }

  predicate Compiles(t: Tool, c: int) { forall u :: 0 <= u < t.units ==> t.code(c, u).Some? }

  // A file's contents, whatever name leads to it: the linker's output, complete once the linker is done.
  datatype File = File(code: int, complete: bool, mtime: nat)

  // The watcher between two polls, or in a pass that began with the sampled time m and read sources c.
  datatype Watch =
    | Waiting
    | Sampled(m: nat)
    | Checking(m: nat, c: int, u: nat)
    | Linking(m: nat, c: int, u: nat, tmp: nat)
    | Publishing(m: nat, c: int, u: nat, tmp: nat)
    | Recording(m: nat, c: int, u: nat)

  // What the host has loaded, from which file, and the time it noted; and where it is in a reload.
  datatype Load = Ready | Statted(m: nat) | Opened(m: nat, file: nat)
  datatype Unit = Unit(handle: Option<nat>, mtime: nat, load: Load)

  // `files` only grows; `path[u]` is the file the unit's name leads to, `side[u]` the recorded hash. `clean` is
  // lowered by the accidents the loop does not recover from.
  datatype State = State(
    src: int, srcTime: nat,
    files: seq<File>, path: seq<Option<nat>>, side: seq<Option<int>>,
    watch: nat, w: Watch,
    host: seq<Unit>,
    clock: nat, clean: bool)

  datatype Act =
    | Edit(c: int, time: nat)
    | Poll
    | ReadSources
    | SourcesUnreadable
    | CheckUnit(ok: bool)
    | FinishLink(ok: bool)
    | Rename
    | Record(ok: bool)
    | EndPass
    | Stat(u: nat)
    | Open(u: nat)
    | DlOpen(u: nat, ok: bool)

  function Tick(s: State): nat { s.clock + 1 }

  // One step; None if the step is not possible now.
  function Apply(t: Tool, s: State, a: Act): Option<State> {
    match a
    case Edit(c, time) => if time > s.srcTime then Some(s.(src := c, srcTime := time)) else None
    case Poll =>
      if s.w != Waiting then None else if s.srcTime > s.watch then Some(s.(w := Sampled(s.srcTime))) else Some(s)
    case ReadSources =>
      if !s.w.Sampled? then None
      else Some(s.(w := if Compiles(t, s.src) then Checking(s.w.m, s.src, 0) else Waiting))
    case SourcesUnreadable =>
      if !s.w.Sampled? then None else Some(s.(watch := s.w.m, w := Waiting, clean := false))
    case CheckUnit(ok) =>
      if !s.w.Checking? || s.w.u >= t.units || s.w.u >= |s.path| || s.w.u >= |s.side| then None
      else
        (match t.code(s.w.c, s.w.u)
         case None => None
         case Some(code) =>
           if s.path[s.w.u].Some? && s.side[s.w.u] == Some(t.hash(code)) then Some(s.(w := Checking(s.w.m, s.w.c, s.w.u + 1)))
           else if ok then
             Some(s.(files := s.files + [File(code, false, 0)], w := Linking(s.w.m, s.w.c, s.w.u, |s.files|)))
           else Some(s.(w := Waiting)))
    case FinishLink(ok) =>
      if !s.w.Linking? || s.w.tmp >= |s.files| then None
      else if ok then
        Some(s.(files := s.files[s.w.tmp := s.files[s.w.tmp].(complete := true, mtime := Tick(s))], clock := Tick(s),
                w := Publishing(s.w.m, s.w.c, s.w.u, s.w.tmp)))
      else Some(s.(w := Waiting))
    case Rename =>
      if !s.w.Publishing? || s.w.u >= |s.path| then None
      else Some(s.(path := s.path[s.w.u := Some(s.w.tmp)], w := Recording(s.w.m, s.w.c, s.w.u)))
    case Record(ok) =>
      if !s.w.Recording? || s.w.u >= |s.side| || s.w.u >= t.units then None
      else
        (match t.code(s.w.c, s.w.u)
         case None => None
         case Some(code) =>
           var next := s.(w := Checking(s.w.m, s.w.c, s.w.u + 1));
           if ok then Some(next.(side := s.side[s.w.u := Some(t.hash(code))])) else Some(next.(clean := false)))
    case EndPass =>
      if s.w.Checking? && s.w.u == t.units then Some(s.(watch := s.w.m, w := Waiting)) else None
    case Stat(u) =>
      if u >= |s.host| || u >= |s.path| || s.host[u].load != Ready || s.path[u].None? || s.path[u].value >= |s.files| then None
      else
        var m := s.files[s.path[u].value].mtime;
        if s.host[u].handle.Some? && m == s.host[u].mtime then Some(s)
        else Some(s.(host := s.host[u := s.host[u].(load := Statted(m))]))
    case Open(u) =>
      if u >= |s.host| || u >= |s.path| || !s.host[u].load.Statted? then None
      else if s.path[u].None? then Some(s.(host := s.host[u := s.host[u].(load := Ready)]))
      else Some(s.(host := s.host[u := s.host[u].(load := Opened(s.host[u].load.m, s.path[u].value))]))
    case DlOpen(u, ok) =>
      if u >= |s.host| || !s.host[u].load.Opened? then None
      else
        var h := s.host[u];
        Some(s.(host := s.host[u := if ok then Unit(Some(h.load.file), h.load.m, Ready) else h.(load := Ready)]))
  }

  // Where the session starts: the sources have just been built, the first sample is taken, nothing is loaded.
  predicate Begins(t: Tool, s: State) {
    && |s.path| == |s.side| == |s.host| == t.units && s.w == Waiting && s.watch == s.srcTime && s.clean
    && (forall u :: 0 <= u < t.units ==>
          && s.path[u].Some? && s.path[u].value < |s.files| && s.files[s.path[u].value].complete
          && s.files[s.path[u].value].mtime <= s.clock
          && t.code(s.src, u) == Some(s.files[s.path[u].value].code)
          && s.side[u] == Some(t.hash(s.files[s.path[u].value].code))
          && s.host[u] == Unit(None, 0, Ready))
  }

  // ---- what every step keeps ----

  predicate Published(s: State, f: nat) { f < |s.files| && s.files[f].complete && s.files[f].mtime <= s.clock }

  // A unit's published file, what is loaded of it and what is about to be, oldest last; equal times mean the same file.
  predicate UnitOk(s: State, u: nat)
    requires u < |s.path| && u < |s.host|
  {
    var h := s.host[u];
    && (s.path[u].Some? ==> Published(s, s.path[u].value))
    && (h.handle.Some? ==> Follows(s, s.path[u], h.handle.value, h.mtime))
    && match h.load
       case Ready => true
       case Statted(m) => s.path[u].Some? && m <= s.files[s.path[u].value].mtime
       case Opened(m, f) =>
         Follows(s, s.path[u], f, m) && (h.handle.Some? ==> s.files[h.handle.value].mtime <= s.files[f].mtime)
  }

  // A file that is or was the published one, noted no later than it was made.
  predicate Follows(s: State, path: Option<nat>, f: nat, noted: nat) {
    && path.Some? && Published(s, path.value) && Published(s, f) && noted <= s.files[f].mtime <= s.files[path.value].mtime
    && (s.files[f].mtime == s.files[path.value].mtime ==> f == path.value)
  }

  // The file the linker is writing is nobody's yet.
  predicate TmpOk(s: State) {
    match s.w
    case Linking(_, _, _, tmp) =>
      tmp < |s.files| && forall u :: 0 <= u < |s.path| && u < |s.host| ==> Unused(s, u, tmp)
    case Publishing(_, _, u, tmp) =>
      && Published(s, tmp) && s.files[tmp].mtime == s.clock
      && (forall v :: 0 <= v < |s.path| && v < |s.host| ==> Unused(s, v, tmp))
      && (forall v :: 0 <= v < |s.path| && s.path[v].Some? && s.path[v].value < |s.files| ==> s.files[s.path[v].value].mtime < s.clock)
    case _ => true
  }

  predicate Unused(s: State, u: nat, f: nat)
    requires u < |s.path| && u < |s.host|
  {
    s.path[u] != Some(f) && s.host[u].handle != Some(f) && (s.host[u].load.Opened? ==> s.host[u].load.file != f)
  }

  predicate Safe(t: Tool, s: State) {
    && |s.path| == |s.side| == |s.host| == t.units
    && (forall u :: 0 <= u < t.units ==> UnitOk(s, u))
    && TmpOk(s)
  }

  // What the host runs for a unit is this code.
  predicate Runs(s: State, u: nat, code: Option<int>) {
    u < |s.host| && s.host[u].handle.Some? && s.host[u].handle.value < |s.files|
    && code == Some(s.files[s.host[u].handle.value].code)
  }

  // The host changes what it holds of one unit.
  lemma HostChanges(t: Tool, s: State, u: nat, h: Unit)
    requires Safe(t, s) && u < t.units && UnitOk(s.(host := s.host[u := h]), u)
    requires s.w.Linking? || s.w.Publishing? ==> h.handle != Some(s.w.tmp) && (h.load.Opened? ==> h.load.file != s.w.tmp)
    ensures Safe(t, s.(host := s.host[u := h]))
  {
    var s' := s.(host := s.host[u := h]);
    forall v | 0 <= v < t.units
      ensures UnitOk(s', v)
      ensures s.w.Linking? || s.w.Publishing? ==> Unused(s', v, s.w.tmp)
    {
      assert UnitOk(s, v);
      assert s.w.Linking? || s.w.Publishing? ==> Unused(s, v, s.w.tmp);
    }
  }

  lemma StatKeeps(t: Tool, s: State, u: nat)
    requires Safe(t, s) && Apply(t, s, Stat(u)).Some?
    ensures Safe(t, Apply(t, s, Stat(u)).value)
  {
    assert UnitOk(s, u);
    assert s.w.Linking? || s.w.Publishing? ==> Unused(s, u, s.w.tmp);
    hide Safe;
    HostChanges(t, s, u, Apply(t, s, Stat(u)).value.host[u]);
    assert s.host[u := s.host[u]] == s.host;
  }

  lemma OpenKeeps(t: Tool, s: State, u: nat)
    requires Safe(t, s) && Apply(t, s, Open(u)).Some?
    ensures Safe(t, Apply(t, s, Open(u)).value)
  {
    assert UnitOk(s, u);
    assert s.w.Linking? || s.w.Publishing? ==> Unused(s, u, s.w.tmp);
    hide Safe;
    HostChanges(t, s, u, Apply(t, s, Open(u)).value.host[u]);
  }

  lemma DlOpenKeeps(t: Tool, s: State, u: nat, ok: bool)
    requires Safe(t, s) && Apply(t, s, DlOpen(u, ok)).Some?
    ensures Safe(t, Apply(t, s, DlOpen(u, ok)).value)
  {
    assert UnitOk(s, u);
    assert s.w.Linking? || s.w.Publishing? ==> Unused(s, u, s.w.tmp);
    hide Safe;
    HostChanges(t, s, u, Apply(t, s, DlOpen(u, ok)).value.host[u]);
  }

  lemma CheckKeeps(t: Tool, s: State, ok: bool)
    requires Safe(t, s) && Apply(t, s, CheckUnit(ok)).Some?
    ensures Safe(t, Apply(t, s, CheckUnit(ok)).value)
  {
    var s' := Apply(t, s, CheckUnit(ok)).value;
    assert s'.path == s.path && s'.host == s.host && s'.side == s.side && s'.clock == s.clock && s.files <= s'.files;
    assert s'.w.Linking? ==> s'.w.tmp == |s.files| < |s'.files|;
    assert !s'.w.Publishing?;
    hide Apply;
    forall u | 0 <= u < t.units
      ensures UnitOk(s', u)
      ensures s'.w.Linking? ==> Unused(s', u, s'.w.tmp)
    {
      assert UnitOk(s, u);
    }
  }

  lemma LinkKeeps(t: Tool, s: State, ok: bool)
    requires Safe(t, s) && Apply(t, s, FinishLink(ok)).Some?
    ensures Safe(t, Apply(t, s, FinishLink(ok)).value)
  {
    var s' := Apply(t, s, FinishLink(ok)).value;
    forall u | 0 <= u < t.units
      ensures UnitOk(s', u) && Unused(s', u, s.w.tmp)
      ensures s.path[u].Some? ==> s.path[u].value < |s'.files| && s'.files[s.path[u].value].mtime <= s.clock
    {
      assert UnitOk(s, u) && Unused(s, u, s.w.tmp);
    }
  }

  lemma RenameKeeps(t: Tool, s: State)
    requires Safe(t, s) && Apply(t, s, Rename).Some?
    ensures Safe(t, Apply(t, s, Rename).value)
  {
    var s' := Apply(t, s, Rename).value;
    forall u | 0 <= u < t.units
      ensures UnitOk(s', u)
    {
      assert UnitOk(s, u) && Unused(s, u, s.w.tmp);
    }
  }

  lemma QuietKeeps(t: Tool, s: State, a: Act)
    requires Safe(t, s) && Apply(t, s, a).Some?
    requires a.Edit? || a.Poll? || a.ReadSources? || a.SourcesUnreadable? || a.Record? || a.EndPass?
    ensures Safe(t, Apply(t, s, a).value)
  {
    var s' := Apply(t, s, a).value;
    forall u | 0 <= u < t.units
      ensures UnitOk(s', u)
      ensures s.w.Linking? || s.w.Publishing? ==> Unused(s', u, s.w.tmp)
    {
      assert UnitOk(s, u);
      assert s.w.Linking? || s.w.Publishing? ==> Unused(s, u, s.w.tmp);
    }
  }

  lemma StepKeeps(t: Tool, s: State, a: Act)
    requires Safe(t, s) && Apply(t, s, a).Some?
    ensures Safe(t, Apply(t, s, a).value)
  {
    hide Safe, Apply;
    match a
    case CheckUnit(ok) => CheckKeeps(t, s, ok);
    case FinishLink(ok) => LinkKeeps(t, s, ok);
    case Rename => RenameKeeps(t, s);
    case Stat(u) => StatKeeps(t, s, u);
    case Open(u) => OpenKeeps(t, s, u);
    case DlOpen(u, ok) => DlOpenKeeps(t, s, u, ok);
    case _ => QuietKeeps(t, s, a);
  }

  // A step never takes away what runs, and what runs is complete and never replaced by something older; a failed
  // build or load leaves it as it was.
  lemma NeverBackwards(t: Tool, s: State, a: Act, u: nat)
    requires Safe(t, s) && Apply(t, s, a).Some? && u < t.units && s.host[u].handle.Some?
    ensures var s' := Apply(t, s, a).value;
            && |s'.host| == |s.host| && s'.host[u].handle.Some?
            && Published(s', s'.host[u].handle.value)
            && s.host[u].handle.value < |s'.files|
            && s'.files[s.host[u].handle.value].mtime <= s'.files[s'.host[u].handle.value].mtime
            && s'.files[s.host[u].handle.value].code == s.files[s.host[u].handle.value].code
    ensures a != DlOpen(u, true) ==> Apply(t, s, a).value.host[u].handle == s.host[u].handle
  {
    StepKeeps(t, s, a);
    assert UnitOk(s, u);
    assert UnitOk(Apply(t, s, a).value, u);
    if s.w.Linking? {
      assert Unused(s, u, s.w.tmp);
    }
  }

  // ---- the sidecar and the watch time ----

  // Unit u's published file was made from code c's unit.
  predicate Built(t: Tool, s: State, c: int, u: nat)
    requires u < |s.path|
  {
    s.path[u].Some? && s.path[u].value < |s.files| && s.files[s.path[u].value].complete
    && t.code(c, u) == Some(s.files[s.path[u].value].code)
  }

  // Without accidents: a recorded hash is that of the published code, except between a rename and its record; a pass
  // reads the sources as they were when it sampled them or later; and the watch time reaches the sources' time only
  // when every unit is built from them.
  ghost predicate Fresh(t: Tool, s: State) {
    && |s.path| == t.units && |s.side| == t.units && s.watch <= s.srcTime
    && (forall u :: 0 <= u < t.units && s.side[u].Some? && !(s.w.Recording? && s.w.u == u) ==>
          s.path[u].Some? && s.path[u].value < |s.files| && s.side[u] == Some(t.hash(s.files[s.path[u].value].code)))
    && (s.watch == s.srcTime ==> s.w == Waiting && forall u :: 0 <= u < t.units ==> Built(t, s, s.src, u))
    && (match s.w
        case Waiting => true
        case Sampled(m) => s.watch < m <= s.srcTime
        case Checking(m, c, u) => PassOk(t, s, m, c, u)
        case Linking(m, c, u, tmp) =>
          PassOk(t, s, m, c, u) && u < t.units && tmp < |s.files| && t.code(c, u) == Some(s.files[tmp].code)
        case Publishing(m, c, u, tmp) =>
          PassOk(t, s, m, c, u) && u < t.units && tmp < |s.files| && s.files[tmp].complete && t.code(c, u) == Some(s.files[tmp].code)
        case Recording(m, c, u) => PassOk(t, s, m, c, u) && u < t.units && Built(t, s, c, u))
  }

  predicate PassOk(t: Tool, s: State, m: nat, c: int, u: nat)
    requires |s.path| == t.units
  {
    && s.watch < m <= s.srcTime && (m == s.srcTime ==> c == s.src) && u <= t.units && Compiles(t, c)
    && forall v :: 0 <= v < u ==> Built(t, s, c, v)
  }

  ghost predicate Good(t: Tool, s: State) { Safe(t, s) && (s.clean ==> Fresh(t, s)) }

  lemma CheckFresh(t: Tool, s: State, ok: bool)
    requires NoCollision(t) && Safe(t, s) && Fresh(t, s) && Apply(t, s, CheckUnit(ok)).Some?
    ensures Fresh(t, Apply(t, s, CheckUnit(ok)).value)
  {
    var s' := Apply(t, s, CheckUnit(ok)).value;
    var u := s.w.u;
    assert UnitOk(s, u);
    forall v | 0 <= v < t.units && Built(t, s, s.w.c, v)
      ensures Built(t, s', s.w.c, v)
    {
    }
  }

  lemma LinkFresh(t: Tool, s: State, ok: bool)
    requires Safe(t, s) && Fresh(t, s) && Apply(t, s, FinishLink(ok)).Some?
    ensures Fresh(t, Apply(t, s, FinishLink(ok)).value)
  {
    var s' := Apply(t, s, FinishLink(ok)).value;
    forall v | 0 <= v < t.units
      ensures Built(t, s, s.w.c, v) ==> Built(t, s', s.w.c, v)
      ensures s.path[v] == s'.path[v]
      ensures s.path[v].Some? ==> s.path[v].value < |s.files| && s'.files[s.path[v].value].code == s.files[s.path[v].value].code
    {
      assert UnitOk(s, v) && Unused(s, v, s.w.tmp);
    }
  }

  lemma RenameFresh(t: Tool, s: State)
    requires Safe(t, s) && Fresh(t, s) && Apply(t, s, Rename).Some?
    ensures Fresh(t, Apply(t, s, Rename).value)
  {
    var s' := Apply(t, s, Rename).value;
    forall v | 0 <= v < t.units && v != s.w.u
      ensures Built(t, s, s.w.c, v) ==> Built(t, s', s.w.c, v)
    {
    }
  }

  lemma OtherFresh(t: Tool, s: State, a: Act)
    requires Safe(t, s) && Fresh(t, s) && Apply(t, s, a).Some? && Apply(t, s, a).value.clean
    requires a.Edit? || a.Poll? || a.ReadSources? || a.EndPass? || a.Record?
    ensures Fresh(t, Apply(t, s, a).value)
  {
    var s' := Apply(t, s, a).value;
    forall v, c | 0 <= v < t.units
      ensures Built(t, s', c, v) == Built(t, s, c, v)
    {
    }
  }

  lemma HostFresh(t: Tool, s: State, a: Act)
    requires Safe(t, s) && Fresh(t, s) && Apply(t, s, a).Some? && (a.Stat? || a.Open? || a.DlOpen?)
    ensures Fresh(t, Apply(t, s, a).value)
  {
    var s' := Apply(t, s, a).value;
    assert s' == s.(host := s'.host);
    hide Apply;
    forall v, c | 0 <= v < t.units
      ensures Built(t, s', c, v) == Built(t, s, c, v)
    {
    }
  }

  // Every step of every interleaving keeps both.
  lemma GoodKeeps(t: Tool, s: State, a: Act)
    requires NoCollision(t) && Good(t, s) && Apply(t, s, a).Some?
    ensures Good(t, Apply(t, s, a).value)
  {
    hide Safe, Fresh;
    StepKeeps(t, s, a);
    if Apply(t, s, a).value.clean {
      match a
      case CheckUnit(ok) => CheckFresh(t, s, ok);
      case FinishLink(ok) => LinkFresh(t, s, ok);
      case Rename => RenameFresh(t, s);
      case Stat(_) => HostFresh(t, s, a);
      case Open(_) => HostFresh(t, s, a);
      case DlOpen(_, _) => HostFresh(t, s, a);
      case SourcesUnreadable =>
      case _ => OtherFresh(t, s, a);
    }
  }

  lemma BeginsGood(t: Tool, s: State)
    requires Begins(t, s)
    ensures Good(t, s)
  {
    forall u | 0 <= u < t.units
      ensures UnitOk(s, u) && Built(t, s, s.src, u)
    {
    }
  }

  // ---- runs ----

  function Run(t: Tool, s: State, acts: seq<Act>): Option<State>
    decreases |acts|
  {
    if acts == [] then Some(s) else match Apply(t, s, acts[0]) case None => None case Some(r) => Run(t, r, acts[1..])
  }

  lemma {:induction false} RunGood(t: Tool, s: State, acts: seq<Act>)
    requires NoCollision(t) && Good(t, s) && Run(t, s, acts).Some?
    ensures Good(t, Run(t, s, acts).value)
    decreases |acts|
  {
    hide Good, Apply, NoCollision;
    if acts != [] {
      GoodKeeps(t, s, acts[0]);
      RunGood(t, Apply(t, s, acts[0]).value, acts[1..]);
    }
  }

  // Over a whole run: what runs at the end is complete and no older than what ran before.
  lemma {:induction false} RunNeverBackwards(t: Tool, s: State, acts: seq<Act>, u: nat)
    requires NoCollision(t) && Good(t, s) && Run(t, s, acts).Some? && u < t.units && s.host[u].handle.Some?
    ensures var r := Run(t, s, acts).value;
            && u < |r.host| && r.host[u].handle.Some? && Published(r, r.host[u].handle.value)
            && s.host[u].handle.value < |r.files|
            && r.files[s.host[u].handle.value].mtime <= r.files[r.host[u].handle.value].mtime
    decreases |acts|
  {
    hide Apply, NoCollision, Fresh;
    if acts == [] {
      assert UnitOk(s, u);
    } else {
      var s1 := Apply(t, s, acts[0]).value;
      GoodKeeps(t, s, acts[0]);
      NeverBackwards(t, s, acts[0], u);
      RunNeverBackwards(t, s1, acts[1..], u);
      LoadedSettled(t, s, acts[0], u);
      RunKeepsFile(t, s1, acts[1..], s.host[u].handle.value, s1.host[u].handle.value, u);
    }
  }

  // What ran before a step and what runs after it are complete, and neither is being linked.
  lemma LoadedSettled(t: Tool, s: State, a: Act, u: nat)
    requires Safe(t, s) && Apply(t, s, a).Some? && u < t.units && s.host[u].handle.Some?
    ensures var s', f := Apply(t, s, a).value, s.host[u].handle.value;
            && u < |s'.host| && s'.host[u].handle.Some? && f < |s'.files| && s'.host[u].handle.value < |s'.files|
            && s'.files[f].complete && s'.files[s'.host[u].handle.value].complete
            && Settled(s', f) && Settled(s', s'.host[u].handle.value)
  {
    assert |s.host| == t.units;
    hide Apply, Safe, Settled;
    HandleSettled(t, s, u);
    FileKept(t, s, a, s.host[u].handle.value);
    StepKeeps(t, s, a);
    NeverBackwards(t, s, a, u);
    HandleSettled(t, Apply(t, s, a).value, u);
  }

  lemma HandleSettled(t: Tool, s: State, u: nat)
    requires Safe(t, s) && u < t.units && u < |s.host| && s.host[u].handle.Some?
    ensures s.host[u].handle.value < |s.files| && s.files[s.host[u].handle.value].complete && Settled(s, s.host[u].handle.value)
  {
    assert UnitOk(s, u);
    if s.w.Linking? {
      assert Unused(s, u, s.w.tmp);
    }
  }

  // A file that was published keeps its time and code.
  lemma {:induction false} RunKeepsFile(t: Tool, s: State, acts: seq<Act>, f: nat, g: nat, u: nat)
    requires NoCollision(t) && Good(t, s) && Run(t, s, acts).Some?
    requires f < |s.files| && g < |s.files| && s.files[f].complete && s.files[g].complete && Settled(s, f) && Settled(s, g)
    ensures var r := Run(t, s, acts).value;
            f < |r.files| && g < |r.files| && r.files[f] == s.files[f] && r.files[g] == s.files[g]
    decreases |acts|
  {
    hide NoCollision, Good, Apply, Settled;
    if acts != [] {
      GoodKeeps(t, s, acts[0]);
      FileKept(t, s, acts[0], f);
      FileKept(t, s, acts[0], g);
      RunKeepsFile(t, Apply(t, s, acts[0]).value, acts[1..], f, g, u);
    }
  }

  lemma FileKept(t: Tool, s: State, a: Act, f: nat)
    requires Apply(t, s, a).Some? && f < |s.files| && s.files[f].complete && Settled(s, f)
    ensures var r := Apply(t, s, a).value; f < |r.files| && r.files[f] == s.files[f] && Settled(r, f)
  {
  }

  // Not the file being linked.
  predicate Settled(s: State, f: nat) { s.w.Linking? ==> s.w.tmp != f }

  // ---- one check of the host ----

  predicate Idle(s: State) { s.w == Waiting && s.watch == s.srcTime }

  // One reload check of the host in which the load succeeds.
  function Ensure(t: Tool, s: State, u: nat): State {
    match Apply(t, s, Stat(u))
    case None => s
    case Some(a) =>
      if u < |a.host| && a.host[u].load.Statted? then
        (match Apply(t, a, Open(u))
         case None => a
         case Some(b) => match Apply(t, b, DlOpen(u, true)) case None => b case Some(c) => c)
      else a
  }

  // With the watcher at rest and no reload half done, the next call into a unit runs the last edit's code.
  lemma EnsureLoads(t: Tool, s: State, u: nat)
    requires Safe(t, s) && Fresh(t, s) && Idle(s) && u < t.units && s.host[u].load == Ready
    ensures var r := Ensure(t, s, u);
            && u < |r.host| && r.host[u].handle.Some? && r.host[u].handle.value < |r.files|
            && t.code(s.src, u) == Some(r.files[r.host[u].handle.value].code)
  {
    assert UnitOk(s, u) && Built(t, s, s.src, u);
    if s.host[u].handle.Some? {
      assert Follows(s, s.path[u], s.host[u].handle.value, s.host[u].mtime);
    }
  }

  // ---- accidents ----

  function OneUnit(): Tool { Tool(1, (c, u) => Some(c), c => c) }

  // One unit built from sources 7 at time 1.
  function Started(): State {
    State(7, 1, [File(7, true, 1)], [Some(0)], [Some(7)], 1, Waiting, [Unit(None, 0, Ready)], 1, true)
  }

  // If the sources cannot be read when the watcher wakes, the edit is forgotten: the watcher is at rest and the
  // published unit is still the old one.
  lemma UnreadableEditIsLost()
    ensures Begins(OneUnit(), Started())
    ensures var r := Run(OneUnit(), Started(), [Edit(8, 2), Poll, SourcesUnreadable]);
            r.Some? && Idle(r.value) && r.value.src == 8 && r.value.files[0].code == 7 && r.value.path == [Some(0)]
            && Apply(OneUnit(), r.value, Poll) == r
  {
    var t, s0 := OneUnit(), Started();
    var s1 := s0.(src := 8, srcTime := 2);
    var s2 := s1.(w := Sampled(2));
    var s3 := s2.(watch := 2, w := Waiting, clean := false);
    var acts := [Edit(8, 2), Poll, SourcesUnreadable];
    RunStep(t, s0, acts, s1);
    RunStep(t, s1, acts[1..], s2);
    RunStep(t, s2, acts[1..][1..], s3);
    assert acts[1..][1..][1..] == [];
    assert Run(t, s3, []) == Some(s3);
  }

  lemma RunStep(t: Tool, s: State, acts: seq<Act>, r: State)
    requires acts != [] && Apply(t, s, acts[0]) == Some(r)
    ensures Run(t, s, acts) == Run(t, r, acts[1..])
  {
  }

  // A sidecar that could not be written keeps the old hash: after an edit is taken back, the unit counts as unchanged
  // and the undone code stays published.
  lemma LostSidecarKeepsUndoneCode()
    ensures var s := Started().(
              src := 7, srcTime := 3, watch := 2, files := [File(7, true, 1), File(8, true, 2)], path := [Some(1)], clock := 2,
              clean := false);
            var r := Run(OneUnit(), s, [Poll, ReadSources, CheckUnit(true), EndPass]);
            && (var q := Started().(src := 8, srcTime := 2, files := [File(7, true, 1), File(8, true, 2)], path := [Some(1)],
                                    clock := 2, w := Recording(2, 8, 0));
                Run(OneUnit(), q, [Record(false), EndPass, Edit(7, 3)]) == Some(s))
            && r.Some? && Idle(r.value) && r.value.src == 7 && r.value.files[r.value.path[0].value].code == 8
  {
    var t := OneUnit();
    var fs := [File(7, true, 1), File(8, true, 2)];
    var q := Started().(src := 8, srcTime := 2, files := fs, path := [Some(1)], clock := 2, w := Recording(2, 8, 0));
    var q1 := q.(w := Checking(2, 8, 1), clean := false);
    var q2 := q1.(watch := 2, w := Waiting);
    var s := q2.(src := 7, srcTime := 3);
    var undo := [Record(false), EndPass, Edit(7, 3)];
    RunStep(t, q, undo, q1);
    RunStep(t, q1, undo[1..], q2);
    RunStep(t, q2, undo[1..][1..], s);
    assert undo[1..][1..][1..] == [] && Run(t, s, []) == Some(s);
    var s1 := s.(w := Sampled(3));
    var s2 := s.(w := Checking(3, 7, 0));
    var s3 := s.(w := Checking(3, 7, 1));
    var s4 := s.(watch := 3);
    var acts := [Poll, ReadSources, CheckUnit(true), EndPass];
    assert Compiles(t, 7);
    RunStep(t, s, acts, s1);
    RunStep(t, s1, acts[1..], s2);
    RunStep(t, s2, acts[1..][1..], s3);
    RunStep(t, s3, acts[1..][1..][1..], s4);
    assert acts[1..][1..][1..][1..] == [] && Run(t, s4, []) == Some(s4);
  }
}

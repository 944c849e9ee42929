// The object cache shared by any number of builds at once: an object's name in the cache leads, from the moment it
// exists, to the complete object for the code with that hash, so a link with reused objects is a link from scratch.
module ObjectCache {
  import opened Bytes

  // The hash of a unit's code, salted with the toolchain, and what the toolchain makes of the code.
  datatype Tool = Tool(hash: int -> int, compile: int -> int)

  ghost predicate NoCollision(t: Tool) { forall a, b :: t.hash(a) == t.hash(b) ==> a == b }

  // Names in the cache directory: an object under its hash, a process's temporary copy of one.
  datatype Name = Obj(h: int) | Tmp(h: int, pid: int)

  datatype File = File(obj: int, complete: bool)

  // A build works through its units' code; `used` are the objects it will link.
  datatype Stage = Looking | Compiling | Built | Copying(ino: nat) | Copied(ino: nat) | Stopped
  datatype Build = Build(code: seq<int>, u: nat, used: seq<int>, stage: Stage)

  datatype State = State(files: seq<File>, dir: map<Name, nat>, builds: map<int, Build>)

  datatype Act =
    | Start(pid: int, code: seq<int>)
    | Look(pid: int)
    | Compile(pid: int, ok: bool)
    | RenameDirect(pid: int, ok: bool)
    | StartCopy(pid: int)
    | FinishCopy(pid: int, ok: bool)
    | RenameCopy(pid: int, ok: bool)
    | Die(pid: int)

  function Move(s: State, pid: int, b: Build): State { s.(builds := s.builds[pid := b]) }

  function NextUnit(b: Build, h: int): Build { Build(b.code, b.u + 1, b.used + [h], Looking) }

  function Apply(t: Tool, s: State, a: Act): Option<State> {
    if a.Start? then
      if a.pid in s.builds then None else Some(Move(s, a.pid, Build(a.code, 0, [], Looking)))
    else if a.pid !in s.builds then None
    else if a.Die? then Some(s.(builds := s.builds - {a.pid}))
    else
      var b := s.builds[a.pid];
      if b.u >= |b.code| then None
      else
        var h := t.hash(b.code[b.u]);
        match a
        case Look(pid) =>
          if b.stage != Looking then None
          else Some(Move(s, pid, if Obj(h) in s.dir then NextUnit(b, h) else b.(stage := Compiling)))
        case Compile(pid, ok) =>
          if b.stage != Compiling then None else Some(Move(s, pid, b.(stage := if ok then Built else Stopped)))
        case RenameDirect(pid, ok) =>
          // The private object moves under its name, unless the two lie on different file systems.
          if b.stage != Built || !ok then None
          else
            Some(Move(s.(files := s.files + [File(t.compile(b.code[b.u]), true)], dir := s.dir[Obj(h) := |s.files|]),
                      pid, NextUnit(b, h)))
        case StartCopy(pid) =>
          // The copy's name is opened for writing: an old file of that name is emptied, else a new one is made.
          if b.stage != Built then None
          else
            var ino := if Tmp(h, pid) in s.dir then s.dir[Tmp(h, pid)] else |s.files|;
            if ino > |s.files| then None
            else
              var f := File(t.compile(b.code[b.u]), false);
              Some(Move(s.(files := if ino < |s.files| then s.files[ino := f] else s.files + [f],
                           dir := s.dir[Tmp(h, pid) := ino]),
                        pid, b.(stage := Copying(ino))))
        case FinishCopy(pid, ok) =>
          if !b.stage.Copying? || b.stage.ino >= |s.files| then None
          else if ok then
            Some(Move(s.(files := s.files[b.stage.ino := s.files[b.stage.ino].(complete := true)]), pid,
                      b.(stage := Copied(b.stage.ino))))
          else Some(Move(s, pid, b.(stage := Stopped)))
        case RenameCopy(pid, ok) =>
          if !b.stage.Copied? then None
          else if ok then
            Some(Move(s.(dir := (s.dir - {Tmp(h, pid)})[Obj(h) := b.stage.ino]), pid, NextUnit(b, h)))
          else Some(Move(s.(dir := s.dir - {Tmp(h, pid)}), pid, b.(stage := Stopped)))
        case _ => None
  }

  // ---- what every step keeps ----

  // An object's name leads to the complete object for every piece of code with that hash.
  ghost predicate ObjOk(t: Tool, s: State, h: int)
    requires Obj(h) in s.dir
  {
    var i := s.dir[Obj(h)];
    i < |s.files| && s.files[i].complete && exists c :: t.hash(c) == h && s.files[i].obj == t.compile(c)
  }

  // No two names lead to the same file.
  predicate NamesApart(s: State) {
    forall a, b :: a in s.dir && b in s.dir && a != b ==> s.dir[a] != s.dir[b]
  }

  ghost predicate BuildOk(t: Tool, s: State, pid: int)
    requires pid in s.builds
  {
    var b := s.builds[pid];
    && b.u <= |b.code| && |b.used| == b.u
    && (forall i :: 0 <= i < b.u ==> b.used[i] == t.hash(b.code[i]) && Obj(b.used[i]) in s.dir)
    && (b.stage.Copying? || b.stage.Copied? ==>
          && b.u < |b.code| && Tmp(t.hash(b.code[b.u]), pid) in s.dir && s.dir[Tmp(t.hash(b.code[b.u]), pid)] == b.stage.ino
          && b.stage.ino < |s.files| && s.files[b.stage.ino].obj == t.compile(b.code[b.u])
          && (b.stage.Copied? ==> s.files[b.stage.ino].complete))
  }

  ghost predicate Sound(t: Tool, s: State) {
    && NamesApart(s) && (forall n :: n in s.dir ==> s.dir[n] < |s.files|)
    && (forall h :: Obj(h) in s.dir ==> ObjOk(t, s, h))
    && (forall pid :: pid in s.builds ==> BuildOk(t, s, pid))
  }

  lemma StartKeeps(t: Tool, s: State, a: Act)
    requires Sound(t, s) && Apply(t, s, a).Some? && (a.Start? || a.Die? || a.Look? || a.Compile?)
    ensures Sound(t, Apply(t, s, a).value)
  {
    var r := Apply(t, s, a).value;
    forall h | Obj(h) in r.dir
      ensures ObjOk(t, r, h)
    {
      assert ObjOk(t, s, h);
    }
    forall pid | pid in r.builds
      ensures BuildOk(t, r, pid)
    {
      if pid in s.builds {
        assert BuildOk(t, s, pid);
      }
    }
  }

  lemma DirectKeeps(t: Tool, s: State, pid: int)
    requires Sound(t, s) && Apply(t, s, RenameDirect(pid, true)).Some?
    ensures Sound(t, Apply(t, s, RenameDirect(pid, true)).value)
  {
    var r := Apply(t, s, RenameDirect(pid, true)).value;
    var b := s.builds[pid];
    var c := b.code[b.u];
    forall h | Obj(h) in r.dir
      ensures ObjOk(t, r, h)
    {
      if h != t.hash(c) {
        assert ObjOk(t, s, h);
      } else {
        assert t.hash(c) == h && r.files[r.dir[Obj(h)]].obj == t.compile(c);
      }
    }
    forall q | q in r.builds
      ensures BuildOk(t, r, q)
    {
      assert BuildOk(t, s, q);
    }
  }

  lemma StartCopyKeeps(t: Tool, s: State, pid: int)
    requires Sound(t, s) && Apply(t, s, StartCopy(pid)).Some?
    ensures Sound(t, Apply(t, s, StartCopy(pid)).value)
  {
    var r := Apply(t, s, StartCopy(pid)).value;
    var b := s.builds[pid];
    var tmp := Tmp(t.hash(b.code[b.u]), pid);
    forall h | Obj(h) in r.dir
      ensures ObjOk(t, r, h)
    {
      assert ObjOk(t, s, h);
      assert Obj(h) in s.dir && Obj(h) != tmp;
    }
    forall q | q in r.builds
      ensures BuildOk(t, r, q)
    {
      assert BuildOk(t, s, q);
      var d := s.builds[q];
      if q != pid && (d.stage.Copying? || d.stage.Copied?) {
        assert Tmp(t.hash(d.code[d.u]), q) != tmp;
      }
    }
  }

  lemma FinishCopyKeeps(t: Tool, s: State, pid: int, ok: bool)
    requires Sound(t, s) && Apply(t, s, FinishCopy(pid, ok)).Some?
    ensures Sound(t, Apply(t, s, FinishCopy(pid, ok)).value)
  {
    var r := Apply(t, s, FinishCopy(pid, ok)).value;
    forall h | Obj(h) in r.dir
      ensures ObjOk(t, r, h)
    {
      assert ObjOk(t, s, h);
    }
    forall q | q in r.builds
      ensures BuildOk(t, r, q)
    {
      assert BuildOk(t, s, q);
    }
  }

  lemma RenameCopyKeeps(t: Tool, s: State, pid: int, ok: bool)
    requires Sound(t, s) && Apply(t, s, RenameCopy(pid, ok)).Some?
    ensures Sound(t, Apply(t, s, RenameCopy(pid, ok)).value)
  {
    var r := Apply(t, s, RenameCopy(pid, ok)).value;
    var b := s.builds[pid];
    assert BuildOk(t, s, pid);
    var c := b.code[b.u];
    var tmp := Tmp(t.hash(c), pid);
    forall h | Obj(h) in r.dir
      ensures ObjOk(t, r, h)
    {
      if ok && h == t.hash(c) {
        assert t.hash(c) == h && r.files[r.dir[Obj(h)]].obj == t.compile(c);
      } else {
        assert ObjOk(t, s, h);
      }
    }
    forall q | q in r.builds
      ensures BuildOk(t, r, q)
    {
      assert BuildOk(t, s, q);
      var d := s.builds[q];
      if q != pid && (d.stage.Copying? || d.stage.Copied?) {
        assert Tmp(t.hash(d.code[d.u]), q) != tmp;
      }
    }
  }

  lemma StepKeeps(t: Tool, s: State, a: Act)
    requires Sound(t, s) && Apply(t, s, a).Some?
    ensures Sound(t, Apply(t, s, a).value)
  {
    hide Sound;
    match a
    case RenameDirect(pid, ok) => DirectKeeps(t, s, pid);
    case StartCopy(pid) => StartCopyKeeps(t, s, pid);
    case FinishCopy(pid, ok) => FinishCopyKeeps(t, s, pid, ok);
    case RenameCopy(pid, ok) => RenameCopyKeeps(t, s, pid, ok);
    case _ => StartKeeps(t, s, a);
  }

  function Run(t: Tool, s: State, acts: seq<Act>): Option<State>
    decreases |acts|
  {
    if acts == [] then Some(s) else match Apply(t, s, acts[0]) case None => None case Some(r) => Run(t, r, acts[1..])
  }

  lemma {:induction false} RunKeeps(t: Tool, s: State, acts: seq<Act>)
    requires Sound(t, s) && Run(t, s, acts).Some?
    ensures Sound(t, Run(t, s, acts).value)
    decreases |acts|
  {
    hide Sound, Apply;
    if acts != [] {
      StepKeeps(t, s, acts[0]);
      RunKeeps(t, Apply(t, s, acts[0]).value, acts[1..]);
    }
  }

  const EMPTY: State := State([], map[], map[])

  // Under every interleaving of any number of builds, killed ones among them, from an empty cache: an object that is
  // there is complete and is the one compiled from the code with that hash.
  lemma CacheIsRight(t: Tool, acts: seq<Act>, c: int)
    requires NoCollision(t) && Run(t, EMPTY, acts).Some?
    requires Obj(t.hash(c)) in Run(t, EMPTY, acts).value.dir
    ensures var s := Run(t, EMPTY, acts).value;
            var i := s.dir[Obj(t.hash(c))];
            i < |s.files| && s.files[i] == File(t.compile(c), true)
  {
    RunKeeps(t, EMPTY, acts);
    var s := Run(t, EMPTY, acts).value;
    assert ObjOk(t, s, t.hash(c));
  }

  // What a build that is through with its units hands to the linker.
  function Linked(s: State, b: Build): seq<int> {
    seq(|b.used|, i requires 0 <= i < |b.used| =>
      if Obj(b.used[i]) in s.dir && s.dir[Obj(b.used[i])] < |s.files| then s.files[s.dir[Obj(b.used[i])]].obj else 0)
  }

  // A finished build links the objects of its own code, whoever compiled them.
  lemma LinkIsFromScratch(t: Tool, acts: seq<Act>, pid: int)
    requires NoCollision(t) && Run(t, EMPTY, acts).Some?
    requires var s := Run(t, EMPTY, acts).value; pid in s.builds && s.builds[pid].u == |s.builds[pid].code|
    ensures var s := Run(t, EMPTY, acts).value;
            var b := s.builds[pid];
            Linked(s, b) == seq(|b.code|, i requires 0 <= i < |b.code| => t.compile(b.code[i]))
  {
    RunKeeps(t, EMPTY, acts);
    var s := Run(t, EMPTY, acts).value;
    var b := s.builds[pid];
    assert BuildOk(t, s, pid);
    forall i | 0 <= i < |b.code|
      ensures Linked(s, b)[i] == t.compile(b.code[i])
    {
      CacheIsRight(t, acts, b.code[i]);
    }
  }

  // ---- a build comes to its end, and reuses what is there ----

  lemma {:induction false} RunAppend(t: Tool, s: State, a: seq<Act>, b: seq<Act>)
    ensures Run(t, s, a + b) == (match Run(t, s, a) case None => None case Some(r) => Run(t, r, b))
    decreases |a|
  {
    hide Apply;
    if a == [] {
      assert a + b == b;
    } else {
      assert (a + b)[0] == a[0] && (a + b)[1..] == a[1..] + b;
      if Apply(t, s, a[0]).Some? {
        RunAppend(t, Apply(t, s, a[0]).value, a[1..], b);
      }
    }
  }

  // The steps of one build over its remaining units: a unit whose object is there is looked up, any other is compiled and
  // put there, under the name alone or by way of a copy.
  function Steps(t: Tool, pid: int, code: seq<int>, there: set<int>, copying: bool): seq<Act>
    decreases |code|
  {
    if code == [] then []
    else UnitActs(pid, t.hash(code[0]) in there, copying) + Steps(t, pid, code[1..], there + {t.hash(code[0])}, copying)
  }

  function There(s: State): set<int> { set n | n in s.dir && n.Obj? :: n.h }

  lemma ThereIs(s: State, h: int)
    ensures h in There(s) <==> Obj(h) in s.dir
  {
    if Obj(h) in s.dir {
      assert Obj(h).h in There(s);
    }
  }

  function UnitActs(pid: int, hit: bool, copying: bool): seq<Act> {
    if hit then [Look(pid)]
    else if copying then [Look(pid), Compile(pid, true), StartCopy(pid), FinishCopy(pid, true), RenameCopy(pid, true)]
    else [Look(pid), Compile(pid, true), RenameDirect(pid, true)]
  }

  // The unit is done, and its object is there.
  ghost predicate UnitDone(t: Tool, s: State, pid: int, acts: seq<Act>, r: State)
    requires pid in s.builds && s.builds[pid].u < |s.builds[pid].code|
  {
    var b := s.builds[pid];
    var h := t.hash(b.code[b.u]);
    Run(t, s, acts) == Some(r) && pid in r.builds && r.builds[pid] == NextUnit(b, h) && There(r) == There(s) + {h}
  }

  ghost predicate AtUnit(t: Tool, s: State, pid: int) {
    Sound(t, s) && pid in s.builds && s.builds[pid].stage == Looking && s.builds[pid].u < |s.builds[pid].code|
  }

  lemma ThereGrows(s: State, r: State, h: int)
    requires forall x :: Obj(x) in r.dir <==> Obj(x) in s.dir || x == h
    ensures There(r) == There(s) + {h}
  {
    forall x
      ensures x in There(r) <==> x in There(s) || x == h
    {
      ThereIs(s, x);
      ThereIs(r, x);
    }
  }

  lemma HitSteps(t: Tool, s: State, pid: int) returns (r: State)
    requires AtUnit(t, s, pid) && Obj(t.hash(s.builds[pid].code[s.builds[pid].u])) in s.dir
    ensures UnitDone(t, s, pid, UnitActs(pid, true, false), r) && UnitActs(pid, true, true) == UnitActs(pid, true, false)
  {
    var b := s.builds[pid];
    r := Move(s, pid, NextUnit(b, t.hash(b.code[b.u])));
    OneAct(t, s, [Look(pid)]);
    ThereGrows(s, r, t.hash(b.code[b.u]));
  }

  // Looked up and compiled.
  lemma CompileSteps(t: Tool, s: State, pid: int, acts: seq<Act>) returns (m: State)
    requires AtUnit(t, s, pid) && Obj(t.hash(s.builds[pid].code[s.builds[pid].u])) !in s.dir
    requires |acts| >= 2 && acts[0] == Look(pid) && acts[1] == Compile(pid, true)
    ensures m == Move(s, pid, s.builds[pid].(stage := Built)) && Run(t, s, acts) == Run(t, m, acts[2..])
  {
    var b := s.builds[pid];
    var s1 := Move(s, pid, b.(stage := Compiling));
    m := Move(s1, pid, b.(stage := Built));
    assert Apply(t, s, acts[0]) == Some(s1) && Apply(t, s1, acts[1]) == Some(m);
    hide Apply;
    assert acts[1..][1..] == acts[2..] && acts[1..][0] == acts[1];
    assert Run(t, s1, acts[1..]) == Run(t, m, acts[2..]);
  }

  lemma DirectSteps(t: Tool, s: State, pid: int) returns (r: State)
    requires AtUnit(t, s, pid) && Obj(t.hash(s.builds[pid].code[s.builds[pid].u])) !in s.dir
    ensures UnitDone(t, s, pid, UnitActs(pid, false, false), r)
  {
    var acts := UnitActs(pid, false, false);
    var m := CompileSteps(t, s, pid, acts);
    r := Apply(t, m, RenameDirect(pid, true)).value;
    assert acts[2..] == [RenameDirect(pid, true)];
    OneAct(t, m, acts[2..]);
    ThereGrows(s, r, t.hash(s.builds[pid].code[s.builds[pid].u]));
    assert r.builds[pid] == NextUnit(s.builds[pid], t.hash(s.builds[pid].code[s.builds[pid].u]));
  }

  lemma CopySteps(t: Tool, s: State, pid: int) returns (r: State)
    requires AtUnit(t, s, pid) && Obj(t.hash(s.builds[pid].code[s.builds[pid].u])) !in s.dir
    ensures UnitDone(t, s, pid, UnitActs(pid, false, true), r)
  {
    var acts := UnitActs(pid, false, true);
    var b := s.builds[pid];
    var m := CompileSteps(t, s, pid, acts);
    r := Copies(t, m, pid);
    assert acts[2..] == [StartCopy(pid), FinishCopy(pid, true), RenameCopy(pid, true)];
    assert (forall n :: n in s.dir ==> s.dir[n] < |s.files|) && m.dir == s.dir && m.files == s.files;
    ThereGrows(s, r, t.hash(b.code[b.u]));
  }

  lemma Copies(t: Tool, m: State, pid: int) returns (r: State)
    requires pid in m.builds && m.builds[pid].stage == Built && m.builds[pid].u < |m.builds[pid].code|
    requires forall n :: n in m.dir ==> m.dir[n] < |m.files|
    ensures Run(t, m, [StartCopy(pid), FinishCopy(pid, true), RenameCopy(pid, true)]) == Some(r)
    ensures var b := m.builds[pid];
            var h := t.hash(b.code[b.u]);
            && pid in r.builds && r.builds[pid] == NextUnit(b, h) && forall x :: Obj(x) in r.dir <==> Obj(x) in m.dir || x == h
  {
    var acts := [StartCopy(pid), FinishCopy(pid, true), RenameCopy(pid, true)];
    var s3 := Apply(t, m, acts[0]).value;
    var s4 := Apply(t, s3, acts[1]).value;
    r := Apply(t, s4, acts[2]).value;
    assert acts[1..][0] == acts[1] && acts[1..][1..] == [acts[2]];
    OneAct(t, s4, [acts[2]]);
    assert Run(t, s3, acts[1..]) == Some(r);
  }

  lemma OneAct(t: Tool, s: State, acts: seq<Act>)
    requires |acts| == 1
    ensures Run(t, s, acts) == Apply(t, s, acts[0])
  {
    hide Apply;
    assert acts[1..] == [];
    match Apply(t, s, acts[0])
    case Some(r) => assert Run(t, r, []) == Some(r);
    case None =>
  }

  // From every state the protocol can reach, and whatever is in the cache: these steps bring a build to its end, and every
  // object of its code is there then.
  lemma {:induction false} BuildFinishes(t: Tool, s: State, pid: int, copying: bool)
    requires Sound(t, s) && pid in s.builds && s.builds[pid].stage == Looking && s.builds[pid].u <= |s.builds[pid].code|
    ensures var b := s.builds[pid];
            var r := Run(t, s, Steps(t, pid, b.code[b.u..], There(s), copying));
            && r.Some? && pid in r.value.builds && r.value.builds[pid].u == |b.code| && r.value.builds[pid].code == b.code
            && forall i :: b.u <= i < |b.code| ==> Obj(t.hash(b.code[i])) in r.value.dir
    decreases |s.builds[pid].code| - s.builds[pid].u
  {
    hide Sound, Apply;
    var b := s.builds[pid];
    var rest := b.code[b.u..];
    if rest != [] {
      var h := t.hash(b.code[b.u]);
      ThereIs(s, h);
      var first := UnitActs(pid, h in There(s), copying);
      var r: State;
      if h in There(s) {
        r := HitSteps(t, s, pid);
      } else if copying {
        r := CopySteps(t, s, pid);
      } else {
        r := DirectSteps(t, s, pid);
      }
      assert rest[0] == b.code[b.u] && rest[1..] == b.code[b.u + 1..];
      RunKeeps(t, s, first);
      BuildFinishes(t, r, pid, copying);
      RunAppend(t, s, first, Steps(t, pid, rest[1..], There(r), copying));
      var last := Run(t, r, Steps(t, pid, rest[1..], There(r), copying)).value;
      ThereIs(r, h);
      StillThere(t, r, Steps(t, pid, rest[1..], There(r), copying), h);
    }
  }

  // An object stays.
  lemma {:induction false} StillThere(t: Tool, s: State, acts: seq<Act>, h: int)
    requires Run(t, s, acts).Some? && Obj(h) in s.dir
    ensures Obj(h) in Run(t, s, acts).value.dir
    decreases |acts|
  {
    if acts != [] {
      assert Obj(h) in Apply(t, s, acts[0]).value.dir;
      StillThere(t, Apply(t, s, acts[0]).value, acts[1..], h);
    }
  }

  // For every build whose objects are all there: it only looks them up, and compiles nothing.
  lemma {:induction false} NothingCompiled(t: Tool, pid: int, code: seq<int>, there: set<int>, copying: bool)
    requires forall i :: 0 <= i < |code| ==> t.hash(code[i]) in there
    ensures |Steps(t, pid, code, there, copying)| == |code|
    ensures forall i :: 0 <= i < |code| ==> Steps(t, pid, code, there, copying)[i] == Look(pid)
    decreases |code|
  {
    if code != [] {
      assert there + {t.hash(code[0])} == there;
      NothingCompiled(t, pid, code[1..], there, copying);
    }
  }

  // ---- why the copy has a name of its own ----

  // Copying straight to the object's name: what a second build finds there while the first still copies.
  function CopyInPlace(t: Tool, s: State, c: int): State {
    s.(files := s.files + [File(t.compile(c), false)], dir := s.dir[Obj(t.hash(c)) := |s.files|])
  }

  lemma CopyInPlaceIsSeenHalfDone(t: Tool, c: int)
    ensures var s := CopyInPlace(t, EMPTY, c);
            var r := Run(t, s, [Start(1, [c]), Look(1)]);
            && r == Some(s.(builds := map[1 := Build([c], 1, [t.hash(c)], Looking)]))
            && s.dir == map[Obj(t.hash(c)) := 0] && s.files == [File(t.compile(c), false)]
  {
    var s := CopyInPlace(t, EMPTY, c);
    var acts := [Start(1, [c]), Look(1)];
    var s1 := Move(s, 1, Build([c], 0, [], Looking));
    var s2 := Move(s1, 1, NextUnit(s1.builds[1], t.hash(c)));
    assert Apply(t, s, acts[0]) == Some(s1) && Apply(t, s1, acts[1]) == Some(s2);
    assert acts[1..] == [acts[1]] && acts[1..][1..] == [];
    assert Run(t, s2, []) == Some(s2);
    assert Run(t, s1, acts[1..]) == Run(t, s2, []);
    assert [] + [t.hash(c)] == [t.hash(c)];
    assert s2.builds == map[1 := Build([c], 1, [t.hash(c)], Looking)];
  }
}

// GPU residency as a contract: host columns and their device copies must together look like one memory. This module
// defines what each runtime operation does to the two copies, and proves when a run cannot tell them from one.
module GpuMemory {
  import opened Bytes

  // A host column, by its address.
  type Col = nat

  // A map over columns: from the contents of its columns to their new contents, length by length.
  type Kernel = seq<seq<byte>> -> seq<seq<byte>>

  predicate SameShape(a: seq<seq<byte>>, b: seq<seq<byte>>) {
    |a| == |b| && forall i :: 0 <= i < |a| ==> |a[i]| == |b[i]|
  }

  ghost predicate KernelOk(k: Kernel) { forall xs :: SameShape(xs, k(xs)) }

  // Dirty: the device has written the column since it was last copied back.
  datatype Copy = Copy(data: seq<byte>, dirty: bool)

  datatype World = World(host: map<Col, seq<byte>>, cache: map<Col, Copy>)

  const MAX_RESIDENT: nat := 256
  const MAX_COL: nat := 16

  // ---- a dispatch ----

  // A column of a resident dispatch gets a device copy if it has none and there is room.
  function Enter(w: World, c: Col): World {
    if |w.cache| < MAX_RESIDENT && c !in w.cache && c in w.host then w.(cache := w.cache[c := Copy(w.host[c], false)]) else w
  }

  function EnterN(w: World, cols: seq<Col>, n: nat): World
    requires n <= |cols|
  {
    if n == 0 then w else Enter(EnterN(w, cols, n - 1), cols[n - 1])
  }

  // Whether column b is used on the device. A full table is not even searched.
  predicate OnDevice(w: World, cols: seq<Col>, b: nat)
    requires b <= |cols|
  {
    |EnterN(w, cols, b).cache| < MAX_RESIDENT
  }

  function HostOf(w: World, c: Col): seq<byte> { if c in w.host then w.host[c] else [] }

  function DeviceOf(w: World, c: Col): seq<byte> { if c in w.cache then w.cache[c].data else [] }

  // What the kernel reads.
  function Inputs(w: World, cols: seq<Col>): (r: seq<seq<byte>>)
    ensures |r| == |cols|
  {
    var e := EnterN(w, cols, |cols|);
    seq(|cols|, b requires 0 <= b < |cols| => if OnDevice(w, cols, b) then DeviceOf(e, cols[b]) else HostOf(w, cols[b]))
  }

  // The kernel writes its first n results to the columns that are used on the device.
  function Wrote(w: World, e: World, cols: seq<Col>, outs: seq<seq<byte>>, n: nat): World
    requires n <= |cols| == |outs|
  {
    if n == 0 then e
    else
      var p := Wrote(w, e, cols, outs, n - 1);
      var c := cols[n - 1];
      if OnDevice(w, cols, n - 1) then p.(cache := p.cache[c := Copy(outs[n - 1], Dirty(p, c))]) else p
  }

  // The first n columns are handed back: marked dirty on the device, or copied to the host.
  function Results(w: World, p: World, cols: seq<Col>, outs: seq<seq<byte>>, n: nat): World
    requires n <= |cols| == |outs|
  {
    if n == 0 then p
    else
      var q := Results(w, p, cols, outs, n - 1);
      var c := cols[n - 1];
      if OnDevice(w, cols, n - 1) then q.(cache := q.cache[c := Copy(DeviceOf(q, c), true)])
      else q.(host := q.host[c := outs[n - 1]])
  }

  function Fix(outs: seq<seq<byte>>, n: nat): (r: seq<seq<byte>>)
    ensures |r| == n
    ensures |outs| == n ==> r == outs
  {
    if |outs| == n then outs else seq(n, i => [])
  }

  // A resident dispatch that succeeds.
  function Dispatched(w: World, cols: seq<Col>, k: Kernel): World {
    var outs := Fix(k(Inputs(w, cols)), |cols|);
    Results(w, Wrote(w, EnterN(w, cols, |cols|), cols, outs, |cols|), cols, outs, |cols|)
  }

  // ---- one memory ----

  type Memory = map<Col, seq<byte>>

  function Gather(m: Memory, cols: seq<Col>): (r: seq<seq<byte>>)
    ensures |r| == |cols|
  {
    seq(|cols|, b requires 0 <= b < |cols| => if cols[b] in m then m[cols[b]] else [])
  }

  function Scatter(m: Memory, cols: seq<Col>, outs: seq<seq<byte>>, n: nat): Memory
    requires n <= |cols| == |outs|
  {
    if n == 0 then m else Scatter(m, cols, outs, n - 1)[cols[n - 1] := outs[n - 1]]
  }

  // The map run directly on a memory.
  function MapOn(m: Memory, cols: seq<Col>, k: Kernel): Memory {
    Scatter(m, cols, Fix(k(Gather(m, cols)), |cols|), |cols|)
  }

  // The map run on the host: a dispatch without residency, or the fallback to the CPU.
  function OnHost(w: World, cols: seq<Col>, k: Kernel): World { w.(host := MapOn(w.host, cols, k)) }

  // ---- copies between the two ----

  // A dirty column is copied back.
  function SyncOne(w: World, c: Col): World {
    if Dirty(w, c) then World(w.host[c := w.cache[c].data], w.cache[c := Copy(w.cache[c].data, false)]) else w
  }

  function SyncN(w: World, cols: seq<Col>, n: nat): World
    requires n <= |cols|
  {
    if n == 0 then w else SyncOne(SyncN(w, cols, n - 1), cols[n - 1])
  }

  // The copy back of a dirty column failed: the flag has fallen all the same.
  function LoseOne(w: World, c: Col): World {
    if Dirty(w, c) then w.(cache := w.cache[c := Copy(w.cache[c].data, false)]) else w
  }

  // Some of the copies back succeeded, some failed.
  function SyncSome(w: World, cols: seq<Col>, oks: seq<bool>): World
    requires |oks| <= |cols|
    decreases |oks|
  {
    if oks == [] then w
    else
      var p := SyncSome(w, cols, oks[..|oks| - 1]);
      var c := cols[|oks| - 1];
      if oks[|oks| - 1] then SyncOne(p, c) else LoseOne(p, c)
  }

  // A resident column is copied to the device again.
  function UploadOne(w: World, c: Col): World {
    if c in w.cache then w.(cache := w.cache[c := Copy(HostOf(w, c), false)]) else w
  }

  function UploadN(w: World, cols: seq<Col>, n: nat): World
    requires n <= |cols|
  {
    if n == 0 then w else UploadOne(UploadN(w, cols, n - 1), cols[n - 1])
  }

  // ---- operations ----

  datatype Op =
    | Dispatch(cols: seq<Col>, k: Kernel, resident: bool)
    | Sync(cols: seq<Col>)
    | Upload(cols: seq<Col>)
    | HostRead(c: Col)
    | HostWrite(c: Col, data: seq<byte>)

  // A dispatch that failed half way: the host is untouched; some columns may have got a clean copy; copies of its
  // columns may hold anything.
  ghost predicate Undone(w: World, cols: seq<Col>, u: World) {
    && u.host == w.host && w.cache.Keys <= u.cache.Keys && |u.cache| <= MAX_RESIDENT
    && (forall c :: c in u.cache && c !in cols ==> c in w.cache && u.cache[c] == w.cache[c])
    && (forall c :: c in u.cache && c in cols ==> c in u.host && u.cache[c].dirty == (c in w.cache && w.cache[c].dirty))
  }

  // One step of a run; `ran` says whether a dispatch succeeded. A failed one is followed by the same map on the CPU.
  ghost predicate Steps(w: World, op: Op, ran: bool, w': World) {
    match op
    case Dispatch(cols, k, resident) =>
      if !ran then exists u :: Undone(w, cols, u) && w' == OnHost(u, cols, k)
      else if resident then w' == Dispatched(w, cols, k)
      else w' == OnHost(w, cols, k)
    case Sync(cols) => w' == SyncN(w, cols, |cols|)
    case Upload(cols) => w' == UploadN(w, cols, |cols|)
    case HostRead(c) => w' == w
    case HostWrite(c, data) => w' == w.(host := w.host[c := data])
  }

  function Direct(m: Memory, op: Op): Memory {
    match op
    case Dispatch(cols, k, _) => MapOn(m, cols, k)
    case HostWrite(c, data) => m[c := data]
    case _ => m
  }

  // ---- the discipline ----

  predicate Distinct(cols: seq<Col>) { forall i, j :: 0 <= i < j < |cols| ==> cols[i] != cols[j] }

  predicate Dirty(w: World, c: Col) { c in w.cache && w.cache[c].dirty }

  // Pending: columns the host has written since their device copy was made. A resident dispatch must not meet a
  // pending column, nor a dirty one once the table is full; everything that uses the host's copy needs it synced;
  // an upload must not overwrite a dirty copy.
  ghost predicate Legal(w: World, pending: set<Col>, op: Op, ran: bool) {
    match op
    case Dispatch(cols, k, resident) =>
      && Distinct(cols) && (forall c :: c in cols ==> c in w.host) && KernelOk(k)
      && if resident && ran
         then forall b :: 0 <= b < |cols| ==> cols[b] !in pending && (Dirty(w, cols[b]) ==> OnDevice(w, cols, b))
         else forall c :: c in cols ==> !Dirty(w, c)
    case Sync(cols) => true
    case Upload(cols) => forall c :: c in cols ==> !Dirty(w, c)
    case HostRead(c) => c in w.host && !Dirty(w, c)
    case HostWrite(c, _) => c in w.host && !Dirty(w, c)
  }

  function ColSet(cols: seq<Col>): set<Col> { set c | c in cols }

  function Cached(w: World, cols: seq<Col>): set<Col> { set c | c in cols && c in w.cache }

  function Pending(pending: set<Col>, op: Op, ran: bool, w': World): set<Col> {
    match op
    case Dispatch(cols, _, resident) =>
      if resident && ran then pending else pending + Cached(w', cols)
    case Upload(cols) => pending - ColSet(cols)
    case HostWrite(c, _) => if c in w'.cache then pending + {c} else pending
    case _ => pending
  }

  function CopyOf(w: World, c: Col): Option<Copy> { if c in w.cache then Some(w.cache[c]) else None }

  predicate Full(w: World) { |w.cache| == MAX_RESIDENT }

  // A dirty copy is the column; a clean column is the host's, and its copy agrees with it unless the host has
  // written since or the table is full.
  predicate Agrees(host: seq<byte>, copy: Option<Copy>, pending: bool, full: bool, v: seq<byte>) {
    match copy
    case None => host == v
    case Some(x) =>
      if x.dirty then x.data == v && !pending else host == v && (pending || full || x.data == v)
  }

  predicate AgreesAt(w: World, pending: set<Col>, m: Memory, c: Col)
    requires c in m
  {
    Agrees(HostOf(w, c), CopyOf(w, c), c in pending, Full(w), m[c])
  }

  ghost predicate Coherent(w: World, pending: set<Col>, m: Memory) {
    && w.host.Keys == m.Keys && w.cache.Keys <= m.Keys && |w.cache| <= MAX_RESIDENT
    && forall c :: c in m ==> AgreesAt(w, pending, m, c)
  }

  // ---- entering columns ----

  predicate Extends(w: World, e: World, cols: seq<Col>) {
    && e.host == w.host && w.cache.Keys <= e.cache.Keys && |w.cache| <= |e.cache| <= MAX_RESIDENT
    && (forall c :: c in w.cache ==> e.cache[c] == w.cache[c])
    && (forall c :: c in e.cache && c !in w.cache ==> c in w.host && c in cols && e.cache[c] == Copy(w.host[c], false))
    && (|w.cache| == MAX_RESIDENT ==> e == w)
  }

  lemma {:induction false} Entered(w: World, cols: seq<Col>, n: nat)
    requires n <= |cols| && |w.cache| <= MAX_RESIDENT
    ensures Extends(w, EnterN(w, cols, n), cols)
    decreases n
  {
    hide Extends, Enter;
    if n > 0 {
      Entered(w, cols, n - 1);
      EnterExtends(w, EnterN(w, cols, n - 1), cols, cols[n - 1]);
    } else {
      SelfExtends(w, cols);
    }
  }

  lemma SelfExtends(w: World, cols: seq<Col>)
    requires |w.cache| <= MAX_RESIDENT
    ensures Extends(w, w, cols)
  {
  }

  lemma EnterExtends(w: World, p: World, cols: seq<Col>, c: Col)
    requires Extends(w, p, cols) && c in cols
    ensures Extends(w, Enter(p, c), cols)
  {
    if |p.cache| < MAX_RESIDENT && c !in p.cache && c in p.host {
      OneMore(p.cache, c, Copy(p.host[c], false));
    }
  }

  lemma OneMore<V>(m: map<Col, V>, c: Col, v: V)
    requires c !in m
    ensures |m[c := v]| == |m| + 1
  {
    assert m[c := v].Keys == m.Keys + {c};
    assert |m[c := v]| == |m[c := v].Keys| && |m| == |m.Keys|;
  }

  // Later entries do not take copies away, and the room only shrinks.
  lemma {:induction false} EnteredMore(w: World, cols: seq<Col>, a: nat, b: nat)
    requires a <= b <= |cols| && |w.cache| <= MAX_RESIDENT
    ensures EnterN(w, cols, a).cache.Keys <= EnterN(w, cols, b).cache.Keys
    ensures |EnterN(w, cols, a).cache| <= |EnterN(w, cols, b).cache|
    ensures OnDevice(w, cols, b) ==> OnDevice(w, cols, a)
    decreases b - a
  {
    if a < b {
      EnteredMore(w, cols, a, b - 1);
      Entered(EnterN(w, cols, b - 1), [cols[b - 1]], 1) by { Entered(w, cols, b - 1); }
      EnterOne(EnterN(w, cols, b - 1), cols[b - 1]);
    }
  }

  lemma EnterOne(w: World, c: Col)
    ensures EnterN(w, [c], 1) == Enter(w, c)
  {
    assert EnterN(w, [c], 0) == w;
  }

  lemma OnDeviceEntered(w: World, cols: seq<Col>, b: nat)
    requires b < |cols| && |w.cache| <= MAX_RESIDENT && cols[b] in w.host && OnDevice(w, cols, b)
    ensures cols[b] in EnterN(w, cols, |cols|).cache
  {
    hide EnterN;
    EnteredHost(w, cols, b);
    JustEntered(w, cols, b);
    EnteredMore(w, cols, b + 1, |cols|);
  }

  lemma {:induction false} EnteredHost(w: World, cols: seq<Col>, n: nat)
    requires n <= |cols|
    ensures EnterN(w, cols, n).host == w.host
    decreases n
  {
    if n > 0 {
      EnteredHost(w, cols, n - 1);
    }
  }

  lemma JustEntered(w: World, cols: seq<Col>, b: nat)
    requires b < |cols| && cols[b] in EnterN(w, cols, b).host && OnDevice(w, cols, b)
    ensures cols[b] in EnterN(w, cols, b + 1).cache
  {
  }

  // ---- what a resident dispatch reads ----

  // The kernel reads the column itself if and only if the column was not left dirty behind a full table, or the two
  // copies happen to hold the same bytes.
  lemma InputExact(w: World, pending: set<Col>, m: Memory, cols: seq<Col>, b: nat)
    requires Coherent(w, pending, m) && b < |cols| && cols[b] in m && cols[b] !in pending
    ensures Inputs(w, cols)[b] == m[cols[b]] <==>
            (Dirty(w, cols[b]) ==> OnDevice(w, cols, b) || w.host[cols[b]] == w.cache[cols[b]].data)
  {
    var c := cols[b];
    var e := EnterN(w, cols, |cols|);
    assert AgreesAt(w, pending, m, c);
    Entered(w, cols, |cols|);
    EnteredMore(w, cols, 0, b);
    if OnDevice(w, cols, b) {
      OnDeviceEntered(w, cols, b);
      assert |w.cache| < MAX_RESIDENT;
    }
  }

  lemma InputsAreLogical(w: World, pending: set<Col>, m: Memory, cols: seq<Col>)
    requires Coherent(w, pending, m) && (forall c :: c in cols ==> c in m)
    requires forall b :: 0 <= b < |cols| ==> cols[b] !in pending && (Dirty(w, cols[b]) ==> OnDevice(w, cols, b))
    ensures Inputs(w, cols) == Gather(m, cols)
  {
    forall b | 0 <= b < |cols|
      ensures Inputs(w, cols)[b] == Gather(m, cols)[b]
    {
      InputExact(w, pending, m, cols, b);
    }
  }

  // A dirty column behind a full table: the host's stale bytes are what the kernel reads.
  function Filled<V>(n: nat, v: V): (r: map<Col, V>)
    ensures |r| == n && (forall c: Col :: c in r <==> c < n) && (forall c: Col :: c in r ==> r[c] == v)
  {
    if n == 0 then map[]
    else
      var p := Filled(n - 1, v);
      assert |p.Keys + {n - 1}| == |p.Keys| + 1;
      assert p[n - 1 := v].Keys == p.Keys + {n - 1};
      p[n - 1 := v]
  }

  function FullTable(): World { World(Filled(MAX_RESIDENT, [0]), Filled(MAX_RESIDENT, Copy([1], true))) }

  lemma FullTableIsStale()
    ensures Coherent(FullTable(), {}, Filled(MAX_RESIDENT, [1]))
    ensures Inputs(FullTable(), [0]) == [[0]] != Gather(Filled(MAX_RESIDENT, [1]), [0])
  {
    assert EnterN(FullTable(), [0], 0) == FullTable();
    assert Gather(Filled(MAX_RESIDENT, [1]), [0])[0] == [1];
  }

  // ---- what a dispatch leaves behind ----

  lemma {:induction false} WroteAt(w: World, e: World, cols: seq<Col>, outs: seq<seq<byte>>, n: nat, c: Col)
    requires n <= |cols| == |outs| && Distinct(cols)
    ensures var r := Wrote(w, e, cols, outs, n);
            && r.host == e.host && Dirty(r, c) == Dirty(e, c)
            && (c !in cols[..n] ==> CopyOf(r, c) == CopyOf(e, c))
            && (forall b :: 0 <= b < n && cols[b] == c ==>
                  CopyOf(r, c) == if OnDevice(w, cols, b) then Some(Copy(outs[b], Dirty(e, c))) else CopyOf(e, c))
    decreases n
  {
    hide OnDevice;
    if n > 0 {
      WroteAt(w, e, cols, outs, n - 1, c);
      assert cols[..n] == cols[..n - 1] + [cols[n - 1]];
      assert cols[n - 1] !in cols[..n - 1];
    }
  }

  lemma {:induction false} HandedBackAt(w: World, p: World, cols: seq<Col>, outs: seq<seq<byte>>, n: nat, c: Col)
    requires n <= |cols| == |outs| && Distinct(cols)
    ensures var r := Results(w, p, cols, outs, n);
            && (c !in cols[..n] ==> HostOf(r, c) == HostOf(p, c) && CopyOf(r, c) == CopyOf(p, c))
            && (forall b :: 0 <= b < n && cols[b] == c ==>
                  if OnDevice(w, cols, b) then HostOf(r, c) == HostOf(p, c) && CopyOf(r, c) == Some(Copy(DeviceOf(p, c), true))
                  else HostOf(r, c) == outs[b] && CopyOf(r, c) == CopyOf(p, c))
    decreases n
  {
    hide OnDevice;
    if n > 0 {
      HandedBackAt(w, p, cols, outs, n - 1, c);
      assert cols[..n] == cols[..n - 1] + [cols[n - 1]];
      assert cols[n - 1] !in cols[..n - 1];
    }
  }

  // What one column holds in the end: its own result, dirty on the device or on the host, or what it held before.
  lemma ResultAt(w: World, e: World, cols: seq<Col>, outs: seq<seq<byte>>, c: Col)
    requires |cols| == |outs| && Distinct(cols)
    ensures var r := Results(w, Wrote(w, e, cols, outs, |cols|), cols, outs, |cols|);
            && (c !in cols ==> HostOf(r, c) == HostOf(e, c) && CopyOf(r, c) == CopyOf(e, c))
            && (forall b :: 0 <= b < |cols| && cols[b] == c ==>
                  if OnDevice(w, cols, b) then HostOf(r, c) == HostOf(e, c) && CopyOf(r, c) == Some(Copy(outs[b], true))
                  else HostOf(r, c) == outs[b] && CopyOf(r, c) == CopyOf(e, c))
  {
    WroteAt(w, e, cols, outs, |cols|, c);
    HandedBackAt(w, Wrote(w, e, cols, outs, |cols|), cols, outs, |cols|, c);
    assert cols[..|cols|] == cols;
  }

  lemma {:induction false} WroteKeys(w: World, e: World, cols: seq<Col>, outs: seq<seq<byte>>, n: nat)
    requires n <= |cols| == |outs|
    requires forall b :: 0 <= b < |cols| && OnDevice(w, cols, b) ==> cols[b] in e.cache
    ensures var r := Wrote(w, e, cols, outs, n); r.host == e.host && r.cache.Keys == e.cache.Keys
    decreases n
  {
    hide OnDevice;
    if n > 0 {
      WroteKeys(w, e, cols, outs, n - 1);
      var p := Wrote(w, e, cols, outs, n - 1);
      KeyKept(p.cache, cols[n - 1], Copy(outs[n - 1], Dirty(p, cols[n - 1])));
    }
  }

  lemma {:induction false} ResultKeys(w: World, e: World, cols: seq<Col>, outs: seq<seq<byte>>, n: nat)
    requires n <= |cols| == |outs| && (forall b :: 0 <= b < |cols| ==> cols[b] in e.host)
    requires forall b :: 0 <= b < |cols| && OnDevice(w, cols, b) ==> cols[b] in e.cache
    ensures var r := Results(w, e, cols, outs, n); r.host.Keys == e.host.Keys && r.cache.Keys == e.cache.Keys
    decreases n
  {
    hide OnDevice;
    if n > 0 {
      ResultKeys(w, e, cols, outs, n - 1);
      KeyKept(Results(w, e, cols, outs, n - 1).host, cols[n - 1], outs[n - 1]);
      var q := Results(w, e, cols, outs, n - 1);
      KeyKept(q.cache, cols[n - 1], Copy(DeviceOf(q, cols[n - 1]), true));
    }
  }

  lemma KeyKept<V>(m: map<Col, V>, c: Col, v: V)
    ensures c in m ==> m[c := v].Keys == m.Keys
  {
  }

  lemma {:induction false} Scattered(m: Memory, cols: seq<Col>, outs: seq<seq<byte>>, n: nat)
    requires n <= |cols| == |outs| && Distinct(cols) && (forall c :: c in cols ==> c in m)
    ensures var r := Scatter(m, cols, outs, n);
            && r.Keys == m.Keys
            && (forall b :: 0 <= b < n ==> r[cols[b]] == outs[b])
            && (forall c :: c in m && c !in cols[..n] ==> r[c] == m[c])
    decreases n
  {
    if n > 0 {
      Scattered(m, cols, outs, n - 1);
      assert cols[..n] == cols[..n - 1] + [cols[n - 1]];
      assert cols[n - 1] in cols;
    }
  }

  // ---- what a resident dispatch does, column by column ----

  // How many of the first n columns have no device copy yet.
  function NewAmong(w: World, cols: seq<Col>, n: nat): nat
    requires n <= |cols|
  {
    if n == 0 then 0 else NewAmong(w, cols, n - 1) + if cols[n - 1] in w.cache then 0 else 1
  }

  // There is room for column b on the device, the columns before it having taken theirs.
  predicate Roomy(w: World, cols: seq<Col>, b: nat)
    requires b <= |cols|
  {
    |w.cache| + NewAmong(w, cols, b) < 256
  }

  lemma {:induction false} EnteredAmong(w: World, cols: seq<Col>, n: nat, c: Col)
    requires n <= |cols| && c !in w.cache && c !in cols[..n]
    ensures c !in EnterN(w, cols, n).cache
    decreases n
  {
    if n > 0 {
      assert cols[..n] == cols[..n - 1] + [cols[n - 1]];
      EnteredAmong(w, cols, n - 1, c);
    }
  }

  lemma EnterSize(p: World, c: Col)
    requires c in p.host
    ensures |Enter(p, c).cache| == |p.cache| + if |p.cache| < 256 && c !in p.cache then 1 else 0
  {
    if |p.cache| < MAX_RESIDENT && c !in p.cache {
      OneMore(p.cache, c, Copy(p.host[c], false));
    }
  }

  // A column's copy is none of the earlier columns'.
  lemma OldCopies(w: World, cols: seq<Col>, n: nat)
    requires n < |cols| && Distinct(cols) && |w.cache| <= 256
    ensures cols[n] in EnterN(w, cols, n).cache <==> cols[n] in w.cache
  {
    Entered(w, cols, n);
    if cols[n] !in w.cache {
      assert cols[n] !in cols[..n];
      EnteredAmong(w, cols, n, cols[n]);
    }
  }

  lemma {:induction false} TableAfter(w: World, cols: seq<Col>, n: nat)
    requires n <= |cols| && Distinct(cols) && |w.cache| <= 256 && (forall c :: c in cols ==> c in w.host)
    ensures |EnterN(w, cols, n).cache| == if Roomy(w, cols, n) then |w.cache| + NewAmong(w, cols, n) else 256
    ensures OnDevice(w, cols, n) <==> Roomy(w, cols, n)
    decreases n
  {
    hide Enter, Distinct;
    if n > 0 {
      var p, c := EnterN(w, cols, n - 1), cols[n - 1];
      TableAfter(w, cols, n - 1);
      EnteredHost(w, cols, n - 1);
      OldCopies(w, cols, n - 1);
      EnterSize(p, c);
      assert EnterN(w, cols, n) == Enter(p, c);
      hide EnterN;
    }
  }

  // What the kernel is given for a column: its device copy, made of the host's bytes if there was none, or the host's.
  function Given(w: World, cols: seq<Col>): (r: seq<seq<byte>>)
    ensures |r| == |cols|
  {
    seq(|cols|, b requires 0 <= b < |cols| =>
      if Roomy(w, cols, b) && cols[b] in w.cache then w.cache[cols[b]].data else HostOf(w, cols[b]))
  }

  lemma InputsGiven(w: World, cols: seq<Col>)
    requires Distinct(cols) && |w.cache| <= 256 && (forall c :: c in cols ==> c in w.host)
    ensures Inputs(w, cols) == Given(w, cols)
  {
    hide EnterN;
    Entered(w, cols, |cols|);
    forall b | 0 <= b < |cols|
      ensures Inputs(w, cols)[b] == Given(w, cols)[b]
    {
      TableAfter(w, cols, b);
      if OnDevice(w, cols, b) {
        OnDeviceEntered(w, cols, b);
      }
    }
  }

  // Behind a full table nothing is entered.
  lemma {:induction false} NotEntered(w: World, cols: seq<Col>, b: nat, n: nat)
    requires b < n <= |cols| && Distinct(cols) && |w.cache| <= MAX_RESIDENT && !OnDevice(w, cols, b)
    ensures EnterN(w, cols, n) == EnterN(w, cols, b)
    decreases n
  {
    if n > b + 1 {
      NotEntered(w, cols, b, n - 1);
    }
  }

  // For every table, column and kernel: a column with room on the device ends there, dirty, with its result, and the
  // host's bytes stay; one without room gets its result on the host, and its copy stays. Every other column stays.
  lemma ResidentExact(w: World, cols: seq<Col>, k: Kernel, c: Col)
    requires Distinct(cols) && |w.cache| <= 256 && (forall c :: c in cols ==> c in w.host)
    ensures var r, outs := Dispatched(w, cols, k), Fix(k(Given(w, cols)), |cols|);
            && (c !in cols ==> HostOf(r, c) == HostOf(w, c) && CopyOf(r, c) == CopyOf(w, c))
            && forall b :: 0 <= b < |cols| && cols[b] == c ==>
                 if Roomy(w, cols, b) then HostOf(r, c) == HostOf(w, c) && CopyOf(r, c) == Some(Copy(outs[b], true))
                 else HostOf(r, c) == outs[b] && CopyOf(r, c) == CopyOf(w, c)
  {
    InputsGiven(w, cols);
    var e := EnterN(w, cols, |cols|);
    var outs := Fix(k(Inputs(w, cols)), |cols|);
    Entered(w, cols, |cols|);
    ResultAt(w, e, cols, outs, c);
    hide EnterN, Inputs, Given, OnDevice, Wrote, Results;
    if c !in cols {
      assert CopyOf(e, c) == CopyOf(w, c);
    }
    forall b | 0 <= b < |cols| && cols[b] == c
      ensures OnDevice(w, cols, b) <==> Roomy(w, cols, b)
      ensures !OnDevice(w, cols, b) ==> CopyOf(e, c) == CopyOf(w, c)
    {
      TableAfter(w, cols, b);
      if !OnDevice(w, cols, b) {
        CopyStays(w, cols, b);
      }
    }
  }

  lemma CopyStays(w: World, cols: seq<Col>, b: nat)
    requires b < |cols| && Distinct(cols) && |w.cache| <= MAX_RESIDENT && !OnDevice(w, cols, b)
    ensures CopyOf(EnterN(w, cols, |cols|), cols[b]) == CopyOf(w, cols[b])
  {
    NotEntered(w, cols, b, |cols|);
    Entered(w, cols, b);
    if cols[b] !in w.cache {
      assert cols[b] !in cols[..b];
      EnteredAmong(w, cols, b, cols[b]);
    }
  }

  lemma DispatchKeeps(w: World, pending: set<Col>, m: Memory, cols: seq<Col>, k: Kernel)
    requires Coherent(w, pending, m) && Legal(w, pending, Dispatch(cols, k, true), true)
    ensures Coherent(Dispatched(w, cols, k), pending, MapOn(m, cols, k))
  {
    hide KernelOk, Agrees, Inputs, Gather, OnDevice, EnterN, Wrote, Results, Scatter;
    var e := EnterN(w, cols, |cols|);
    var outs := Fix(k(Inputs(w, cols)), |cols|);
    var r := Dispatched(w, cols, k);
    var m' := MapOn(m, cols, k);
    InputsAreLogical(w, pending, m, cols);
    Entered(w, cols, |cols|);
    forall b | 0 <= b < |cols| && OnDevice(w, cols, b)
      ensures cols[b] in e.cache
    {
      OnDeviceEntered(w, cols, b);
    }
    assert forall b :: 0 <= b < |cols| ==> cols[b] in e.host;
    WroteKeys(w, e, cols, outs, |cols|);
    ResultKeys(w, Wrote(w, e, cols, outs, |cols|), cols, outs, |cols|);
    Scattered(m, cols, outs, |cols|);
    assert cols[..|cols|] == cols;
    SameSize(r.cache, e.cache);
    forall c | c in m'
      ensures AgreesAt(r, pending, m', c)
    {
      ResultAt(w, e, cols, outs, c);
      if c in cols {
        var b :| 0 <= b < |cols| && cols[b] == c;
        ResultAgrees(w, pending, m, cols, b, r, outs[b]);
      } else {
        ElsewhereAgrees(w, pending, m, cols, c, r);
      }
    }
  }

  lemma SameSize<K, V>(a: map<K, V>, b: map<K, V>)
    requires a.Keys == b.Keys
    ensures |a| == |b|
  {
    assert |a| == |a.Keys| && |b| == |b.Keys|;
  }

  // A column that was bypassed stays on the host behind a table that is full for good.
  lemma ResultAgrees(w: World, pending: set<Col>, m: Memory, cols: seq<Col>, b: nat, r: World, out: seq<byte>)
    requires b < |cols| && cols[b] in m && Coherent(w, pending, m)
    requires cols[b] !in pending && (Dirty(w, cols[b]) ==> OnDevice(w, cols, b))
    requires |r.cache| == |EnterN(w, cols, |cols|).cache|
    requires OnDevice(w, cols, b) ==> CopyOf(r, cols[b]) == Some(Copy(out, true))
    requires !OnDevice(w, cols, b) ==>
               HostOf(r, cols[b]) == out && CopyOf(r, cols[b]) == CopyOf(EnterN(w, cols, |cols|), cols[b])
    ensures Agrees(HostOf(r, cols[b]), CopyOf(r, cols[b]), cols[b] in pending, Full(r), out)
  {
    hide Coherent;
    assert |w.cache| <= MAX_RESIDENT by { Small(w, pending, m); }
    Entered(w, cols, |cols|);
    Entered(w, cols, b);
    EnteredMore(w, cols, b, |cols|);
  }

  lemma Small(w: World, pending: set<Col>, m: Memory)
    requires Coherent(w, pending, m)
    ensures |w.cache| <= MAX_RESIDENT
  {
  }

  lemma ElsewhereAgrees(w: World, pending: set<Col>, m: Memory, cols: seq<Col>, c: Col, r: World)
    requires Coherent(w, pending, m) && c in m && c !in cols
    requires var e := EnterN(w, cols, |cols|);
             HostOf(r, c) == HostOf(e, c) && CopyOf(r, c) == CopyOf(e, c) && |r.cache| == |e.cache|
    ensures Agrees(HostOf(r, c), CopyOf(r, c), c in pending, Full(r), m[c])
  {
    Entered(w, cols, |cols|);
    assert AgreesAt(w, pending, m, c);
  }

  // ---- the other operations ----

  lemma HostMapKeeps(w: World, pending: set<Col>, m: Memory, cols: seq<Col>, k: Kernel)
    requires Coherent(w, pending, m) && Distinct(cols)
    requires forall c :: c in cols ==> c in w.host && !Dirty(w, c)
    ensures Coherent(OnHost(w, cols, k), pending + Cached(w, cols), MapOn(m, cols, k))
  {
    hide Gather;
    CleanGather(w, pending, m, cols);
    var outs := Fix(k(Gather(m, cols)), |cols|);
    Scattered(m, cols, outs, |cols|);
    Scattered(w.host, cols, outs, |cols|);
    assert cols[..|cols|] == cols;
    var r := OnHost(w, cols, k);
    var m' := MapOn(m, cols, k);
    forall c | c in m'
      ensures AgreesAt(r, pending + Cached(w, cols), m', c)
    {
      assert AgreesAt(w, pending, m, c);
    }
  }

  lemma CleanGather(w: World, pending: set<Col>, m: Memory, cols: seq<Col>)
    requires Coherent(w, pending, m) && (forall c :: c in cols ==> c in w.host && !Dirty(w, c))
    ensures Gather(w.host, cols) == Gather(m, cols)
  {
    forall b | 0 <= b < |cols|
      ensures Gather(w.host, cols)[b] == Gather(m, cols)[b]
    {
      assert cols[b] in cols;
      assert AgreesAt(w, pending, m, cols[b]);
    }
  }

  // A failed dispatch leaves the two copies coherent, except that its columns' copies count as out of date.
  lemma UndoneKeeps(w: World, pending: set<Col>, m: Memory, cols: seq<Col>, u: World)
    requires Coherent(w, pending, m) && Undone(w, cols, u) && (forall c :: c in cols ==> c in w.host && !Dirty(w, c))
    ensures Coherent(u, pending + Cached(u, cols), m)
    ensures forall c :: c in cols ==> c in u.host && !Dirty(u, c)
  {
    assert |w.cache| == |w.cache.Keys| && |u.cache| == |u.cache.Keys|;
    Contained(w.cache.Keys, u.cache.Keys);
    forall c | c in m
      ensures AgreesAt(u, pending + Cached(u, cols), m, c)
    {
      assert AgreesAt(w, pending, m, c);
    }
  }

  // ---- the retry after a failed dispatch ----

  // After the failed dispatch and the map on the CPU, the host holds the map's results; and so it does once the
  // columns have been synced.
  predicate RetryRight(m: Memory, u: World, cols: seq<Col>, k: Kernel) {
    forall c :: c in cols ==> HostOf(OnHost(u, cols, k), c) == At(MapOn(m, cols, k), c)
  }

  predicate SyncedRetryRight(m: Memory, u: World, cols: seq<Col>, k: Kernel) {
    forall c :: c in cols ==> HostOf(SyncN(OnHost(u, cols, k), cols, |cols|), c) == At(MapOn(m, cols, k), c)
  }

  function At(m: Memory, c: Col): seq<byte> { if c in m then m[c] else [] }

  function Inverted(x: seq<byte>): seq<byte> { seq(|x|, j requires 0 <= j < |x| => 255 - x[j]) }

  // A map that changes nothing, and one that changes every byte.
  function Identity(): Kernel { xs => xs }

  function Invert(): Kernel { xs => seq(|xs|, i requires 0 <= i < |xs| => Inverted(xs[i])) }

  lemma InvertDiffers(x: seq<byte>)
    requires x != []
    ensures Inverted(x) != x
  {
    assert Inverted(x)[0] == 255 - x[0];
  }

  // What the map leaves in column b of a memory.
  lemma MapAt(m: Memory, cols: seq<Col>, k: Kernel, b: nat)
    requires Distinct(cols) && (forall c :: c in cols ==> c in m) && b < |cols|
    ensures MapOn(m, cols, k).Keys == m.Keys
    ensures At(MapOn(m, cols, k), cols[b]) == Fix(k(Gather(m, cols)), |cols|)[b]
  {
    Scattered(m, cols, Fix(k(Gather(m, cols)), |cols|), |cols|);
  }

  lemma SameGather(w: World, pending: set<Col>, m: Memory, cols: seq<Col>, u: World)
    requires Coherent(w, pending, m) && Undone(w, cols, u) && forall c :: c in cols ==> c in w.host
    requires forall c :: c in cols && Dirty(w, c) ==> w.host[c] == w.cache[c].data
    ensures Gather(u.host, cols) == Gather(m, cols)
  {
    forall b | 0 <= b < |cols|
      ensures Gather(u.host, cols)[b] == Gather(m, cols)[b]
    {
      assert cols[b] in cols;
      assert AgreesAt(w, pending, m, cols[b]);
    }
  }

  // Whatever the kernel: the CPU's retry gives the map's results if and only if no dispatched column is dirty with
  // copies that differ.
  lemma RetryExact(w: World, pending: set<Col>, m: Memory, cols: seq<Col>, u: World)
    requires Coherent(w, pending, m) && Undone(w, cols, u) && Distinct(cols) && forall c :: c in cols ==> c in w.host
    ensures (forall k :: KernelOk(k) ==> RetryRight(m, u, cols, k))
            <==> (forall c :: c in cols && Dirty(w, c) ==> w.host[c] == w.cache[c].data)
  {
    hide KernelOk, MapOn;
    if forall c :: c in cols && Dirty(w, c) ==> w.host[c] == w.cache[c].data {
      SameGather(w, pending, m, cols, u);
      forall k
        ensures RetryRight(m, u, cols, k)
      {
        forall c | c in cols
          ensures HostOf(OnHost(u, cols, k), c) == At(MapOn(m, cols, k), c)
        {
          var b :| 0 <= b < |cols| && cols[b] == c;
          MapAt(m, cols, k, b);
          MapAt(u.host, cols, k, b);
        }
      }
    } else {
      var c :| c in cols && Dirty(w, c) && w.host[c] != w.cache[c].data;
      StaleRetry(w, pending, m, cols, u, c);
    }
  }

  lemma IdentityOk()
    ensures KernelOk(Identity())
  {
  }

  lemma InvertOk()
    ensures KernelOk(Invert())
  {
  }

  lemma StaleRetry(w: World, pending: set<Col>, m: Memory, cols: seq<Col>, u: World, c: Col)
    requires Coherent(w, pending, m) && Undone(w, cols, u) && Distinct(cols) && forall c :: c in cols ==> c in w.host
    requires c in cols && Dirty(w, c) && w.host[c] != w.cache[c].data
    ensures KernelOk(Identity()) && !RetryRight(m, u, cols, Identity())
  {
    hide KernelOk, MapOn;
    var b :| 0 <= b < |cols| && cols[b] == c;
    IdentityOk();
    MapAt(m, cols, Identity(), b);
    MapAt(u.host, cols, Identity(), b);
    assert AgreesAt(w, pending, m, c);
    assert HostOf(OnHost(u, cols, Identity()), c) == Gather(u.host, cols)[b];
  }

  lemma {:induction false} SyncedAt(w: World, cols: seq<Col>, n: nat, c: Col)
    requires n <= |cols|
    ensures var r := SyncN(w, cols, n);
            && DeviceOf(r, c) == DeviceOf(w, c) && (Dirty(r, c) <==> Dirty(w, c) && c !in cols[..n])
            && HostOf(r, c) == if Dirty(w, c) && c in cols[..n] then DeviceOf(w, c) else HostOf(w, c)
    decreases n
  {
    if n > 0 {
      SyncedAt(w, cols, n - 1, c);
      assert cols[..n] == cols[..n - 1] + [cols[n - 1]];
    }
  }

  // The results then also outlast the next sync if and only if no dispatched column is dirty at all, empty columns
  // aside: a dirty one is overwritten by its device copy.
  lemma SyncedRetryExact(w: World, pending: set<Col>, m: Memory, cols: seq<Col>, u: World)
    requires Coherent(w, pending, m) && Undone(w, cols, u) && Distinct(cols) && forall c :: c in cols ==> c in w.host
    ensures (forall k :: KernelOk(k) ==> RetryRight(m, u, cols, k) && SyncedRetryRight(m, u, cols, k))
            <==> (forall c :: c in cols && Dirty(w, c) ==> w.host[c] == m[c] == DeviceOf(u, c) == [])
  {
    assert w.host.Keys == m.Keys;
    hide KernelOk, MapOn, Coherent, SyncedRetryRight, RetryRight;
    RetryExact(w, pending, m, cols, u);
    if forall c :: c in cols && Dirty(w, c) ==> w.host[c] == m[c] == DeviceOf(u, c) == [] {
      forall k | KernelOk(k)
        ensures RetryRight(m, u, cols, k) && SyncedRetryRight(m, u, cols, k)
      {
        EmptyCopies(w, pending, m, cols);
        SyncedRight(w, pending, m, cols, u, k);
      }
    } else {
      var c :| c in cols && Dirty(w, c) && !(w.host[c] == m[c] == DeviceOf(u, c) == []);
      if w.host[c] == w.cache[c].data {
        DirtyHolds(w, pending, m, c);
        OverwrittenRetry(w, pending, m, cols, u, c);
      }
    }
  }

  lemma DirtyHolds(w: World, pending: set<Col>, m: Memory, c: Col)
    requires Coherent(w, pending, m) && Dirty(w, c) && c in m
    ensures w.cache[c].data == m[c]
  {
    assert AgreesAt(w, pending, m, c);
  }

  lemma EmptyCopies(w: World, pending: set<Col>, m: Memory, cols: seq<Col>)
    requires Coherent(w, pending, m) && forall c :: c in cols ==> c in w.host
    requires forall c :: c in cols && Dirty(w, c) ==> w.host[c] == m[c] == []
    ensures forall c :: c in cols && Dirty(w, c) ==> w.host[c] == w.cache[c].data
  {
    forall c | c in cols && Dirty(w, c)
      ensures w.host[c] == w.cache[c].data
    {
      assert AgreesAt(w, pending, m, c);
    }
  }

  // A column of length zero stays empty.
  lemma LengthsKept(m: Memory, cols: seq<Col>, k: Kernel, b: nat)
    requires KernelOk(k) && Distinct(cols) && (forall c :: c in cols ==> c in m) && b < |cols|
    ensures |At(MapOn(m, cols, k), cols[b])| == |m[cols[b]]|
  {
    MapAt(m, cols, k, b);
    assert SameShape(Gather(m, cols), k(Gather(m, cols)));
  }

  lemma SyncedRight(w: World, pending: set<Col>, m: Memory, cols: seq<Col>, u: World, k: Kernel)
    requires Coherent(w, pending, m) && Undone(w, cols, u) && Distinct(cols) && forall c :: c in cols ==> c in w.host
    requires KernelOk(k) && RetryRight(m, u, cols, k)
    requires forall c :: c in cols && Dirty(w, c) ==> m[c] == DeviceOf(u, c) == []
    ensures SyncedRetryRight(m, u, cols, k)
  {
    hide KernelOk, MapOn;
    var r := OnHost(u, cols, k);
    forall c | c in cols
      ensures HostOf(SyncN(r, cols, |cols|), c) == At(MapOn(m, cols, k), c)
    {
      var b :| 0 <= b < |cols| && cols[b] == c;
      LengthsKept(m, cols, k, b);
      SyncedAt(r, cols, |cols|, c);
      assert Dirty(r, c) ==> Dirty(w, c);
    }
  }

  lemma OverwrittenRetry(w: World, pending: set<Col>, m: Memory, cols: seq<Col>, u: World, c: Col)
    requires Coherent(w, pending, m) && Undone(w, cols, u) && Distinct(cols) && forall c :: c in cols ==> c in w.host
    requires c in cols && Dirty(w, c) && !(m[c] == DeviceOf(u, c) == [])
    ensures KernelOk(Identity()) && KernelOk(Invert())
    ensures !SyncedRetryRight(m, u, cols, Identity()) || !SyncedRetryRight(m, u, cols, Invert())
  {
    hide KernelOk, MapOn, SyncN, Inverted;
    var b :| 0 <= b < |cols| && cols[b] == c;
    IdentityOk();
    InvertOk();
    MapAt(m, cols, Identity(), b);
    MapAt(m, cols, Invert(), b);
    SyncedAt(OnHost(u, cols, Identity()), cols, |cols|, c);
    SyncedAt(OnHost(u, cols, Invert()), cols, |cols|, c);
    assert cols[..|cols|] == cols;
    assert At(MapOn(m, cols, Identity()), c) == m[c];
    assert At(MapOn(m, cols, Invert()), c) == Inverted(m[c]);
    if m[c] != [] {
      InvertDiffers(m[c]);
    }
  }

  lemma Contained<T>(a: set<T>, b: set<T>)
    requires a <= b
    ensures |a| <= |b|
  {
    assert b == a + (b - a);
  }

  lemma SyncOneKeeps(w: World, pending: set<Col>, m: Memory, c: Col)
    requires Coherent(w, pending, m)
    ensures Coherent(SyncOne(w, c), pending, m)
  {
    var r := SyncOne(w, c);
    assert r.cache.Keys == w.cache.Keys;
    SameSize(r.cache, w.cache);
    forall x | x in m
      ensures AgreesAt(r, pending, m, x)
    {
      assert AgreesAt(w, pending, m, x);
    }
  }

  lemma {:induction false} SyncKeeps(w: World, pending: set<Col>, m: Memory, cols: seq<Col>, n: nat)
    requires Coherent(w, pending, m) && n <= |cols|
    ensures Coherent(SyncN(w, cols, n), pending, m)
    ensures forall i :: 0 <= i < n ==> !Dirty(SyncN(w, cols, n), cols[i])
    decreases n
  {
    hide Coherent;
    if n > 0 {
      SyncKeeps(w, pending, m, cols, n - 1);
      SyncOneKeeps(SyncN(w, cols, n - 1), pending, m, cols[n - 1]);
    }
  }

  // A failed copy back loses the device's results, unless the host happens to hold the same bytes.
  lemma LoseExact(w: World, pending: set<Col>, m: Memory, c: Col)
    requires Coherent(w, pending, m) && Dirty(w, c)
    ensures Coherent(LoseOne(w, c), pending, m) <==> w.host[c] == w.cache[c].data
  {
    var r := LoseOne(w, c);
    assert r.cache.Keys == w.cache.Keys;
    SameSize(r.cache, w.cache);
    assert AgreesAt(w, pending, m, c);
    if w.host[c] == w.cache[c].data {
      forall x | x in m
        ensures AgreesAt(r, pending, m, x)
      {
        assert AgreesAt(w, pending, m, x);
      }
    } else {
      assert !AgreesAt(r, pending, m, c);
    }
  }

  lemma {:induction false} AllSynced(w: World, cols: seq<Col>, oks: seq<bool>)
    requires |oks| <= |cols| && forall i :: 0 <= i < |oks| ==> oks[i]
    ensures SyncSome(w, cols, oks) == SyncN(w, cols, |oks|)
    decreases |oks|
  {
    if oks != [] {
      AllSynced(w, cols, oks[..|oks| - 1]);
    }
  }

  // What an upload leaves, whether or not its transfers succeeded: the host as it was, the other columns' copies as
  // they were, and no flag on its own columns.
  predicate Refreshed(w: World, cols: seq<Col>, r: World) {
    && r.host == w.host && r.cache.Keys == w.cache.Keys
    && forall c :: c in w.cache ==> if c in cols then !r.cache[c].dirty else r.cache[c] == w.cache[c]
  }

  lemma UploadOneKeeps(w: World, pending: set<Col>, m: Memory, c: Col)
    requires Coherent(w, pending, m) && !Dirty(w, c)
    ensures Coherent(UploadOne(w, c), pending - {c}, m)
  {
    var r := UploadOne(w, c);
    assert r.cache.Keys == w.cache.Keys;
    SameSize(r.cache, w.cache);
    forall x | x in m
      ensures AgreesAt(r, pending - {c}, m, x)
    {
      assert AgreesAt(w, pending, m, x);
    }
  }

  lemma {:induction false} UploadKeeps(w: World, pending: set<Col>, m: Memory, cols: seq<Col>, n: nat)
    requires Coherent(w, pending, m) && n <= |cols|
    requires forall i :: 0 <= i < |cols| ==> !Dirty(w, cols[i])
    ensures Coherent(UploadN(w, cols, n), pending - ColSet(cols[..n]), m)
    ensures forall i :: 0 <= i < |cols| ==> !Dirty(UploadN(w, cols, n), cols[i])
    decreases n
  {
    hide Coherent;
    if n > 0 {
      UploadKeeps(w, pending, m, cols, n - 1);
      UploadOneKeeps(UploadN(w, cols, n - 1), pending - ColSet(cols[..n - 1]), m, cols[n - 1]);
      assert cols[..n] == cols[..n - 1] + [cols[n - 1]];
      assert pending - ColSet(cols[..n]) == pending - ColSet(cols[..n - 1]) - {cols[n - 1]};
    } else {
      assert pending - ColSet(cols[..0]) == pending;
    }
  }

  lemma StepKeeps(w: World, pending: set<Col>, m: Memory, op: Op, ran: bool, w': World)
    requires Coherent(w, pending, m) && Legal(w, pending, op, ran) && Steps(w, op, ran, w')
    ensures Coherent(w', Pending(pending, op, ran, w'), Direct(m, op))
  {
    hide Coherent, MapOn, KernelOk, Dispatched;
    match op
    case Dispatch(cols, k, resident) =>
      if !ran {
        var u :| Undone(w, cols, u) && w' == OnHost(u, cols, k);
        UndoneKeeps(w, pending, m, cols, u);
        var p := pending + Cached(u, cols);
        HostMapKeeps(u, p, m, cols, k);
        assert p + Cached(u, cols) == p;
      } else if resident {
        DispatchKeeps(w, pending, m, cols, k);
      } else {
        HostMapKeeps(w, pending, m, cols, k);
      }
    case Sync(cols) => SyncKeeps(w, pending, m, cols, |cols|);
    case Upload(cols) =>
      UploadKeeps(w, pending, m, cols, |cols|);
      assert cols[..|cols|] == cols;
    case HostRead(c) =>
    case HostWrite(c, data) => WriteKeeps(w, pending, m, c, data);
  }

  lemma WriteKeeps(w: World, pending: set<Col>, m: Memory, c: Col, data: seq<byte>)
    requires Coherent(w, pending, m) && c in w.host && !Dirty(w, c)
    ensures Coherent(w.(host := w.host[c := data]), if c in w.cache then pending + {c} else pending, m[c := data])
  {
  }

  // ---- runs ----

  datatype Moment = Moment(op: Op, ran: bool, after: World)

  ghost predicate Run(w: World, pending: set<Col>, run: seq<Moment>)
    decreases |run|
  {
    run == [] ||
    (&& Legal(w, pending, run[0].op, run[0].ran) && Steps(w, run[0].op, run[0].ran, run[0].after)
     && Run(run[0].after, Pending(pending, run[0].op, run[0].ran, run[0].after), run[1..]))
  }

  // What the host reads, in order, and what it would read from one memory.
  function Reads(w: World, run: seq<Moment>): seq<seq<byte>>
    decreases |run|
  {
    if run == [] then []
    else (if run[0].op.HostRead? then [HostOf(w, run[0].op.c)] else []) + Reads(run[0].after, run[1..])
  }

  function DirectReads(m: Memory, run: seq<Moment>): seq<seq<byte>>
    decreases |run|
  {
    if run == [] then []
    else
      (if run[0].op.HostRead? then [if run[0].op.c in m then m[run[0].op.c] else []] else [])
      + DirectReads(Direct(m, run[0].op), run[1..])
  }

  // For every disciplined run, successful and failed dispatches mixed, every host read returns what a single memory
  // running the maps directly holds.
  lemma {:induction false} RunsLikeOneMemory(w: World, pending: set<Col>, m: Memory, run: seq<Moment>)
    requires Coherent(w, pending, m) && Run(w, pending, run)
    ensures Reads(w, run) == DirectReads(m, run)
    decreases |run|
  {
    hide Steps, Legal, Coherent;
    if run != [] {
      StepKeeps(w, pending, m, run[0].op, run[0].ran, run[0].after);
      if run[0].op.HostRead? {
        ReadIsLogical(w, pending, m, run[0].op.c, run[0].ran);
      }
      RunsLikeOneMemory(run[0].after, Pending(pending, run[0].op, run[0].ran, run[0].after), Direct(m, run[0].op), run[1..]);
    }
  }

  lemma ReadIsLogical(w: World, pending: set<Col>, m: Memory, c: Col, ran: bool)
    requires Coherent(w, pending, m) && Legal(w, pending, HostRead(c), ran)
    ensures c in m && HostOf(w, c) == m[c]
  {
  }

  // Before anything is resident.
  lemma FreshIsCoherent(m: Memory)
    ensures Coherent(World(m, map[]), {}, m)
  {
  }

  // So every disciplined run of a program, from its start, reads what one memory would hold.
  lemma ProgramsReadOneMemory(m: Memory, run: seq<Moment>)
    requires Run(World(m, map[]), {}, run)
    ensures Reads(World(m, map[]), run) == DirectReads(m, run)
  {
    FreshIsCoherent(m);
    RunsLikeOneMemory(World(m, map[]), {}, m, run);
  }
}

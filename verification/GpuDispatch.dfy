// The dispatch itself, as the runtime performs it: acquire a buffer for each column, run the kernel, hand results
// back, clean up. Every device call may fail.
module GpuDispatch {
  import opened Bytes
  import opened GpuMemory
  import opened GpuRuntime

  // Buffers, allocations and mappings that a dispatch holds itself.
  function SlotBuffers(slots: seq<Slot>): set<Handle> {
    set b | 0 <= b < |slots| && !slots[b].cached && slots[b].buf != 0 :: slots[b].buf
  }
  function SlotMemories(slots: seq<Slot>): set<Handle> {
    set b | 0 <= b < |slots| && !slots[b].cached && slots[b].mem != 0 :: slots[b].mem
  }
  function SlotMapped(slots: seq<Slot>): set<Handle> {
    set b | 0 <= b < |slots| && !slots[b].cached && slots[b].mapped :: slots[b].mem
  }

  // What the acquired buffers hold.
  function Contents(bufs: map<Handle, seq<byte>>, slots: seq<Slot>): (r: seq<seq<byte>>)
    ensures |r| == |slots|
  {
    seq(|slots|, b requires 0 <= b < |slots| => Content(bufs, slots[b].buf))
  }

  // No handle is held twice.
  ghost predicate SlotsOk(slots: seq<Slot>) {
    && (forall b :: 0 <= b < |slots| && slots[b].mapped && !slots[b].cached ==> slots[b].mem != 0)
    && (forall a, b :: 0 <= a < b < |slots| && !slots[a].cached && !slots[b].cached ==>
          && (slots[a].buf != 0 ==> slots[a].buf != slots[b].buf)
          && (slots[a].mem != 0 ==> slots[a].mem != slots[b].mem))
  }

  lemma SlotSetsGrow(slots: seq<Slot>, s: Slot)
    ensures SlotBuffers(slots + [s]) == SlotBuffers(slots) + (if !s.cached && s.buf != 0 then {s.buf} else {})
    ensures SlotMemories(slots + [s]) == SlotMemories(slots) + (if !s.cached && s.mem != 0 then {s.mem} else {})
    ensures SlotMapped(slots + [s]) == SlotMapped(slots) + (if !s.cached && s.mapped then {s.mem} else {})
  {
    var t := slots + [s];
    assert t[|slots|] == s;
    forall h | h in SlotBuffers(slots) ensures h in SlotBuffers(t) {
      var b :| 0 <= b < |slots| && !slots[b].cached && slots[b].buf != 0 && slots[b].buf == h;
      assert t[b] == slots[b];
    }
    forall h | h in SlotMemories(slots) ensures h in SlotMemories(t) {
      var b :| 0 <= b < |slots| && !slots[b].cached && slots[b].mem != 0 && slots[b].mem == h;
      assert t[b] == slots[b];
    }
    forall h | h in SlotMapped(slots) ensures h in SlotMapped(t) {
      var b :| 0 <= b < |slots| && !slots[b].cached && slots[b].mapped && slots[b].mem == h;
      assert t[b] == slots[b];
    }
  }

  // Every live object belongs to the table or to the dispatch in progress, and to one of them only.
  ghost predicate Owned(table: seq<Entry>, host: map<Col, seq<byte>>, bufs: map<Handle, seq<byte>>,
                        mems: set<Handle>, mapped: set<Handle>, next: Handle, slots: seq<Slot>)
  {
    && TableOk(table, host, bufs) && SlotsOk(slots)
    && bufs.Keys == Buffers(table) + SlotBuffers(slots) && Buffers(table) !! SlotBuffers(slots)
    && mems == Memories(table) + SlotMemories(slots) && Memories(table) !! SlotMemories(slots)
    && mapped == SlotMapped(slots)
    && next > 0 && (forall h :: h in bufs ==> 0 < h < next) && (forall h :: h in mems ==> 0 < h < next)
  }

  lemma OwnNone(table: seq<Entry>, host: map<Col, seq<byte>>, bufs: map<Handle, seq<byte>>, mems: set<Handle>,
                mapped: set<Handle>, next: Handle, slots: seq<Slot>, s: Slot)
    requires Owned(table, host, bufs, mems, mapped, next, slots) && (s == NO_SLOT || s.cached)
    ensures Owned(table, host, bufs, mems, mapped, next, slots + [s])
  {
    hide TableOk, Buffers, Memories, SlotBuffers, SlotMemories, SlotMapped;
    SlotSetsGrow(slots, s);
  }

  // A buffer just created belongs to the dispatch.
  lemma OwnBuffer(table: seq<Entry>, host: map<Col, seq<byte>>, bufs: map<Handle, seq<byte>>, mems: set<Handle>,
                  mapped: set<Handle>, next: Handle, slots: seq<Slot>, data: seq<byte>)
    requires Owned(table, host, bufs, mems, mapped, next, slots)
    ensures Owned(table, host, bufs[next := data], mems, mapped, next + 1, slots + [Slot(next, 0, false, false)])
    ensures CacheOf(table, bufs[next := data]) == CacheOf(table, bufs)
  {
    hide TableOk, Buffers, Memories, SlotMemories, SlotMapped, CacheOf;
    SlotSetsGrow(slots, Slot(next, 0, false, false));
    CacheIgnores(table, host, bufs, bufs[next := data]);
    forall b | 0 <= b < |slots| && !slots[b].cached && slots[b].buf != 0
      ensures slots[b].buf != next
    {
      assert slots[b].buf in SlotBuffers(slots);
    }
  }

  lemma OwnMemory(table: seq<Entry>, host: map<Col, seq<byte>>, bufs: map<Handle, seq<byte>>, mems: set<Handle>,
                  mapped: set<Handle>, next: Handle, slots: seq<Slot>, buf: Handle)
    requires Owned(table, host, bufs, mems, mapped, next, slots + [Slot(buf, 0, false, false)])
    ensures Owned(table, host, bufs, mems + {next}, mapped, next + 1, slots + [Slot(buf, next, false, false)])
  {
    hide TableOk, Buffers, Memories, SlotBuffers, SlotMapped;
    var old1, new1 := slots + [Slot(buf, 0, false, false)], slots + [Slot(buf, next, false, false)];
    SlotSetsGrow(slots, Slot(buf, 0, false, false));
    SlotSetsGrow(slots, Slot(buf, next, false, false));
    forall b | 0 <= b < |slots|
      ensures new1[b] == old1[b] == slots[b]
      ensures !slots[b].cached && slots[b].mem != 0 ==> slots[b].mem != next
      ensures !slots[b].cached && slots[b].buf != 0 ==> slots[b].buf != buf
    {
      if !slots[b].cached && slots[b].mem != 0 {
        assert slots[b].mem in SlotMemories(slots);
      }
      assert old1[b] == slots[b] && old1[|slots|] == Slot(buf, 0, false, false);
    }
  }

  lemma OwnMapping(table: seq<Entry>, host: map<Col, seq<byte>>, bufs: map<Handle, seq<byte>>, mems: set<Handle>,
                   mapped: set<Handle>, next: Handle, slots: seq<Slot>, buf: Handle, mem: Handle)
    requires Owned(table, host, bufs, mems, mapped, next, slots + [Slot(buf, mem, false, false)]) && mem != 0
    ensures mem in mems && mem !in mapped
    ensures Owned(table, host, bufs, mems, mapped + {mem}, next, slots + [Slot(buf, mem, true, false)])
  {
    hide TableOk, Buffers, Memories, SlotBuffers;
    var old1, new1 := slots + [Slot(buf, mem, false, false)], slots + [Slot(buf, mem, true, false)];
    SlotSetsGrow(slots, Slot(buf, mem, false, false));
    SlotSetsGrow(slots, Slot(buf, mem, true, false));
    assert old1[|slots|] == Slot(buf, mem, false, false);
    forall b | 0 <= b < |slots|
      ensures new1[b] == old1[b] == slots[b]
      ensures !slots[b].cached && slots[b].mem != 0 ==> slots[b].mem != mem
      ensures !slots[b].cached && slots[b].buf != 0 ==> slots[b].buf != buf
    {
    }
  }

  // What a buffer of the dispatch holds is no concern of the table.
  lemma OwnContent(table: seq<Entry>, host: map<Col, seq<byte>>, bufs: map<Handle, seq<byte>>, mems: set<Handle>,
                   mapped: set<Handle>, next: Handle, slots: seq<Slot>, buf: Handle, data: seq<byte>)
    requires Owned(table, host, bufs, mems, mapped, next, slots) && buf in SlotBuffers(slots)
    ensures Owned(table, host, bufs[buf := data], mems, mapped, next, slots)
    ensures CacheOf(table, bufs[buf := data]) == CacheOf(table, bufs)
  {
    hide TableOk, Buffers, Memories, SlotMemories, SlotMapped, CacheOf, SlotBuffers, SlotsOk;
    CacheIgnores(table, host, bufs, bufs[buf := data]);
  }

  // A filled buffer moves from the dispatch to the table.
  lemma Adopt(table: seq<Entry>, host: map<Col, seq<byte>>, bufs: map<Handle, seq<byte>>, mems: set<Handle>,
              mapped: set<Handle>, next: Handle, slots: seq<Slot>, c: Col, buf: Handle, mem: Handle)
    requires Owned(table, host, bufs, mems, mapped, next, slots + [Slot(buf, mem, false, false)]) && buf != 0 && mem != 0
    requires c in host && buf in bufs && |bufs[buf]| == |host[c]| && Find(table, c).None? && |table| < MAX_RESIDENT
    ensures var t := table + [Entry(c, buf, mem, |host[c]|, false)];
            && Owned(t, host, bufs, mems, mapped, next, slots + [Slot(buf, mem, false, true)])
            && CacheOf(t, bufs) == CacheOf(table, bufs)[c := Copy(bufs[buf], false)]
            && Find(t, c) == Some(|table|)
  {
    hide Buffers, Memories, SlotBuffers, SlotMemories, SlotMapped, CacheOf;
    var e := Entry(c, buf, mem, |host[c]|, false);
    var old1 := slots + [Slot(buf, mem, false, false)];
    SlotSetsGrow(slots, Slot(buf, mem, false, false));
    SlotSetsGrow(slots, Slot(buf, mem, false, true));
    SetsGrow(table, e);
    AdoptTable(table, host, bufs, e);
    CacheGrows(table, host, bufs, e);
    assert (table + [e])[|table|] == e;
    FindIs(table + [e], |table|);
    AdoptSlots(slots, buf, mem);
  }

  lemma AdoptTable(table: seq<Entry>, host: map<Col, seq<byte>>, bufs: map<Handle, seq<byte>>, e: Entry)
    requires TableOk(table, host, bufs) && |table| < MAX_RESIDENT && Find(table, e.host).None?
    requires e.host in host && e.buf in bufs && e.buf != 0 && e.mem != 0 && |bufs[e.buf]| == e.bytes == |host[e.host]|
    requires e.buf !in Buffers(table) && e.mem !in Memories(table)
    ensures TableOk(table + [e], host, bufs)
  {
    var t := table + [e];
    forall i | 0 <= i < |table|
      ensures t[i] == table[i] && t[i].host != e.host && t[i].buf != e.buf && t[i].mem != e.mem
    {
      assert table[i].buf in Buffers(table) && table[i].mem in Memories(table);
    }
  }

  lemma AdoptSlots(slots: seq<Slot>, buf: Handle, mem: Handle)
    requires SlotsOk(slots + [Slot(buf, mem, false, false)]) && buf != 0 && mem != 0
    ensures SlotsOk(slots + [Slot(buf, mem, false, true)])
    ensures buf !in SlotBuffers(slots) && mem !in SlotMemories(slots)
  {
    var old1 := slots + [Slot(buf, mem, false, false)];
    assert old1[|slots|] == Slot(buf, mem, false, false);
    assert forall b :: 0 <= b < |slots| ==> old1[b] == slots[b] == (slots + [Slot(buf, mem, false, true)])[b];
  }

  class Gpu {
    // The program's columns.
    var host: map<Col, seq<byte>>
    // Resident columns.
    var table: seq<Entry>
    // Live buffers and what they hold, live allocations, live mappings.
    var bufs: map<Handle, seq<byte>>
    var mems: set<Handle>
    var mapped: set<Handle>
    // The next handle to be given out.
    var next: Handle
    // Live command buffers and descriptor pools.
    var cmds: nat
    var pools: nat
    // How many device calls have failed.
    ghost var faults: nat

    ghost predicate Sound(slots: seq<Slot>)
      reads this
    {
      Owned(table, host, bufs, mems, mapped, next, slots)
    }

    // Between dispatches nothing is alive but what the table owns.
    ghost predicate Valid()
      reads this
    {
      Sound([]) && cmds == 0 && pools == 0
    }

    ghost function View(): World
      reads this
    {
      World(host, CacheOf(table, bufs))
    }

    constructor (memory: map<Col, seq<byte>>)
      ensures Valid() && View() == World(memory, map[])
    {
      host, table, bufs, mems, mapped, next, cmds, pools, faults := memory, [], map[], {}, {}, 1, 0, 0, 0;
    }

    // What is owned is live, and what is live was given out before.
    lemma Live(slots: seq<Slot>)
      requires Sound(slots)
      ensures Buffers(table) <= bufs.Keys && Memories(table) <= mems && mapped <= mems && next > 0
      ensures (forall h :: h in bufs ==> 0 < h < next) && (forall h :: h in mems ==> 0 < h < next)
    {
    }

    // ---- device calls ----

    // A call that only succeeds or fails: recording commands, submitting them, waiting for them, and the like.
    method Try() returns (ok: bool)
      modifies this`faults
      ensures faults == old(faults) + if ok then 0 else 1
    {
      ok := *;
      if !ok {
        faults := faults + 1;
      }
    }

    method CreateBuffer(bytes: nat) returns (h: Handle)
      requires next > 0
      modifies this`bufs, this`next, this`faults
      ensures faults == old(faults) + if h != 0 then 0 else 1
      ensures h == 0 ==> bufs == old(bufs) && next == old(next)
      ensures h != 0 ==> h == old(next) && next == h + 1
      ensures h != 0 ==> h in bufs && |bufs[h]| == bytes && bufs == old(bufs)[h := bufs[h]]
    {
      var ok := Try();
      if ok {
        var junk := seq(bytes, i => 0);
        bufs := bufs[next := junk];
        h := next;
        next := next + 1;
      } else {
        h := 0;
      }
    }

    method AllocateMemory() returns (h: Handle)
      requires next > 0
      modifies this`mems, this`next, this`faults
      ensures faults == old(faults) + if h != 0 then 0 else 1
      ensures h == 0 ==> mems == old(mems) && next == old(next)
      ensures h != 0 ==> h == old(next) && next == h + 1 && mems == old(mems) + {h}
    {
      var ok := Try();
      if ok {
        mems := mems + {next};
        h := next;
        next := next + 1;
      } else {
        h := 0;
      }
    }

    // Mapping is only asked for live allocations that are not mapped yet.
    method MapMemory(h: Handle) returns (ok: bool)
      requires h in mems && h !in mapped
      modifies this`mapped, this`faults
      ensures mapped == old(mapped) + if ok then {h} else {}
      ensures faults == old(faults) + if ok then 0 else 1
    {
      ok := Try();
      if ok {
        mapped := mapped + {h};
      }
    }

    method UnmapMemory(h: Handle)
      requires h in mapped
      modifies this`mapped
      ensures mapped == old(mapped) - {h}
    {
      mapped := mapped - {h};
    }

    // Only a live buffer that no resident column owns may be destroyed.
    method DestroyBuffer(h: Handle)
      requires h in bufs && h !in Buffers(table)
      modifies this`bufs
      ensures bufs == old(bufs) - {h}
    {
      bufs := bufs - {h};
    }

    method FreeMemory(h: Handle)
      requires h in mems && h !in mapped && h !in Memories(table)
      modifies this`mems
      ensures mems == old(mems) - {h}
    {
      mems := mems - {h};
    }

    // ---- the table ----

    method ResidentFind(c: Col) returns (r: Option<nat>)
      ensures r == Find(table, c)
    {
      var i := 0;
      while i < |table|
        invariant i <= |table|
        invariant Find(table, c) == (match Find(table[i..], c) case None => None case Some(j) => Some(i + j))
      {
        if table[i].host == c {
          return Some(i);
        }
        assert table[i..][1..] == table[i + 1..];
        i := i + 1;
      }
      return None;
    }

    // ---- staged copies ----

    // A temporary host-visible buffer, filled or read through one transfer. Whatever fails, the temporary objects
    // are gone afterwards; a failed upload leaves unknown bytes of the right number in the device buffer.
    method StagedCopy(c: Col, dev: Handle, toDevice: bool, ghost slots: seq<Slot>) returns (ok: bool)
      requires Sound(slots) && c in host && dev in bufs && |host[c]| == |bufs[dev]|
      modifies this`host, this`bufs, this`mems, this`mapped, this`next, this`cmds, this`faults
      ensures faults == old(faults) + if ok then 0 else 1
      ensures bufs.Keys == old(bufs.Keys) && mems == old(mems) && mapped == old(mapped) && cmds == old(cmds)
      ensures next >= old(next) && dev in bufs && |bufs[dev]| == |old(bufs[dev])|
      ensures bufs == old(bufs)[dev := bufs[dev]]
      ensures ok && toDevice ==> host == old(host) && bufs[dev] == host[c]
      ensures ok && !toDevice ==> bufs == old(bufs) && host == old(host)[c := bufs[dev]]
      ensures !ok ==> host == old(host)
      ensures !ok && !toDevice ==> bufs == old(bufs)
    {
      hide Sound, Buffers, Memories;
      Live(slots);
      ok := false;
      var staging := CreateBuffer(|host[c]|);
      if staging == 0 {
        return;
      }
      var smem := AllocateMemory();
      var isMapped := false;
      if smem != 0 {
        isMapped := MapMemory(smem);
        if isMapped {
          ok := Transfer(c, dev, staging, toDevice);
        }
      }
      if isMapped {
        UnmapMemory(smem);
      }
      DestroyBuffer(staging);
      if smem != 0 {
        FreeMemory(smem);
      }
    }

    // The transfer between the two buffers; a failed wait leaves the target in doubt.
    method Transfer(c: Col, dev: Handle, staging: Handle, toDevice: bool) returns (ok: bool)
      requires c in host && dev in bufs && staging in bufs && dev != staging && |bufs[dev]| == |bufs[staging]| == |host[c]|
      modifies this`host, this`bufs, this`cmds, this`faults
      ensures faults == old(faults) + if ok then 0 else 1
      ensures cmds == old(cmds) && bufs.Keys == old(bufs.Keys)
      ensures |bufs[dev]| == |old(bufs[dev])|
      ensures bufs == old(bufs)[dev := bufs[dev]][staging := bufs[staging]]
      ensures ok && toDevice ==> host == old(host) && bufs[dev] == host[c]
      ensures !toDevice ==> bufs[dev] == old(bufs[dev])
      ensures ok && !toDevice ==> host == old(host)[c := bufs[dev]]
      ensures !ok ==> host == old(host)
    {
      ok := false;
      if toDevice {
        bufs := bufs[staging := host[c]];
      }
      var recorded := Try();
      if recorded {
        cmds := cmds + 1;
        var submitted := Try();
        if submitted {
          var finished := Try();
          if !finished {
            var target := if toDevice then dev else staging;
            var junk: seq<byte> :| |junk| == |bufs[target]|;
            bufs := bufs[target := junk];
          } else if toDevice {
            bufs := bufs[dev := bufs[staging]];
            ok := true;
          } else {
            bufs := bufs[staging := bufs[dev]];
            host := host[c := bufs[staging]];
            ok := true;
          }
        }
        cmds := cmds - 1;
      }
    }

    // ---- acquiring columns ----

    // A device-local buffer that stays in the table: reused if the column has one, else created and filled once.
    method AcquireResident(c: Col, bytes: nat, ghost slots: seq<Slot>) returns (slot: Slot, ok: bool)
      requires Sound(slots) && c in host && |host[c]| == bytes && |table| < MAX_RESIDENT
      modifies this`host, this`table, this`bufs, this`mems, this`mapped, this`next, this`cmds, this`faults
      ensures faults == old(faults) + if ok then 0 else 1
      ensures Sound(slots + [slot]) && cmds == old(cmds) && host == old(host)
      ensures old(bufs.Keys) <= bufs.Keys && (forall h :: h in old(bufs) ==> bufs[h] == old(bufs[h]))
      ensures old(table) <= table && (slot.cached <==> ok)
      ensures ok ==> Find(table, c).Some? && slot.buf == table[Find(table, c).value].buf && slot.buf in bufs
      ensures ok ==> CacheOf(table, bufs) ==
                       if Find(old(table), c).Some? then old(CacheOf(table, bufs))
                       else old(CacheOf(table, bufs))[c := Copy(host[c], false)]
      ensures !ok ==> table == old(table) && CacheOf(table, bufs) == old(CacheOf(table, bufs))
    {
      hide Owned, CacheOf;
      ok := false;
      var r := ResidentFind(c);
      SizesAgree(slots, r);
      if r.Some? && table[r.value].bytes == bytes {
        slot := Slot(table[r.value].buf, table[r.value].mem, false, true);
        OwnNone(table, host, bufs, mems, mapped, next, slots, slot);
        ok := true;
        return;
      }
      ghost var b0 := bufs;
      Live(slots);
      slot := NO_SLOT;
      OwnNone(table, host, bufs, mems, mapped, next, slots, NO_SLOT);
      var buf := CreateBuffer(bytes);
      if buf == 0 {
        return;
      }
      OwnBuffer(table, host, b0, mems, mapped, buf, slots, bufs[buf]);
      slot := Slot(buf, 0, false, false);
      var mem := AllocateMemory();
      if mem == 0 {
        return;
      }
      OwnMemory(table, host, bufs, old(mems), mapped, mem, slots, buf);
      slot := Slot(buf, mem, false, false);
      ghost var b1, n1 := bufs, next;
      var copied := StagedCopy(c, buf, true, slots + [slot]);
      assert Owned(table, host, bufs, mems, mapped, next, slots + [slot]) by {
        LastBuffer(slots, slot);
        OwnContent(table, host, b1, mems, mapped, n1, slots + [slot], buf, bufs[buf]);
        OwnLater(table, host, bufs, mems, mapped, n1, next, slots + [slot]);
      }
      assert CacheOf(table, bufs) == CacheOf(table, b1) by {
        LastBuffer(slots, slot);
        OwnContent(table, host, b1, mems, mapped, n1, slots + [slot], buf, bufs[buf]);
      }
      if !copied {
        return;
      }
      Adopt(table, host, bufs, mems, mapped, next, slots, c, buf, mem);
      table := table + [Entry(c, buf, mem, bytes, false)];
      slot := Slot(buf, mem, false, true);
      ok := true;
    }

    lemma SizesAgree(slots: seq<Slot>, r: Option<nat>)
      requires Sound(slots)
      ensures r.Some? && r.value < |table| ==>
                table[r.value].buf in bufs && table[r.value].host in host && table[r.value].bytes == |host[table[r.value].host]|
    {
    }

    // A host-visible buffer for this dispatch only, mapped and filled.
    method AcquireMapped(c: Col, bytes: nat, ghost slots: seq<Slot>) returns (slot: Slot, ok: bool)
      requires Sound(slots) && c in host && |host[c]| == bytes
      modifies this`bufs, this`mems, this`mapped, this`next, this`faults
      ensures faults == old(faults) + if ok then 0 else 1
      ensures Sound(slots + [slot]) && !slot.cached
      ensures old(bufs.Keys) <= bufs.Keys && (forall h :: h in old(bufs) ==> bufs[h] == old(bufs[h]))
      ensures CacheOf(table, bufs) == old(CacheOf(table, bufs))
      ensures ok ==> slot.mapped && slot.buf in bufs && slot.buf !in old(bufs) && slot.buf != 0 && bufs[slot.buf] == host[c]
    {
      hide Owned, CacheOf;
      ok := false;
      ghost var b0 := bufs;
      Live(slots);
      slot := NO_SLOT;
      OwnNone(table, host, bufs, mems, mapped, next, slots, NO_SLOT);
      var buf := CreateBuffer(bytes);
      if buf == 0 {
        return;
      }
      OwnBuffer(table, host, b0, mems, mapped, buf, slots, bufs[buf]);
      slot := Slot(buf, 0, false, false);
      var mem := AllocateMemory();
      if mem == 0 {
        return;
      }
      OwnMemory(table, host, bufs, old(mems), mapped, mem, slots, buf);
      slot := Slot(buf, mem, false, false);
      OwnMapping(table, host, bufs, mems, mapped, next, slots, buf, mem);
      var isMapped := MapMemory(mem);
      if !isMapped {
        assert mapped == old(mapped);
        return;
      }
      slot := Slot(buf, mem, true, false);
      LastBuffer(slots, slot);
      OwnContent(table, host, bufs, mems, mapped, next, slots + [slot], buf, host[c]);
      bufs := bufs[buf := host[c]];
      ok := true;
    }

    // What acquiring n columns has done: resident ones as the contract says, the others into buffers of their own.
    ghost predicate Acquired(w0: World, cols: seq<Col>, resident: bool, slots: seq<Slot>, n: nat)
      requires n <= |cols| && n <= |slots|
      reads this
    {
      View() == (if resident then EnterN(w0, cols, n) else w0) && Filled(w0, cols, resident, slots, n, table, bufs, host)
    }

    ghost predicate Filled(w0: World, cols: seq<Col>, resident: bool, slots: seq<Slot>, n: nat, t: seq<Entry>, bs: map<Handle, seq<byte>>,
                           h: map<Col, seq<byte>>)
      requires n <= |cols| && n <= |slots|
    {
      && (forall b :: 0 <= b < n ==> slots[b].cached == (resident && OnDevice(w0, cols, b)) && slots[b].buf in bs)
      && (forall b :: 0 <= b < n && slots[b].cached ==>
            Find(t, cols[b]).Some? && t[Find(t, cols[b]).value].buf == slots[b].buf)
      && (forall b :: 0 <= b < n && !slots[b].cached ==>
            cols[b] in h && bs[slots[b].buf] == h[cols[b]] && slots[b].buf != 0 && slots[b].mapped)
    }

    // One column more.
    lemma FilledMore(w0: World, cols: seq<Col>, resident: bool, slots: seq<Slot>, s: Slot, t0: seq<Entry>, t1: seq<Entry>,
                     b0: map<Handle, seq<byte>>, b1: map<Handle, seq<byte>>, h: map<Col, seq<byte>>)
      requires |slots| < |cols| && Filled(w0, cols, resident, slots, |slots|, t0, b0, h) && t0 <= t1
      requires forall x :: x in b0 ==> x in b1 && b1[x] == b0[x]
      requires s.cached == (resident && OnDevice(w0, cols, |slots|)) && s.buf in b1
      requires s.cached ==> Find(t1, cols[|slots|]).Some? && t1[Find(t1, cols[|slots|]).value].buf == s.buf
      requires !s.cached ==> cols[|slots|] in h && b1[s.buf] == h[cols[|slots|]] && s.buf != 0 && s.mapped
      ensures Filled(w0, cols, resident, slots + [s], |slots| + 1, t1, b1, h)
    {
      hide OnDevice, Find;
      FoundStill(t0, t1, cols, slots, |slots|);
      var all := slots + [s];
      assert all[|slots|] == s && forall a :: 0 <= a < |slots| ==> all[a] == slots[a];
    }

    method Acquire(cols: seq<Col>, bytes: nat, resident: bool) returns (slots: seq<Slot>, ok: bool)
      requires Sound([]) && (forall b :: 0 <= b < |cols| ==> cols[b] in host && |host[cols[b]]| == bytes)
      modifies this`host, this`table, this`bufs, this`mems, this`mapped, this`next, this`cmds, this`faults
      ensures faults == old(faults) + if ok then 0 else 1
      ensures Sound(slots) && cmds == old(cmds) && host == old(host) && |slots| <= |cols|
      ensures ok ==> |slots| == |cols| && Acquired(old(View()), cols, resident, slots, |cols|)
      ensures !ok ==> slots != [] && View() == (if resident then EnterN(old(View()), cols, |slots| - 1) else old(View()))
      ensures old(table) <= table
    {
      hide Owned, CacheOf, OnDevice, EnterN, Enter, Find, Filled;
      ghost var w0 := View();
      assert Filled(w0, cols, resident, [], 0, table, bufs, host) by { FilledNone(w0, cols, resident, table, bufs, host); }
      assert EnterN(w0, cols, 0) == w0 by { EnterNone(w0, cols); }
      slots, ok := [], true;
      for b := 0 to |cols|
        invariant Sound(slots) && cmds == old(cmds) && host == old(host) && |slots| == b
        invariant Acquired(w0, cols, resident, slots, b) && old(table) <= table && faults == old(faults)
      {
        ghost var t0, b0 := table, bufs;
        ghost var w1 := View();
        ghost var before := slots;
        var s: Slot;
        TableSize(slots);
        if resident && |table| < MAX_RESIDENT {
          s, ok := AcquireResident(cols[b], bytes, slots);
        } else {
          s, ok := AcquireMapped(cols[b], bytes, slots);
        }
        slots := slots + [s];
        if !ok {
          return;
        }
        EnteredOne(w0, w1, cols, resident, b, t0, b0, s);
        assert s.cached ==> resident;
        FilledMore(w0, cols, resident, before, s, t0, table, b0, bufs, host);
      }
    }

    lemma FilledNone(w0: World, cols: seq<Col>, resident: bool, t: seq<Entry>, bs: map<Handle, seq<byte>>, h: map<Col, seq<byte>>)
      ensures Filled(w0, cols, resident, [], 0, t, bs, h)
    {
    }

    lemma EnterNone(w: World, cols: seq<Col>)
      ensures EnterN(w, cols, 0) == w
    {
    }

    lemma TableSize(slots: seq<Slot>)
      requires Sound(slots)
      ensures |View().cache| == |table| <= MAX_RESIDENT
    {
      CacheSize(table, host, bufs);
    }

    // Entering one column is one step of the contract.
    lemma EnteredOne(w0: World, w1: World, cols: seq<Col>, resident: bool, b: nat, t0: seq<Entry>, b0: map<Handle, seq<byte>>, s: Slot)
      requires b < |cols| && cols[b] in host && w1 == World(host, CacheOf(t0, b0)) && |w1.cache| == |t0|
      requires w1 == if resident then EnterN(w0, cols, b) else w0
      requires s.cached == (resident && |t0| < MAX_RESIDENT)
      requires s.cached ==> CacheOf(table, bufs) ==
                              if Find(t0, cols[b]).Some? then w1.cache else w1.cache[cols[b] := Copy(host[cols[b]], false)]
      requires !s.cached ==> CacheOf(table, bufs) == w1.cache
      ensures View() == if resident then EnterN(w0, cols, b + 1) else w0
      ensures resident ==> s.cached == OnDevice(w0, cols, b)
    {
      InCache(t0, b0, cols[b]);
    }

    lemma FoundStill(t0: seq<Entry>, t1: seq<Entry>, cols: seq<Col>, slots: seq<Slot>, n: nat)
      requires t0 <= t1 && n <= |cols| && n <= |slots|
      requires forall b :: 0 <= b < n && slots[b].cached ==>
                 Find(t0, cols[b]).Some? && t0[Find(t0, cols[b]).value].buf == slots[b].buf
      ensures forall b :: 0 <= b < n && slots[b].cached ==>
                Find(t1, cols[b]).Some? && t1[Find(t1, cols[b]).value].buf == slots[b].buf
    {
      forall b | 0 <= b < n && slots[b].cached
        ensures Find(t1, cols[b]) == Find(t0, cols[b])
      {
        FindStable(t0, t1, cols[b]);
      }
    }

    // ---- the kernel ----

    // Cached slots are their columns' table entries.
    ghost predicate Linked(cols: seq<Col>, slots: seq<Slot>)
      reads this
    {
      && |slots| == |cols| && (forall b :: 0 <= b < |slots| ==> slots[b].buf in bufs && slots[b].buf != 0)
      && (forall b :: 0 <= b < |slots| && slots[b].cached ==>
            Find(table, cols[b]).Some? && table[Find(table, cols[b]).value].buf == slots[b].buf)
    }

    // One result into its buffer.
    method WriteOne(c: Col, slot: Slot, data: seq<byte>, ghost slots: seq<Slot>)
      requires Sound(slots) && slot in slots && slot.buf in bufs && |data| == |bufs[slot.buf]| && slot.buf != 0
      requires slot.cached ==> Find(table, c).Some? && table[Find(table, c).value].buf == slot.buf
      modifies this`bufs
      ensures Sound(slots) && bufs == old(bufs)[slot.buf := data]
      ensures View().cache == if slot.cached then old(View().cache)[c := Copy(data, Dirty(old(View()), c))] else old(View().cache)
    {
      hide CacheOf, Buffers;
      if slot.cached {
        var i := Find(table, c).value;
        CacheAt(table, host, bufs, i);
        CacheChanges(table, host, bufs, i, data, table[i].dirty);
        assert table[i := table[i].(dirty := table[i].dirty)] == table;
      } else {
        SlotIn(slots, slot);
        OwnContent(table, host, bufs, mems, mapped, next, slots, slot.buf, data);
      }
      bufs := bufs[slot.buf := data];
    }

    method WriteAll(cols: seq<Col>, slots: seq<Slot>, outs: seq<seq<byte>>, ghost w0: World, resident: bool)
      requires Sound(slots) && Linked(cols, slots) && |outs| == |slots|
      requires forall b :: 0 <= b < |slots| ==> |outs[b]| == |bufs[slots[b].buf]|
      requires forall a, b :: 0 <= a < b < |slots| ==> slots[a].buf != slots[b].buf
      requires forall b :: 0 <= b < |slots| ==> slots[b].cached == (resident && OnDevice(w0, cols, b))
      modifies this`bufs
      ensures Sound(slots) && bufs.Keys == old(bufs.Keys)
      ensures forall b :: 0 <= b < |slots| ==> bufs[slots[b].buf] == outs[b]
      ensures View() == if resident then Wrote(w0, old(View()), cols, outs, |cols|) else old(View())
    {
      hide Owned, CacheOf, OnDevice, Dirty;
      for n := 0 to |slots|
        invariant Sound(slots) && bufs.Keys == old(bufs.Keys)
        invariant forall b :: 0 <= b < n ==> bufs[slots[b].buf] == outs[b]
        invariant forall b :: n <= b < |slots| ==> bufs[slots[b].buf] == old(bufs[slots[b].buf])
        invariant View() == if resident then Wrote(w0, old(View()), cols, outs, n) else old(View())
      {
        WriteOne(cols[n], slots[n], outs[n], slots);
      }
    }

    // The kernel runs over the acquired buffers. If the wait fails they hold unknown bytes, of the right number.
    method Execute(k: Kernel, cols: seq<Col>, slots: seq<Slot>, ghost w0: World, resident: bool) returns (ok: bool, ghost outs: seq<seq<byte>>)
      requires Sound(slots) && Linked(cols, slots) && KernelOk(k) && cmds == 0 && pools == 0
      requires forall a, b :: 0 <= a < b < |slots| ==> slots[a].buf != slots[b].buf
      requires forall b :: 0 <= b < |slots| ==> slots[b].cached == (resident && OnDevice(w0, cols, b))
      modifies this`bufs, this`cmds, this`pools, this`faults
      ensures faults == old(faults) + if ok then 0 else 1
      ensures cmds == 0 && pools == 0 && Sound(slots) && bufs.Keys == old(bufs.Keys) && |outs| == |cols|
      ensures ok ==> outs == k(Contents(old(bufs), slots))
      ensures ok ==> forall b :: 0 <= b < |slots| ==> bufs[slots[b].buf] == outs[b] && |outs[b]| == |old(bufs[slots[b].buf])|
      ensures View() == old(View()) || View() == if resident then Wrote(w0, old(View()), cols, outs, |cols|) else old(View())
      ensures ok ==> View() == if resident then Wrote(w0, old(View()), cols, outs, |cols|) else old(View())
    {
      hide Owned, CacheOf, OnDevice, Dirty;
      ok := false;
      outs := seq(|cols|, b => []);
      var pool := Try();
      if !pool {
        return;
      }
      pools := pools + 1;
      var recorded := Try();
      if recorded {
        cmds := cmds + 1;
        var submitted := Try();
        if submitted {
          var ins := Contents(bufs, slots);
          var results := k(ins);
          assert SameShape(ins, results);
          var finished := Try();
          if !finished {
            results :| SameShape(ins, results);
          }
          assert SameShape(ins, results) && |results| == |slots|;
          assert forall b :: 0 <= b < |slots| ==> |ins[b]| == |results[b]| && ins[b] == bufs[slots[b].buf];
          WriteAll(cols, slots, results, w0, resident);
          outs := results;
          ok := finished;
        }
        cmds := cmds - 1;
      }
      pools := pools - 1;
    }

    // ---- handing results back ----

    // A resident result stays on the device and is marked; any other is copied to its host column.
    method HandBackOne(c: Col, slot: Slot, ghost slots: seq<Slot>)
      requires Sound(slots) && c in host && slot.buf in bufs && |bufs[slot.buf]| == |host[c]|
      requires slot.cached ==> Find(table, c).Some? && table[Find(table, c).value].buf == slot.buf
      modifies this`host, this`table
      ensures Sound(slots) && host.Keys == old(host.Keys) && |host[c]| == |old(host[c])|
      ensures forall x :: x in host && x != c ==> host[x] == old(host[x])
      ensures forall x :: Find(table, x) == Find(old(table), x)
      ensures |table| == |old(table)| && forall i :: 0 <= i < |table| ==> table[i].buf == old(table)[i].buf
      ensures View() == if slot.cached then old(View()).(cache := old(View().cache)[c := Copy(DeviceOf(old(View()), c), true)])
                        else old(View()).(host := old(host)[c := bufs[slot.buf]])
    {
      hide CacheOf;
      if slot.cached {
        var r := ResidentFind(c);
        var i := r.value;
        CacheAt(table, host, bufs, i);
        CacheChanges(table, host, bufs, i, bufs[table[i].buf], true);
        assert bufs[table[i].buf := bufs[table[i].buf]] == bufs;
        FindIgnoresFlags(table, table[i := table[i].(dirty := true)]);
        table := table[i := table[i].(dirty := true)];
      } else {
        HostChanges(table, host, bufs, c, bufs[slot.buf]);
        host := host[c := bufs[slot.buf]];
      }
    }

    method HandBack(cols: seq<Col>, slots: seq<Slot>, ghost outs: seq<seq<byte>>, ghost w0: World, resident: bool)
      requires Sound(slots) && Linked(cols, slots) && |outs| == |cols| && Distinct(cols)
      requires forall b :: 0 <= b < |slots| ==>
                 cols[b] in host && |bufs[slots[b].buf]| == |host[cols[b]]| && bufs[slots[b].buf] == outs[b]
      requires forall b :: 0 <= b < |slots| ==> slots[b].cached == (resident && OnDevice(w0, cols, b))
      modifies this`host, this`table
      ensures Sound(slots)
      ensures |table| == |old(table)| && forall i :: 0 <= i < |table| ==> table[i].buf == old(table)[i].buf
      ensures View() == if resident then Results(w0, old(View()), cols, outs, |cols|)
                        else World(Scatter(old(host), cols, outs, |cols|), old(View()).cache)
    {
      hide Owned, CacheOf, OnDevice, Find;
      for n := 0 to |cols|
        invariant Sound(slots) && host.Keys == old(host.Keys)
        invariant forall x :: Find(table, x) == Find(old(table), x)
        invariant |table| == |old(table)| && forall i :: 0 <= i < |table| ==> table[i].buf == old(table)[i].buf
        invariant forall b :: n <= b < |cols| ==> host[cols[b]] == old(host[cols[b]])
        invariant View() == if resident then Results(w0, old(View()), cols, outs, n)
                            else World(Scatter(old(host), cols, outs, n), old(View()).cache)
      {
        HandBackOne(cols[n], slots[n], slots);
      }
    }

    // ---- cleanup ----

    // Everything the dispatch still holds goes: mapping, buffer, allocation, of each column that is not cached.
    method Cleanup(slots: seq<Slot>)
      requires Sound(slots)
      modifies this`bufs, this`mems, this`mapped
      ensures Sound([]) && View() == old(View())
    {
      hide Owned, CacheOf;
      assert slots[0..] == slots;
      for b := 0 to |slots|
        invariant Sound(slots[b..]) && View() == old(View())
      {
        assert slots[b..][1..] == slots[b + 1..];
        CleanupOne(slots[b..], slots[b]);
      }
      assert slots[|slots|..] == [];
    }

    method CleanupOne(ghost rest: seq<Slot>, s: Slot)
      requires Sound(rest) && rest != [] && rest[0] == s
      modifies this`bufs, this`mems, this`mapped
      ensures Sound(rest[1..]) && View() == old(View())
    {
      hide CacheOf, TableOk, Buffers, Memories, SlotBuffers, SlotMemories, SlotMapped;
      Release(rest);
      if s.cached {
        return;
      }
      if s.mapped {
        UnmapMemory(s.mem);
      }
      if s.buf != 0 {
        ReleaseBuffer(table, host, bufs, s.buf);
        DestroyBuffer(s.buf);
      }
      if s.mem != 0 {
        FreeMemory(s.mem);
      }
    }

    // ---- the whole dispatch ----

    // A failure at any point leaves the host's columns alone and gives everything back but the resident columns'
    // buffers; success has the effect of the contract.
    method Dispatch(k: Kernel, cols: seq<Col>, elemSize: nat, count: nat, resident: bool) returns (rc: int)
      requires Valid() && KernelOk(k) && Distinct(cols)
      requires forall b :: 0 <= b < |cols| ==> cols[b] in host && |host[cols[b]]| == elemSize * count
      modifies this
      ensures Valid() && (rc == 0 || rc == 1) && host.Keys == old(host.Keys)
      ensures rc == 0 <==> 0 < |cols| <= MAX_COL && (count == 0 || faults == old(faults))
      ensures faults == old(faults) + if rc == 0 || |cols| == 0 || |cols| > MAX_COL then 0 else 1
      ensures rc == 0 && count == 0 ==> View() == old(View())
      ensures rc == 0 && count != 0 ==> View() == if resident then Dispatched(old(View()), cols, k) else OnHost(old(View()), cols, k)
      ensures rc != 0 ==> Undone(old(View()), cols, View()) && (!resident ==> View() == old(View()))
      ensures |old(table)| <= |table| && forall i :: 0 <= i < |old(table)| ==> table[i].buf == old(table)[i].buf
    {
      hide Owned, CacheOf, OnDevice, Find, Dispatched, OnHost, Undone;
      SmallView([]);
      UndoneSelf(View(), cols);
      if |cols| == 0 || |cols| > MAX_COL {
        return 1;
      }
      if count == 0 {
        return 0;
      }
      var ready := Try();
      if !ready {
        return 1;
      }
      ghost var w0 := View();
      rc := DispatchReady(k, cols, elemSize * count, resident);
      KeysStay(w0, View(), rc, resident, cols, k);
    }

    // Acquire, execute, hand back; clean up however far that got.
    method DispatchReady(k: Kernel, cols: seq<Col>, bytes: nat, resident: bool) returns (rc: int)
      requires Valid() && KernelOk(k) && Distinct(cols)
      requires forall b :: 0 <= b < |cols| ==> cols[b] in host && |host[cols[b]]| == bytes
      modifies this
      ensures Valid() && (rc == 0 || rc == 1) && faults == old(faults) + rc
      ensures rc == 0 ==> View() == if resident then Dispatched(old(View()), cols, k) else OnHost(old(View()), cols, k)
      ensures rc != 0 ==> Undone(old(View()), cols, View()) && (!resident ==> View() == old(View()))
      ensures |old(table)| <= |table| && forall i :: 0 <= i < |old(table)| ==> table[i].buf == old(table)[i].buf
    {
      hide Owned, CacheOf, OnDevice, Find, Inputs, Gather, Undone, Dispatched, OnHost;
      ghost var w0 := View();
      SmallView([]);
      rc := 1;
      var slots, acquired := Acquire(cols, bytes, resident);
      if acquired {
        var ok := ExecuteAcquired(k, cols, bytes, slots, w0, resident);
        rc := if ok then 0 else 1;
      } else {
        EnteredUndone(w0, cols, resident, |slots| - 1, View());
      }
      Cleanup(slots);
    }

    method ExecuteAcquired(k: Kernel, cols: seq<Col>, bytes: nat, slots: seq<Slot>, ghost w0: World, resident: bool) returns (ok: bool)
      requires Sound(slots) && cmds == 0 && pools == 0 && KernelOk(k) && Distinct(cols) && |slots| == |cols|
      requires Acquired(w0, cols, resident, slots, |cols|) && w0.host == host
      requires |w0.cache| <= MAX_RESIDENT && w0.cache.Keys <= w0.host.Keys
      requires forall b :: 0 <= b < |cols| ==> cols[b] in host && |host[cols[b]]| == bytes
      modifies this`bufs, this`host, this`table, this`cmds, this`pools, this`faults
      ensures Sound(slots) && cmds == 0 && pools == 0 && faults == old(faults) + if ok then 0 else 1
      ensures ok ==> View() == if resident then Dispatched(w0, cols, k) else OnHost(w0, cols, k)
      ensures !ok ==> Undone(w0, cols, View()) && (!resident ==> View() == w0)
      ensures |table| == |old(table)| && forall i :: 0 <= i < |table| ==> table[i].buf == old(table)[i].buf
    {
      hide Owned, CacheOf, OnDevice, Find, Inputs, Gather, Undone, EnterN;
      ghost var w1 := View();
      SlotsApart(cols, slots, resident, w0);
      ghost var ins := Contents(bufs, slots);
      InputsRead(cols, slots, resident, w0);
      SlotSizes(cols, slots, resident, w0, bytes);
      ghost var outs;
      ok, outs := Execute(k, cols, slots, w0, resident);
      if ok {
        assert SameShape(ins, k(ins));
        HandBack(cols, slots, outs, w0, resident);
      } else {
        WroteUndone(w0, w1, cols, resident, outs, View());
      }
    }

    lemma SmallView(slots: seq<Slot>)
      requires Sound(slots)
      ensures |View().cache| <= MAX_RESIDENT && View().cache.Keys <= View().host.Keys
    {
      TableSize(slots);
      assert forall c :: c in CacheOf(table, bufs) ==> c in host;
    }

    lemma KeysStay(w0: World, w: World, rc: int, resident: bool, cols: seq<Col>, k: Kernel)
      requires |w0.cache| <= MAX_RESIDENT && Distinct(cols) && (forall c :: c in cols ==> c in w0.host)
      requires rc == 0 ==> w == if resident then Dispatched(w0, cols, k) else OnHost(w0, cols, k)
      requires rc != 0 ==> Undone(w0, cols, w)
      ensures w.host.Keys == w0.host.Keys
    {
      if rc == 0 && resident {
        var e := EnterN(w0, cols, |cols|);
        var outs := Fix(k(Inputs(w0, cols)), |cols|);
        Entered(w0, cols, |cols|);
        forall b | 0 <= b < |cols| && OnDevice(w0, cols, b) ensures cols[b] in e.cache { OnDeviceEntered(w0, cols, b); }
        assert forall b :: 0 <= b < |cols| ==> cols[b] in e.host;
        WroteKeys(w0, e, cols, outs, |cols|);
        ResultKeys(w0, Wrote(w0, e, cols, outs, |cols|), cols, outs, |cols|);
      } else if rc == 0 {
        Scattered(w0.host, cols, Fix(k(Gather(w0.host, cols)), |cols|), |cols|);
      }
    }

    // No buffer serves two columns.
    lemma SlotsApart(cols: seq<Col>, slots: seq<Slot>, resident: bool, w0: World)
      requires Sound(slots) && |slots| == |cols| && Acquired(w0, cols, resident, slots, |cols|) && Distinct(cols)
      ensures Linked(cols, slots) && forall a, b :: 0 <= a < b < |slots| ==> slots[a].buf != slots[b].buf
    {
      hide CacheOf, OnDevice;
      forall a, b | 0 <= a < |slots| && 0 <= b < |slots| && a != b
        ensures slots[a].buf != slots[b].buf
      {
        PairApart(cols, slots, a, b);
      }
      forall b | 0 <= b < |slots| && slots[b].cached
        ensures slots[b].buf != 0
      {
        assert table[Find(table, cols[b]).value].buf != 0;
      }
    }

    lemma PairApart(cols: seq<Col>, slots: seq<Slot>, a: nat, b: nat)
      requires Sound(slots) && |slots| == |cols| && a < |slots| && b < |slots| && a != b && Distinct(cols)
      requires forall i :: 0 <= i < |slots| && slots[i].cached ==>
                 Find(table, cols[i]).Some? && table[Find(table, cols[i]).value].buf == slots[i].buf
      requires forall i :: 0 <= i < |slots| && !slots[i].cached ==> slots[i].buf != 0
      ensures slots[a].buf != slots[b].buf
    {
      hide CacheOf;
      if slots[a].cached && slots[b].cached {
        var i, j := Find(table, cols[a]).value, Find(table, cols[b]).value;
        assert cols[a] != cols[b];
        assert i != j;
      } else if slots[a].cached {
        SlotIn(slots, slots[b]);
        assert slots[a].buf in Buffers(table);
      } else if slots[b].cached {
        SlotIn(slots, slots[a]);
        assert slots[b].buf in Buffers(table);
      }
    }

    // The buffers hold what the contract says the kernel reads.
    lemma InputsRead(cols: seq<Col>, slots: seq<Slot>, resident: bool, w0: World)
      requires Sound(slots) && |slots| == |cols| && Acquired(w0, cols, resident, slots, |cols|)
      requires w0.host == host && forall b :: 0 <= b < |cols| ==> cols[b] in host
      ensures Contents(bufs, slots) == if resident then Inputs(w0, cols) else Gather(host, cols)
    {
      hide OnDevice, Owned;
      forall b | 0 <= b < |cols| && slots[b].cached
        ensures cols[b] in CacheOf(table, bufs) && CacheOf(table, bufs)[cols[b]].data == bufs[slots[b].buf]
      {
        var i := Find(table, cols[b]).value;
        CachedContent(slots, i);
      }
    }

    lemma CachedContent(slots: seq<Slot>, i: nat)
      requires Sound(slots) && i < |table|
      ensures table[i].host in CacheOf(table, bufs) && table[i].buf in bufs
      ensures CacheOf(table, bufs)[table[i].host].data == bufs[table[i].buf]
      ensures table[i].host in host && |bufs[table[i].buf]| == |host[table[i].host]|
    {
      CacheAt(table, host, bufs, i);
    }

    lemma SlotSizes(cols: seq<Col>, slots: seq<Slot>, resident: bool, w0: World, bytes: nat)
      requires Sound(slots) && |slots| == |cols| && Acquired(w0, cols, resident, slots, |cols|)
      requires forall b :: 0 <= b < |cols| ==> cols[b] in host && |host[cols[b]]| == bytes
      ensures forall b :: 0 <= b < |slots| ==> |bufs[slots[b].buf]| == bytes
    {
      hide OnDevice, Owned, CacheOf;
      forall b | 0 <= b < |slots| && slots[b].cached
        ensures |bufs[slots[b].buf]| == bytes
      {
        CachedContent(slots, Find(table, cols[b]).value);
      }
    }

    // ---- a map with its fallback ----

    // A map runs on the device or, if that fails, on the CPU: one step of the contract either way.
    method RunMap(k: Kernel, cols: seq<Col>, elemSize: nat, count: nat, resident: bool) returns (ran: bool)
      requires Valid() && KernelOk(k) && Distinct(cols) && count > 0
      requires forall b :: 0 <= b < |cols| ==> cols[b] in host && |host[cols[b]]| == elemSize * count
      modifies this
      ensures Valid()
      ensures Steps(old(View()), Op.Dispatch(cols, k, resident), ran, View())
      ensures ran <==> 0 < |cols| <= MAX_COL && faults == old(faults)
    {
      hide Owned, CacheOf, Dispatched, MapOn;
      var rc := Dispatch(k, cols, elemSize, count, resident);
      ran := rc == 0;
      if !ran {
        ghost var u := View();
        assert forall b :: 0 <= b < |cols| ==> cols[b] in host && |host[cols[b]]| == elemSize * count;
        MapSizes(table, host, bufs, cols, k);
        host := MapOn(host, cols, k);
        assert Undone(old(View()), cols, u) && View() == OnHost(u, cols, k);
      }
    }

    // ---- transfers on request ----

    method SyncOneColumn(c: Col) returns (copied: bool)
      requires Valid()
      modifies this
      ensures Valid() && View() == if copied then SyncOne(old(View()), c) else LoseOne(old(View()), c)
      ensures faults == old(faults) + if copied then 0 else 1
    {
      hide CacheOf, Owned;
      copied := true;
      var r := ResidentFind(c);
      InCache(table, bufs, c);
      if r.Some? {
        var i := r.value;
        CachedContent([], i);
        OwnedTable([]);
        CacheAt(table, host, bufs, i);
        if table[i].dirty {
          ghost var t, h, n := table, host, next;
          copied := StagedCopy(c, table[i].buf, false, []);
          MarkClean(t, h, bufs, mems, mapped, n, next, i, bufs[t[i].buf]);
          if copied {
            HostOwned(table[i := table[i].(dirty := false)], h, bufs, mems, mapped, next, c, bufs[t[i].buf]);
          }
          table := table[i := table[i].(dirty := false)];
        }
      }
    }

    lemma OwnedTable(slots: seq<Slot>)
      requires Sound(slots)
      ensures TableOk(table, host, bufs)
    {
    }

    // `oks` says which columns' copies did not fail; each of the others goes back to one device call that failed.
    method SyncColumns(cols: seq<Col>) returns (oks: seq<bool>)
      requires Valid()
      modifies this
      ensures Valid() && |oks| == |cols| && View() == SyncSome(old(View()), cols, oks)
      ensures faults == old(faults) + Failures(oks)
      ensures (forall b :: 0 <= b < |cols| ==> oks[b]) ==> View() == SyncN(old(View()), cols, |cols|)
      ensures faults == old(faults) ==> View() == SyncN(old(View()), cols, |cols|)
    {
      hide CacheOf, Owned, SyncOne, LoseOne;
      oks := [];
      for b := 0 to |cols|
        invariant Valid() && |oks| == b && View() == SyncSome(old(View()), cols, oks)
        invariant faults == old(faults) + Failures(oks)
      {
        var ok := SyncOneColumn(cols[b]);
        assert (oks + [ok])[..b] == oks;
        oks := oks + [ok];
      }
      NoFailures(oks);
      if forall b :: 0 <= b < |cols| ==> oks[b] {
        AllSynced(old(View()), cols, oks);
      }
    }

    method UploadOneColumn(c: Col) returns (copied: bool)
      requires Valid()
      modifies this
      ensures Valid() && (copied ==> View() == UploadOne(old(View()), c)) && Refreshed(old(View()), [c], View())
      ensures faults == old(faults) + if copied then 0 else 1
    {
      hide CacheOf, Owned;
      copied := true;
      var r := ResidentFind(c);
      InCache(table, bufs, c);
      if r.Some? {
        var i := r.value;
        CachedContent([], i);
        OwnedTable([]);
        ghost var t, b, n := table, bufs, next;
        copied := StagedCopy(c, table[i].buf, true, []);
        MarkClean(t, host, b, mems, mapped, n, next, i, bufs[t[i].buf]);
        table := table[i := table[i].(dirty := false)];
      }
    }

    method UploadColumns(cols: seq<Col>) returns (copied: bool)
      requires Valid()
      modifies this
      ensures Valid() && (copied ==> View() == UploadN(old(View()), cols, |cols|)) && Refreshed(old(View()), cols, View())
      ensures copied <==> faults == old(faults)
    {
      hide CacheOf, Owned, UploadOne;
      copied := true;
      for b := 0 to |cols|
        invariant Valid() && (copied ==> View() == UploadN(old(View()), cols, b)) && Refreshed(old(View()), cols[..b], View())
        invariant b == |cols| ==> cols[..b] == cols
        invariant faults >= old(faults) && (copied <==> faults == old(faults))
      {
        assert cols[..b + 1] == cols[..b] + [cols[b]];
        var ok := UploadOneColumn(cols[b]);
        copied := copied && ok;
      }
    }
  }

  function Failures(oks: seq<bool>): nat {
    if oks == [] then 0 else Failures(oks[..|oks| - 1]) + if oks[|oks| - 1] then 0 else 1
  }

  lemma {:induction false} NoFailures(oks: seq<bool>)
    ensures Failures(oks) == 0 <==> forall b :: 0 <= b < |oks| ==> oks[b]
    decreases |oks|
  {
    if oks != [] {
      var front := oks[..|oks| - 1];
      NoFailures(front);
      assert forall b :: 0 <= b < |front| ==> front[b] == oks[b];
    }
  }

  lemma UndoneSelf(w: World, cols: seq<Col>)
    requires |w.cache| <= MAX_RESIDENT && w.cache.Keys <= w.host.Keys
    ensures Undone(w, cols, w)
  {
  }

  lemma EnteredUndone(w0: World, cols: seq<Col>, resident: bool, n: nat, w: World)
    requires n <= |cols| && |w0.cache| <= MAX_RESIDENT && w0.cache.Keys <= w0.host.Keys
    requires w == if resident then EnterN(w0, cols, n) else w0
    ensures Undone(w0, cols, w)
  {
    Entered(w0, cols, n);
  }

  // Copies of the dispatch's columns may have been overwritten; their flags have not.
  lemma WroteUndone(w0: World, w1: World, cols: seq<Col>, resident: bool, outs: seq<seq<byte>>, w: World)
    requires |w0.cache| <= MAX_RESIDENT && w0.cache.Keys <= w0.host.Keys && Distinct(cols) && |outs| == |cols|
    requires forall b :: 0 <= b < |cols| ==> cols[b] in w0.host
    requires w1 == if resident then EnterN(w0, cols, |cols|) else w0
    requires w == w1 || w == if resident then Wrote(w0, w1, cols, outs, |cols|) else w1
    ensures Undone(w0, cols, w) && (!resident ==> w == w0)
  {
    EnteredUndone(w0, cols, resident, |cols|, w1);
    if resident && w != w1 {
      forall b | 0 <= b < |cols| && OnDevice(w0, cols, b) ensures cols[b] in w1.cache { OnDeviceEntered(w0, cols, b); }
      WroteKeys(w0, w1, cols, outs, |cols|);
      SameSize(w.cache, w1.cache);
      assert cols[..|cols|] == cols;
      forall c | c in w.cache
        ensures Dirty(w, c) == Dirty(w1, c) && (c !in cols ==> CopyOf(w, c) == CopyOf(w1, c))
      {
        WroteAt(w0, w1, cols, outs, |cols|, c);
      }
    }
  }

  // The CPU's results are as long as the columns.
  lemma MapSizes(table: seq<Entry>, host: map<Col, seq<byte>>, bufs: map<Handle, seq<byte>>, cols: seq<Col>, k: Kernel)
    requires KernelOk(k) && Distinct(cols) && (forall c :: c in cols ==> c in host)
    ensures forall mems, mapped, next :: Owned(table, host, bufs, mems, mapped, next, []) ==>
              Owned(table, MapOn(host, cols, k), bufs, mems, mapped, next, [])
  {
    var ins := Gather(host, cols);
    var outs := Fix(k(ins), |cols|);
    assert SameShape(ins, k(ins));
    Scattered(host, cols, outs, |cols|);
    assert cols[..|cols|] == cols;
    forall c | c in host
      ensures |MapOn(host, cols, k)[c]| == |host[c]|
    {
      if c in cols {
        var b :| 0 <= b < |cols| && cols[b] == c;
        assert |ins[b]| == |k(ins)[b]|;
      }
    }
  }

  // One entry made clean, its buffer holding new bytes.
  lemma MarkClean(table: seq<Entry>, host: map<Col, seq<byte>>, bufs: map<Handle, seq<byte>>, mems: set<Handle>,
                  mapped: set<Handle>, next: Handle, later: Handle, i: nat, data: seq<byte>)
    requires Owned(table, host, bufs, mems, mapped, next, []) && next <= later && i < |table| && |data| == table[i].bytes
    ensures var t := table[i := table[i].(dirty := false)];
            var b := bufs[table[i].buf := data];
            && Owned(t, host, b, mems, mapped, later, [])
            && CacheOf(t, b) == CacheOf(table, bufs)[table[i].host := Copy(data, false)]
  {
    hide CacheOf, Buffers, Memories, Hosts;
    CacheChanges(table, host, bufs, i, data, false);
    var b := bufs[table[i].buf := data];
    assert b.Keys == bufs.Keys by { CacheAt(table, host, bufs, i); }
  }

  lemma HostOwned(table: seq<Entry>, host: map<Col, seq<byte>>, bufs: map<Handle, seq<byte>>, mems: set<Handle>,
                  mapped: set<Handle>, next: Handle, c: Col, data: seq<byte>)
    requires Owned(table, host, bufs, mems, mapped, next, []) && c in host && |data| == |host[c]|
    ensures Owned(table, host[c := data], bufs, mems, mapped, next, [])
  {
    HostChanges(table, host, bufs, c, data);
  }

  // What the first slot holds is live, held by no other slot, and not the table's.
  lemma Release(rest: seq<Slot>)
    requires rest != [] && SlotsOk(rest)
    ensures var s := rest[0];
            && SlotBuffers(rest) == SlotBuffers(rest[1..]) + (if !s.cached && s.buf != 0 then {s.buf} else {})
            && SlotMemories(rest) == SlotMemories(rest[1..]) + (if !s.cached && s.mem != 0 then {s.mem} else {})
            && SlotMapped(rest) == SlotMapped(rest[1..]) + (if !s.cached && s.mapped then {s.mem} else {})
            && (!s.cached && s.buf != 0 ==> s.buf !in SlotBuffers(rest[1..]))
            && (!s.cached && s.mem != 0 ==> s.mem !in SlotMemories(rest[1..]) && s.mem !in SlotMapped(rest[1..]))
            && (!s.cached && s.mapped ==> s.mem != 0)
            && SlotsOk(rest[1..])
  {
    var s, t := rest[0], rest[1..];
    assert forall b :: 0 <= b < |t| ==> t[b] == rest[b + 1];
    forall h | h in SlotBuffers(rest) ensures h in SlotBuffers(t) || h == s.buf {
      var b :| 0 <= b < |rest| && !rest[b].cached && rest[b].buf != 0 && rest[b].buf == h;
      assert b > 0 ==> t[b - 1] == rest[b];
    }
    forall h | h in SlotMemories(rest) ensures h in SlotMemories(t) || h == s.mem {
      var b :| 0 <= b < |rest| && !rest[b].cached && rest[b].mem != 0 && rest[b].mem == h;
      assert b > 0 ==> t[b - 1] == rest[b];
    }
    forall h | h in SlotMapped(rest) ensures h in SlotMapped(t) || h == s.mem {
      var b :| 0 <= b < |rest| && !rest[b].cached && rest[b].mapped && rest[b].mem == h;
      assert b > 0 ==> t[b - 1] == rest[b];
    }
  }

  lemma ReleaseBuffer(table: seq<Entry>, host: map<Col, seq<byte>>, bufs: map<Handle, seq<byte>>, h: Handle)
    requires TableOk(table, host, bufs) && h !in Buffers(table) && Buffers(table) <= bufs.Keys
    ensures TableOk(table, host, bufs - {h}) && CacheOf(table, bufs - {h}) == CacheOf(table, bufs)
  {
    hide TableOk, CacheOf, Buffers;
    CacheIgnores(table, host, bufs, bufs - {h});
  }

  lemma SlotIn(slots: seq<Slot>, s: Slot)
    requires s in slots && !s.cached && s.buf != 0
    ensures s.buf in SlotBuffers(slots)
  {
  }

  lemma {:induction false} FindIgnoresFlags(a: seq<Entry>, b: seq<Entry>)
    requires |a| == |b| && forall i :: 0 <= i < |a| ==> a[i].host == b[i].host
    ensures forall c :: Find(a, c) == Find(b, c)
    decreases |a|
  {
    if a != [] {
      FindIgnoresFlags(a[1..], b[1..]);
      assert forall c :: Find(a[1..], c) == Find(b[1..], c);
    }
  }

  lemma HostChanges(table: seq<Entry>, host: map<Col, seq<byte>>, bufs: map<Handle, seq<byte>>, c: Col, data: seq<byte>)
    requires TableOk(table, host, bufs) && c in host && |data| == |host[c]|
    ensures TableOk(table, host[c := data], bufs)
  {
  }

  lemma {:induction false} FindStable(a: seq<Entry>, b: seq<Entry>, c: Col)
    requires a <= b && Find(a, c).Some?
    ensures Find(b, c) == Find(a, c)
    decreases |a|
  {
    if a[0].host != c {
      FindStable(a[1..], b[1..], c);
    }
  }

  lemma LastBuffer(slots: seq<Slot>, s: Slot)
    requires !s.cached && s.buf != 0
    ensures s.buf in SlotBuffers(slots + [s])
  {
    assert (slots + [s])[|slots|] == s;
  }

  lemma OwnLater(table: seq<Entry>, host: map<Col, seq<byte>>, bufs: map<Handle, seq<byte>>, mems: set<Handle>,
                 mapped: set<Handle>, next: Handle, later: Handle, slots: seq<Slot>)
    requires Owned(table, host, bufs, mems, mapped, next, slots) && next <= later
    ensures Owned(table, host, bufs, mems, mapped, later, slots)
  {
  }
}
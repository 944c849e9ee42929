// The dispatcher: buffers and allocations by handle, a table of resident columns, device calls that may fail at any
// point, and a cleanup that gives back everything the table does not own. Its effect on host and device copies is
// the one defined in GpuMemory.
module GpuRuntime {
  import opened Bytes
  import opened GpuMemory

  // Handles count up from 1; 0 is the null handle.
  type Handle = nat

  datatype Entry = Entry(host: Col, buf: Handle, mem: Handle, bytes: nat, dirty: bool)

  // What a dispatch holds for one column.
  datatype Slot = Slot(buf: Handle, mem: Handle, mapped: bool, cached: bool)

  const NO_SLOT: Slot := Slot(0, 0, false, false)

  // ---- the table ----

  function Find(table: seq<Entry>, c: Col): (r: Option<nat>)
    ensures r.Some? ==> r.value < |table| && table[r.value].host == c
    ensures r.None? ==> forall i :: 0 <= i < |table| ==> table[i].host != c
  {
    if table == [] then None
    else if table[0].host == c then Some(0)
    else match Find(table[1..], c) case None => None case Some(i) => Some(i + 1)
  }

  function Hosts(table: seq<Entry>): set<Col> { set i | 0 <= i < |table| :: table[i].host }
  function Buffers(table: seq<Entry>): set<Handle> { set i | 0 <= i < |table| :: table[i].buf }
  function Memories(table: seq<Entry>): set<Handle> { set i | 0 <= i < |table| :: table[i].mem }

  function Content(bufs: map<Handle, seq<byte>>, h: Handle): seq<byte> { if h in bufs then bufs[h] else [] }

  function EntryCopy(table: seq<Entry>, bufs: map<Handle, seq<byte>>, c: Col): Copy {
    match Find(table, c)
    case None => Copy([], false)
    case Some(i) => Copy(Content(bufs, table[i].buf), table[i].dirty)
  }

  // The device copies the table stands for.
  function CacheOf(table: seq<Entry>, bufs: map<Handle, seq<byte>>): map<Col, Copy> {
    map c | c in Hosts(table) :: EntryCopy(table, bufs, c)
  }

  // One entry a column, one buffer and one allocation an entry, as long as the column.
  ghost predicate TableOk(table: seq<Entry>, host: map<Col, seq<byte>>, bufs: map<Handle, seq<byte>>) {
    && |table| <= MAX_RESIDENT
    && (forall i, j :: 0 <= i < j < |table| ==>
          table[i].host != table[j].host && table[i].buf != table[j].buf && table[i].mem != table[j].mem)
    && (forall i :: 0 <= i < |table| ==>
          && table[i].host in host && table[i].buf in bufs && table[i].buf != 0 && table[i].mem != 0
          && |host[table[i].host]| == table[i].bytes == |bufs[table[i].buf]|)
  }

  lemma {:induction false} FindIs(table: seq<Entry>, i: nat)
    requires i < |table| && (forall a, b :: 0 <= a < b < |table| ==> table[a].host != table[b].host)
    ensures Find(table, table[i].host) == Some(i)
    decreases i
  {
    if i > 0 {
      assert table[0].host != table[i].host;
      FindIs(table[1..], i - 1);
    }
  }

  lemma SetsGrow(table: seq<Entry>, e: Entry)
    ensures Hosts(table + [e]) == Hosts(table) + {e.host}
    ensures Buffers(table + [e]) == Buffers(table) + {e.buf}
    ensures Memories(table + [e]) == Memories(table) + {e.mem}
  {
    var t := table + [e];
    assert t[|table|] == e;
    assert forall i :: 0 <= i < |table| ==> t[i] == table[i];
    assert forall c :: c in Hosts(table) ==> c in Hosts(t) by {
      forall c | c in Hosts(table)
        ensures c in Hosts(t)
      {
        var i :| 0 <= i < |table| && table[i].host == c;
        assert t[i].host == c;
      }
    }
    forall h | h in Buffers(table)
      ensures h in Buffers(t)
    {
      var i :| 0 <= i < |table| && table[i].buf == h;
      assert t[i].buf == h;
    }
    forall h | h in Memories(table)
      ensures h in Memories(t)
    {
      var i :| 0 <= i < |table| && table[i].mem == h;
      assert t[i].mem == h;
    }
  }

  lemma {:induction false} HostsSize(table: seq<Entry>)
    requires forall a, b :: 0 <= a < b < |table| ==> table[a].host != table[b].host
    ensures |Hosts(table)| == |table|
    decreases |table|
  {
    if table != [] {
      var n := |table| - 1;
      HostsSize(table[..n]);
      SetsGrow(table[..n], table[n]);
      assert table[..n] + [table[n]] == table;
      forall c | c in Hosts(table[..n])
        ensures c != table[n].host
      {
        var i :| 0 <= i < n && table[..n][i].host == c;
        assert table[i].host != table[n].host;
      }
    }
  }

  lemma CacheSize(table: seq<Entry>, host: map<Col, seq<byte>>, bufs: map<Handle, seq<byte>>)
    requires TableOk(table, host, bufs)
    ensures |CacheOf(table, bufs)| == |table|
  {
    HostsSize(table);
    assert CacheOf(table, bufs).Keys == Hosts(table);
    assert |CacheOf(table, bufs)| == |CacheOf(table, bufs).Keys|;
  }

  // A map with a copy for every entry and no other column is what the table stands for.
  lemma CacheIs(table: seq<Entry>, host: map<Col, seq<byte>>, bufs: map<Handle, seq<byte>>, m: map<Col, Copy>)
    requires TableOk(table, host, bufs) && m.Keys == Hosts(table)
    requires forall i :: 0 <= i < |table| ==>
               table[i].host in m && m[table[i].host] == Copy(bufs[table[i].buf], table[i].dirty)
    ensures CacheOf(table, bufs) == m
  {
    forall c | c in m
      ensures EntryCopy(table, bufs, c) == m[c]
    {
      var i :| 0 <= i < |table| && table[i].host == c;
      FindIs(table, i);
    }
  }

  lemma CacheAt(table: seq<Entry>, host: map<Col, seq<byte>>, bufs: map<Handle, seq<byte>>, i: nat)
    requires TableOk(table, host, bufs) && i < |table|
    ensures table[i].host in CacheOf(table, bufs) && table[i].buf in bufs && |bufs[table[i].buf]| == table[i].bytes
    ensures CacheOf(table, bufs)[table[i].host] == Copy(bufs[table[i].buf], table[i].dirty)
  {
    FindIs(table, i);
  }

  lemma InCache(table: seq<Entry>, bufs: map<Handle, seq<byte>>, c: Col)
    ensures c in CacheOf(table, bufs) <==> Find(table, c).Some?
  {
    if Find(table, c).Some? {
      assert table[Find(table, c).value].host == c;
    }
  }

  // A new entry at the end.
  lemma CacheGrows(table: seq<Entry>, host: map<Col, seq<byte>>, bufs: map<Handle, seq<byte>>, e: Entry)
    requires TableOk(table, host, bufs) && TableOk(table + [e], host, bufs) && e.buf in bufs
    ensures CacheOf(table + [e], bufs) == CacheOf(table, bufs)[e.host := Copy(bufs[e.buf], e.dirty)]
  {
    var t := table + [e];
    SetsGrow(table, e);
    forall i | 0 <= i < |t|
      ensures var m := CacheOf(table, bufs)[e.host := Copy(bufs[e.buf], e.dirty)];
              t[i].host in m && m[t[i].host] == Copy(bufs[t[i].buf], t[i].dirty)
    {
      if i < |table| {
        assert t[i].host != t[|table|].host;
        CacheAt(table, host, bufs, i);
      }
    }
    CacheIs(t, host, bufs, CacheOf(table, bufs)[e.host := Copy(bufs[e.buf], e.dirty)]);
  }

  // Changing one entry's flag or content changes that column's copy only.
  lemma CacheChanges(table: seq<Entry>, host: map<Col, seq<byte>>, bufs: map<Handle, seq<byte>>, i: nat, data: seq<byte>, dirty: bool)
    requires TableOk(table, host, bufs) && i < |table| && |data| == table[i].bytes
    ensures var t := table[i := table[i].(dirty := dirty)];
            var b := bufs[table[i].buf := data];
            && TableOk(t, host, b)
            && CacheOf(t, b) == CacheOf(table, bufs)[table[i].host := Copy(data, dirty)]
            && Buffers(t) == Buffers(table) && Memories(t) == Memories(table) && Hosts(t) == Hosts(table)
  {
    hide TableOk, Hosts, Buffers, Memories, CacheOf;
    var t := table[i := table[i].(dirty := dirty)];
    var b := bufs[table[i].buf := data];
    SameHandles(table, t);
    SameHandles(t, table);
    TableChanges(table, host, bufs, i, data, dirty);
    var m := CacheOf(table, bufs)[table[i].host := Copy(data, dirty)];
    CacheAt(table, host, bufs, i);
    CacheKeys(table, bufs);
    assert m.Keys == Hosts(t);
    forall j | 0 <= j < |t|
      ensures t[j].buf in b && t[j].host in m && m[t[j].host] == Copy(b[t[j].buf], t[j].dirty)
    {
      CacheAt(table, host, bufs, j);
      Apart(table, host, bufs, i, j);
    }
    CacheIs(t, host, b, m);
  }

  lemma CacheKeys(table: seq<Entry>, bufs: map<Handle, seq<byte>>)
    ensures CacheOf(table, bufs).Keys == Hosts(table)
  {
  }

  lemma Apart(table: seq<Entry>, host: map<Col, seq<byte>>, bufs: map<Handle, seq<byte>>, i: nat, j: nat)
    requires TableOk(table, host, bufs) && i < |table| && j < |table|
    ensures table[j].buf in bufs && table[j].host in host
    ensures i != j ==> table[j].buf != table[i].buf && table[j].host != table[i].host
  {
  }

  lemma TableChanges(table: seq<Entry>, host: map<Col, seq<byte>>, bufs: map<Handle, seq<byte>>, i: nat, data: seq<byte>, dirty: bool)
    requires TableOk(table, host, bufs) && i < |table| && |data| == table[i].bytes
    ensures TableOk(table[i := table[i].(dirty := dirty)], host, bufs[table[i].buf := data])
  {
    var t := table[i := table[i].(dirty := dirty)];
    assert forall j :: 0 <= j < |t| ==>
      t[j].host == table[j].host && t[j].buf == table[j].buf && t[j].mem == table[j].mem && t[j].bytes == table[j].bytes;
  }

  lemma SameHandles(a: seq<Entry>, b: seq<Entry>)
    requires |a| == |b|
    requires forall j :: 0 <= j < |a| ==> a[j].host == b[j].host && a[j].buf == b[j].buf && a[j].mem == b[j].mem
    ensures Buffers(a) <= Buffers(b) && Memories(a) <= Memories(b) && Hosts(a) <= Hosts(b)
  {
  }

  // Buffers the table does not own do not matter to it.
  lemma CacheIgnores(table: seq<Entry>, host: map<Col, seq<byte>>, bufs: map<Handle, seq<byte>>, bufs': map<Handle, seq<byte>>)
    requires TableOk(table, host, bufs)
    requires forall h :: h in Buffers(table) ==> h in bufs' && bufs'[h] == bufs[h]
    ensures TableOk(table, host, bufs') && CacheOf(table, bufs') == CacheOf(table, bufs)
  {
    forall i | 0 <= i < |table|
      ensures table[i].buf in bufs' && bufs'[table[i].buf] == bufs[table[i].buf]
    {
      assert table[i].buf in Buffers(table);
    }
  }
}

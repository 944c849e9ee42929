// The server's two requests over one pool's memory: ROWS, which copies the live rows into a blob, and POKE, which
// writes one cell in place.
module InspectServer {
  import opened Bytes
  import opened Values
  import opened InspectPool

  // ---- rows ----

  function CellBytes(f: Field): nat { if f.isColumn then f.ecount * f.esize else 0 }

  function RowCells(fields: seq<Field>): nat {
    if fields == [] then 0 else RowCells(fields[..|fields| - 1]) + CellBytes(fields[|fields| - 1])
  }

  // Slot, generation and every column's bytes.
  function RowBytes(p: Pool): nat { 12 + RowCells(p.fields) }

  // A column's bytes in one row; zeros without storage.
  function RowOf(p: Pool, mem: Mem, f: Field, slot: int): (r: seq<byte>)
    ensures |r| == f.ecount * f.esize
  {
    match CellAddr(p, mem, f, slot, 0)
    case None => seq(f.ecount * f.esize, i => 0)
    case Some(a) => Read(mem, a, f.ecount * f.esize)
  }

  // The columns among the first n fields, one after the other.
  function Columns(p: Pool, mem: Mem, slot: int, n: nat): (r: seq<byte>)
    requires n <= |p.fields|
    ensures |r| == RowCells(p.fields[..n])
  {
    if n == 0 then []
    else
      assert p.fields[..n][..n - 1] == p.fields[..n - 1];
      Columns(p, mem, slot, n - 1) + if p.fields[n - 1].isColumn then RowOf(p, mem, p.fields[n - 1], slot) else []
  }

  function Row(p: Pool, mem: Mem, slot: nat): (r: seq<byte>)
    ensures |r| == RowBytes(p)
  {
    assert p.fields[..|p.fields|] == p.fields;
    LeBytes(slot, 8) + LeBytes(GenOf(p, mem, slot), 4) + Columns(p, mem, slot, |p.fields|)
  }

  function Rows(p: Pool, mem: Mem, slots: seq<nat>): (r: seq<byte>)
    ensures |r| == |slots| * RowBytes(p)
  {
    if slots == [] then []
    else
      var n := |slots| - 1;
      assert |slots| * RowBytes(p) == n * RowBytes(p) + RowBytes(p);
      Rows(p, mem, slots[..n]) + Row(p, mem, slots[n])
  }

  function Min(a: nat, b: nat): nat { if a < b then a else b }

  // How many of m rows fit: `want` unless it is negative, and the blob's capacity.
  function Limit(want: int, m: nat, rowBytes: nat, cap: nat): nat
    requires rowBytes > 0
  {
    Min(if want < 0 then m else Min(want, m), cap / rowBytes)
  }

  // The rows asked for: the live slots but the first `start`, as many as wanted and fit.
  function Window(live: seq<nat>, start: int, want: int, rowBytes: nat, cap: nat): (r: seq<nat>)
    requires rowBytes > 0
  {
    var rest := if start < 0 then live else if start > |live| then [] else live[start..];
    rest[..Limit(want, |rest|, rowBytes, cap)]
  }

  datatype RowsReply = RowsOk(nrows: nat, rowBytes: nat, blob: seq<byte>) | RowsErr(reason: Reason)

  function RowsSpec(p: Pool, mem: Mem, start: int, want: int, cap: nat): RowsReply {
    if p.isDynamic && Struct(p, mem) == 0 then RowsErr(NotAllocated)
    else
      var n := if Count(p, mem) < 0 then 0 else Count(p, mem);
      var w := Window(Live(p, mem, n), start, want, RowBytes(p), cap);
      RowsOk(|w|, RowBytes(p), Rows(p, mem, w))
  }

  // The window is cut from the live slots behind the first `start`, and it is as long as it can be: all of them, or as many
  // as wanted, or as many as fit.
  lemma WindowExact(live: seq<nat>, start: int, want: int, rb: nat, cap: nat)
    requires rb > 0
    ensures var w := Window(live, start, want, rb, cap);
            var skip := if start < 0 then 0 else if start > |live| then |live| else start;
            && skip + |w| <= |live| && w == live[skip..skip + |w|] && (want >= 0 ==> |w| <= want) && |w| * rb <= cap
            && (skip + |w| == |live| || |w| == want || |w| * rb + rb > cap)
  {
    var skip := if start < 0 then 0 else if start > |live| then |live| else start;
    var rest := live[skip..];
    var l := Limit(want, |rest|, rb, cap);
    Quotient(cap, rb, cap / rb);
    Mono(l, cap / rb, rb);
    Fits(l, rb, cap);
    assert rest[..l] == live[skip..skip + l];
  }

  // ---- windows, one live slot at a time ----

  // What the loop keeps of one more live slot: it is skipped, taken, or the loop ends for good.
  lemma WindowSnoc(live: seq<nat>, slot: nat, start: int, want: int, rb: nat, cap: nat)
    requires rb > 0
    ensures var w := Window(live, start, want, rb, cap);
            var w' := Window(live + [slot], start, want, rb, cap);
            if |live| < start then w == [] && w' == []
            else if (want >= 0 && |w| >= want) || |w| * rb + rb > cap then w' == w
            else w' == w + [slot]
  {
    var rest := if start < 0 then live else if start > |live| then [] else live[start..];
    var rest' := if start < 0 then live + [slot] else if start > |live| + 1 then [] else (live + [slot])[start..];
    if |live| >= start {
      assert rest' == rest + [slot];
      LimitStep(want, |rest|, rb, cap);
      var l := Limit(want, |rest|, rb, cap);
      Fits(l, rb, cap);
      hide Limit;
      assert rest'[..l] == rest[..l];
      assert rest'[..|rest| + 1] == rest + [slot];
    }
  }

  // One more row either does not matter, because the limit is reached, or is taken as well.
  lemma LimitStep(want: int, m: nat, rb: nat, cap: nat)
    requires rb > 0
    ensures var l, l' := Limit(want, m, rb, cap), Limit(want, m + 1, rb, cap);
            && l <= m && l <= cap / rb
            && if (want >= 0 && l >= want) || l >= cap / rb then l' == l else l == m && l' == m + 1
  {
  }

  lemma Fits(n: nat, rb: nat, cap: nat)
    requires rb > 0
    ensures n * rb + rb <= cap <==> n < cap / rb
  {
    var q := cap / rb;
    Quotient(cap, rb, q);
    if n < q {
      Mono(n + 1, q, rb);
    } else {
      Mono(q, n, rb);
    }
    assert n * rb + rb == (n + 1) * rb;
  }

  lemma Quotient(cap: nat, rb: nat, q: nat)
    requires rb > 0 && q == cap / rb
    ensures q * rb <= cap < q * rb + rb
  {
    assert cap == rb * q + cap % rb;
  }

  // Once the loop has ended, later live slots add nothing.
  lemma {:induction false} WindowEnds(p: Pool, mem: Mem, i: nat, n: nat, start: int, want: int, rb: nat, cap: nat)
    requires rb > 0 && i <= n && |Live(p, mem, i)| >= start
    requires var w := Window(Live(p, mem, i), start, want, rb, cap); (want >= 0 && |w| >= want) || |w| * rb + rb > cap
    ensures Window(Live(p, mem, n), start, want, rb, cap) == Window(Live(p, mem, i), start, want, rb, cap)
    decreases n - i
  {
    hide SlotIsFree, Window;
    if i < n {
      WindowEnds(p, mem, i, n - 1, start, want, rb, cap);
      LiveGrows(p, mem, i, n - 1);
      WindowSnoc(Live(p, mem, n - 1), n - 1, start, want, rb, cap);
      assert Live(p, mem, n - 1) + [] == Live(p, mem, n - 1);
    }
  }

  lemma {:induction false} LiveGrows(p: Pool, mem: Mem, i: nat, n: nat)
    requires i <= n
    ensures |Live(p, mem, i)| <= |Live(p, mem, n)|
    decreases n - i
  {
    hide SlotIsFree;
    if i < n {
      LiveGrows(p, mem, i, n - 1);
    }
  }

  // Bytes in front of what follows, if anything does.
  function Behind(out: seq<byte>, r: Option<seq<byte>>): Option<seq<byte>> {
    match r case None => None case Some(s) => Some(out + s)
  }

  lemma BehindBoth(a: seq<byte>, b: seq<byte>, r: Option<seq<byte>>)
    ensures Behind(a, Behind(b, r)) == Behind(a + b, r)
  {
    if r.Some? {
      assert a + (b + r.value) == (a + b) + r.value;
    }
  }

  lemma BehindNone(r: Option<seq<byte>>)
    ensures Behind([], r) == r
  {
    if r.Some? {
      assert [] + r.value == r.value;
    }
  }

  // ---- the server ----

  class Server {
    const p: Pool
    var mem: array<byte>

    constructor (p: Pool, memory: array<byte>)
      ensures this.p == p && mem == memory
    {
      this.p := p;
      mem := memory;
    }

    method SlotFree(slot: int) returns (r: bool)
      ensures r == SlotIsFree(p, mem[..], slot)
    {
      var m := mem[..];
      var fc := FreeCount(p, m);
      if IsNull(p, FreeList(p, m)) {
        return false;
      }
      var i := 1;
      while i < fc
        invariant 1 <= i
        invariant forall j :: 1 <= j < i && j < fc ==> FreeEntry(p, m, j) != slot
        decreases fc - i
      {
        if FreeEntry(p, m, i) == slot {
          return true;
        }
        i := i + 1;
      }
      return false;
    }

    // Digit pairs to bytes; None at the first character that is no hexadecimal digit.
    method DecodeHex(hex: string) returns (r: Option<seq<byte>>)
      requires |hex| % 2 == 0
      ensures r == HexBytes(hex)
    {
      var out: seq<byte> := [];
      var i := 0;
      assert hex[0..] == hex;
      BehindNone(HexBytes(hex));
      while 2 * i < |hex|
        invariant 0 <= 2 * i <= |hex|
        invariant HexBytes(hex) == Behind(out, HexBytes(hex[2 * i..]))
      {
        var rest := hex[2 * i..];
        assert rest[2..] == hex[2 * (i + 1)..];
        var h, l := HexNibble(hex[2 * i]), HexNibble(hex[2 * i + 1]);
        if h.None? || l.None? {
          return None;
        }
        ghost var next := [16 * h.value + l.value];
        BehindBoth(out, next, HexBytes(rest[2..]));
        out := out + [16 * h.value + l.value];
        i := i + 1;
      }
      assert hex[2 * i..] == "";
      assert HexBytes("") == Some([]);
      assert out + [] == out;
      return Some(out);
    }

    // One cell is written, or nothing is and the reply names the first check that fails.
    method Poke(r: PokeReq) returns (reply: Reply)
      requires Sane(p, mem[..]) || PlanPoke(p, mem[..], r).Refuse?
      modifies mem
      ensures match PlanPoke(p, old(mem[..]), r)
              case Refuse(why) => reply == Err(why) && mem[..] == old(mem[..])
              case Store(at, bytes) =>
                InMem(old(mem[..]), at, |bytes|) && reply == Ok && mem[..] == Write(old(mem[..]), at, bytes)
      ensures Answers(p, old(mem[..]), r, reply)
    {
      hide Sane, HexBytes, Read, SlotIsFree, GenOf, CellAddr, Answers;
      var m := mem[..];
      PlanExact(p, m, r);
      if p.isDynamic && Struct(p, m) == 0 {
        return Err(NotAllocated);
      }
      if r.field < 0 || r.field >= |p.fields| {
        return Err(BadField);
      }
      var f := p.fields[r.field];
      if f.tag == HandleTag || f.tag == OpaqueTag {
        return Err(ReadonlyField);
      }
      if r.sub < 0 || r.sub >= f.ecount {
        return Err(SubOob);
      }
      if |r.hex| % 2 != 0 || |r.hex| / 2 != f.esize || f.esize > 16 {
        return Err(Width);
      }
      var bytes := DecodeHex(r.hex);
      if bytes.None? {
        return Err(BadHex);
      }
      if f.isColumn {
        if r.slot < 0 || r.slot >= Capacity(p, m) || r.slot >= Count(p, m) {
          return Err(SlotOob);
        }
        var free := SlotFree(r.slot);
        if free {
          return Err(DeadSlot);
        }
        if !IsNull(p, Gens(p, m)) && GenOf(p, m, r.slot) != r.gen {
          return Err(StaleGen);
        }
      }
      var dst := CellAddr(p, m, f, r.slot, r.sub);
      if dst.None? {
        return Err(NoCell);
      }
      PokeInside(p, m, r);
      CopyInto(mem, dst.value, bytes.value);
      return Ok;
    }

    // The live rows of the window, one record after the other.
    method RowsReply(start: int, want: int, cap: nat) returns (reply: RowsReply)
      ensures reply == RowsSpec(p, mem[..], start, want, cap)
      ensures reply.RowsOk? <==> Allocated(p, mem[..])
    {
      hide SlotIsFree, Row, Window;
      var m := mem[..];
      if p.isDynamic && Struct(p, m) == 0 {
        return RowsErr(NotAllocated);
      }
      var rb := RowBytes(p);
      var count := Count(p, m);
      ghost var n := if count < 0 then 0 else count;
      var blob: seq<byte> := [];
      var nrows, live, slot := 0, 0, 0;
      ghost var w: seq<nat> := [];
      assert Window([], start, want, rb, cap) == [] by { EmptyWindow(start, want, rb, cap); }
      while slot < count
        invariant 0 <= slot <= n && live == |Live(p, m, slot)|
        invariant w == Window(Live(p, m, slot), start, want, rb, cap)
        invariant nrows == |w| && blob == Rows(p, m, w)
        decreases count - slot
      {
        ghost var before := Live(p, m, slot);
        var free := SlotFree(slot);
        if !free {
          var idx := live;
          WindowSnoc(before, slot, start, want, rb, cap);
          if idx >= start {
            if (want >= 0 && nrows >= want) || |blob| + rb > cap {
              WindowEnds(p, m, slot, n, start, want, rb, cap);
              return RowsOk(nrows, rb, blob);
            }
            blob := blob + Row(p, m, slot);
            nrows := nrows + 1;
            w := w + [slot];
            assert w[..|w| - 1] == Window(before, start, want, rb, cap);
          }
          live := live + 1;
        } else {
          assert before + [] == before;
        }
        slot := slot + 1;
      }
      return RowsOk(nrows, rb, blob);
    }
  }

  lemma EmptyWindow(start: int, want: int, rb: nat, cap: nat)
    requires rb > 0
    ensures Window([], start, want, rb, cap) == []
  {
  }

  // memcpy into memory.
  method CopyInto(mem: array<byte>, at: int, bytes: seq<byte>)
    requires InMem(mem[..], at, |bytes|)
    modifies mem
    ensures mem[..] == Write(old(mem[..]), at, bytes)
  {
    for i := 0 to |bytes|
      invariant mem[..] == old(mem[..])[..at] + bytes[..i] + old(mem[..])[at + i..]
    {
      mem[at + i] := bytes[i];
    }
    assert bytes[..|bytes|] == bytes;
  }
}

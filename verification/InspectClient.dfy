// The client's side of the protocol: the bytes of a value for a poke, their hexadecimal text, and the rows of a blob.
module InspectClient {
  import opened Bytes
  import opened Values
  import opened InspectPool
  import opened InspectServer

  // ---- numbers ----

  function ReadUnsigned(b: seq<byte>): nat { LeValue(b) }

  // Sign-extended from the stored width.
  function ReadSigned(b: seq<byte>): int { ToSigned(LeValue(b), Pow256(|b|)) }

  // The low `width` bytes of a 64-bit value.
  function EncodeValue(v: int, width: nat): (r: seq<byte>)
    ensures |r| == width
  {
    LeBytes(v, width)
  }

  // A value comes back signed if and only if it fits the signed range of the width, and unsigned if and only if it
  // fits the unsigned one.
  lemma ValueRound(v: int, width: nat)
    requires width >= 1
    ensures ReadSigned(EncodeValue(v, width)) == v <==> -(Pow256(width) as int) <= 2 * v < Pow256(width)
    ensures ReadUnsigned(EncodeValue(v, width)) == v <==> 0 <= v < Pow256(width)
  {
    LeRoundTrip(v, width);
    ResidueRound(v, Pow256(width));
  }

  lemma ResidueRound(v: int, p: nat)
    requires p >= 1
    ensures ToSigned(v % p, p) == v <==> -(p as int) <= 2 * v < p
    ensures v % p == v <==> 0 <= v < p
  {
    if -(p as int) <= 2 * v < 0 {
      ModUnique(v, p, -1, v + p);
    }
    if 0 <= v < p {
      ModUnique(v, p, 0, v);
    }
  }

  // ---- hexadecimal ----

  function HexDigit(n: nat): char
    requires n < 16
  {
    if n < 10 then (n + '0' as int) as char else (n - 10 + 'a' as int) as char
  }

  function Hex(b: seq<byte>): (r: string)
    ensures |r| == 2 * |b|
  {
    if b == [] then "" else [HexDigit(b[0] / 16), HexDigit(b[0] % 16)] + Hex(b[1..])
  }

  lemma DigitRound(n: nat)
    requires n < 16
    ensures HexNibble(HexDigit(n)) == Some(n)
  {
  }

  // The server reads back exactly the bytes the client spelled.
  lemma {:induction false} HexRound(b: seq<byte>)
    ensures HexBytes(Hex(b)) == Some(b)
    decreases |b|
  {
    if b != [] {
      DigitRound(b[0] / 16);
      DigitRound(b[0] % 16);
      HexRound(b[1..]);
      assert Hex(b)[2..] == Hex(b[1..]);
      assert b == [b[0]] + b[1..];
    }
  }

  method EncodeHex(b: seq<byte>) returns (hex: string)
    ensures hex == Hex(b)
  {
    hex := "";
    var i := 0;
    assert b[0..] == b;
    while i < |b|
      invariant 0 <= i <= |b| && hex + Hex(b[i..]) == Hex(b)
    {
      assert b[i..][1..] == b[i + 1..];
      hex := hex + [HexDigit(b[i] / 16), HexDigit(b[i] % 16)];
      i := i + 1;
    }
    assert b[i..] == [];
  }

  // ---- rows ----

  datatype DRow = DRow(slot: int, gen: int, cells: seq<seq<byte>>)

  // The columns' bytes, cut at the widths the schema gives; `n` fields have been taken.
  function Cut(fields: seq<Field>, b: seq<byte>, n: nat): seq<seq<byte>>
    requires n <= |fields|
  {
    if n == 0 then []
    else
      var f := fields[n - 1];
      var o := RowCells(fields[..n - 1]);
      Cut(fields, b, n - 1) + if f.isColumn && o + f.ecount * f.esize <= |b| then [b[o..o + f.ecount * f.esize]] else []
  }

  function DecodeRow(fields: seq<Field>, b: seq<byte>): DRow
    requires |b| >= 12
  {
    DRow(ReadSigned(b[..8]), ReadSigned(b[8..12]), Cut(fields, b[12..], |fields|))
  }

  function DecodeRows(fields: seq<Field>, blob: seq<byte>, nrows: nat, rb: nat): seq<DRow>
    requires rb >= 12 && |blob| >= nrows * rb
  {
    if nrows == 0 then []
    else
      assert nrows * rb == (nrows - 1) * rb + rb;
      DecodeRows(fields, blob, nrows - 1, rb) + [DecodeRow(fields, blob[(nrows - 1) * rb..nrows * rb])]
  }

  // A row as the server's memory has it: each column's bytes.
  function TrueCells(p: Pool, mem: Mem, slot: int, n: nat): seq<seq<byte>>
    requires n <= |p.fields|
  {
    if n == 0 then []
    else TrueCells(p, mem, slot, n - 1) + if p.fields[n - 1].isColumn then [RowOf(p, mem, p.fields[n - 1], slot)] else []
  }

  function TrueRow(p: Pool, mem: Mem, slot: nat): DRow { DRow(slot, GenOf(p, mem, slot), TrueCells(p, mem, slot, |p.fields|)) }

  lemma {:induction false} CutColumns(p: Pool, mem: Mem, slot: int, n: nat, rest: seq<byte>)
    requires n <= |p.fields|
    ensures Cut(p.fields, Columns(p, mem, slot, n) + rest, n) == TrueCells(p, mem, slot, n)
    decreases n
  {
    if n > 0 {
      var f := p.fields[n - 1];
      var c := if f.isColumn then RowOf(p, mem, f, slot) else [];
      var head := Columns(p, mem, slot, n - 1);
      CutColumns(p, mem, slot, n - 1, c + rest);
      var b := Columns(p, mem, slot, n) + rest;
      assert b == head + (c + rest);
      if f.isColumn {
        assert b[|head|..|head| + |c|] == c;
      }
    }
  }

  lemma LongRound(v: int, width: nat)
    requires width >= 1 && -(Pow256(width) as int) <= 2 * v < Pow256(width)
    ensures ReadSigned(LeBytes(v, width)) == v
  {
    ValueRound(v, width);
  }

  lemma GenBound(p: Pool, mem: Mem, slot: int)
    ensures -(Pow256(4) as int) <= 2 * GenOf(p, mem, slot) < Pow256(4)
  {
    LeValueBound(Read(mem, Gens(p, mem) + slot * 4, 4));
    assert Pow256(4) == 256 * Pow256(3);
  }

  lemma RowRound(p: Pool, mem: Mem, slot: nat)
    requires 2 * slot < Pow256(8)
    ensures DecodeRow(p.fields, Row(p, mem, slot)) == TrueRow(p, mem, slot)
  {
    hide GenOf, Pow256, LeBytes, RowOf, Cut, TrueCells, Columns, RowCells, ReadSigned;
    var a, b, c := LeBytes(slot, 8), LeBytes(GenOf(p, mem, slot), 4), Columns(p, mem, slot, |p.fields|);
    var r := Row(p, mem, slot);
    assert r == a + b + c;
    assert r[..8] == a && r[8..12] == b && r[12..] == c;
    LongRound(slot, 8) by { Positive(8); }
    GenBound(p, mem, slot);
    LongRound(GenOf(p, mem, slot), 4);
    CutColumns(p, mem, slot, |p.fields|, []);
    assert c + [] == c;
  }

  lemma Positive(n: nat)
    ensures Pow256(n) > 0
  {
  }

  // Decoding the rows the server sent gives, for each slot of the window, the slot, its generation and its columns.
  lemma {:induction false} RowsRound(p: Pool, mem: Mem, slots: seq<nat>)
    requires forall i :: 0 <= i < |slots| ==> 2 * slots[i] < Pow256(8)
    ensures |Rows(p, mem, slots)| == |slots| * RowBytes(p)
    ensures DecodeRows(p.fields, Rows(p, mem, slots), |slots|, RowBytes(p)) ==
            seq(|slots|, i requires 0 <= i < |slots| => TrueRow(p, mem, slots[i]))
    decreases |slots|
  {
    hide Row, DecodeRow, TrueRow, Pow256, RowCells;
    if slots != [] {
      var n, rb := |slots| - 1, RowBytes(p);
      var front := slots[..n];
      RowsRound(p, mem, front);
      assert |slots| * rb == n * rb + rb;
      var a, b := Rows(p, mem, front), Row(p, mem, slots[n]);
      assert (a + b)[n * rb..|slots| * rb] == b;
      RowRound(p, mem, slots[n]);
      DecodePrefix(p.fields, a, b, n, rb);
      assert Rows(p, mem, slots) == a + b;
      var t := seq(n, i requires 0 <= i < n => TrueRow(p, mem, front[i]));
      assert DecodeRows(p.fields, a + b, |slots|, rb) == t + [TrueRow(p, mem, slots[n])];
    }
  }

  lemma {:induction false} DecodePrefix(fields: seq<Field>, a: seq<byte>, b: seq<byte>, n: nat, rb: nat)
    requires rb >= 12 && |a| >= n * rb
    ensures DecodeRows(fields, a + b, n, rb) == DecodeRows(fields, a, n, rb)
    decreases n
  {
    hide DecodeRow;
    if n > 0 {
      assert n * rb == (n - 1) * rb + rb;
      DecodePrefix(fields, a, b, n - 1, rb);
      assert (a + b)[(n - 1) * rb..n * rb] == a[(n - 1) * rb..n * rb];
    }
  }

  // ---- the whole exchange ----

  // ROWS decoded: exactly the live slots of [0, count) in order, without the first `start` and at most `want`, cut
  // only by the blob's capacity, each with its generation and its columns' bytes.
  lemma RowsAreLive(p: Pool, mem: Mem, start: int, want: int, cap: nat)
    requires Sane(p, mem)
    ensures var r := RowsSpec(p, mem, start, want, cap);
            var w := Window(Live(p, mem, Count(p, mem)), start, want, RowBytes(p), cap);
            && r.RowsOk? && r.nrows == |w| && |r.blob| == r.nrows * r.rowBytes <= cap
            && DecodeRows(p.fields, r.blob, r.nrows, r.rowBytes) == seq(|w|, i requires 0 <= i < |w| => TrueRow(p, mem, w[i]))
  {
    hide Rows, DecodeRows, TrueRow, Live, Read, Struct, Pow256;
    var n := Count(p, mem);
    var w := Window(Live(p, mem, n), start, want, RowBytes(p), cap);
    LiveAscends(p, mem, n);
    CountSmall(p, mem);
    RowsRound(p, mem, w);
    BlobFits(|w|, RowBytes(p), cap);
  }

  lemma CountSmall(p: Pool, mem: Mem)
    ensures 2 * Count(p, mem) < Pow256(8)
  {
    LeValueBound(Read(mem, Struct(p, mem) + p.countOff, 8));
  }

  lemma BlobFits(n: nat, rb: nat, cap: nat)
    requires rb > 0
    ensures n <= cap / rb ==> n * rb <= cap
  {
    if 0 < n <= cap / rb {
      Fits(n - 1, rb, cap);
      assert n * rb == (n - 1) * rb + rb;
    }
  }

  // ---- a poke and the listing after it ----

  // What the client makes of a ROWS reply.
  function Listing(p: Pool, mem: Mem, start: int, want: int, cap: nat): seq<DRow> {
    match RowsSpec(p, mem, start, want, cap)
    case RowsErr(_) => []
    case RowsOk(n, rb, blob) => DecodeRows(p.fields, blob, n, rb)
  }

  lemma ListingIs(p: Pool, mem: Mem, start: int, want: int, cap: nat)
    requires Sane(p, mem)
    ensures var w := Window(Live(p, mem, Count(p, mem)), start, want, RowBytes(p), cap);
            Listing(p, mem, start, want, cap) == seq(|w|, i requires 0 <= i < |w| => TrueRow(p, mem, w[i]))
  {
    hide DecodeRows, RowsSpec, TrueRow, Live, Window;
    RowsAreLive(p, mem, start, want, cap);
  }

  // Rows carry columns only: where among them field j's bytes are.
  function ColumnIndex(fields: seq<Field>, j: nat): nat
    requires j <= |fields|
  {
    if j == 0 then 0 else ColumnIndex(fields, j - 1) + if fields[j - 1].isColumn then 1 else 0
  }

  // Element e of field j in a decoded row.
  function Element(fields: seq<Field>, row: DRow, j: nat, e: nat): seq<byte>
    requires j < |fields|
  {
    var c, o := ColumnIndex(fields, j), e * fields[j].esize;
    if c < |row.cells| && o + fields[j].esize <= |row.cells[c]| then row.cells[c][o..o + fields[j].esize] else []
  }

  lemma {:induction false} CellsOfRow(p: Pool, mem: Mem, slot: int, n: nat, j: nat)
    requires n <= |p.fields|
    ensures |TrueCells(p, mem, slot, n)| == ColumnIndex(p.fields, n)
    ensures j < n && p.fields[j].isColumn ==>
              ColumnIndex(p.fields, j) < ColumnIndex(p.fields, n)
              && TrueCells(p, mem, slot, n)[ColumnIndex(p.fields, j)] == RowOf(p, mem, p.fields[j], slot)
    decreases n
  {
    hide RowOf;
    if n > 0 {
      CellsOfRow(p, mem, slot, n - 1, j);
    }
  }

  // An element's bytes in the row are the cell's.
  lemma RowSlice(p: Pool, mem: Mem, j: nat, slot: nat, e: nat)
    requires Sane(p, mem) && j < |p.fields| && p.fields[j].isColumn && slot < Capacity(p, mem) && e < p.fields[j].ecount
    ensures var f := p.fields[j];
            && e * f.esize + f.esize <= f.ecount * f.esize
            && RowOf(p, mem, f, slot)[e * f.esize..e * f.esize + f.esize] == Cell(p, mem, f, slot, e)
  {
    hide FieldBase, Sane, Capacity, IsNull;
    var f := p.fields[j];
    ElementInRow(f.ecount, f.esize, e);
    if CellAddr(p, mem, f, slot, 0).Some? {
      var a := CellAddr(p, mem, f, slot, 0).value;
      Distribute(f, slot, e);
      assert CellAddr(p, mem, f, slot, e) == Some(a + e * f.esize);
      FieldInMem(p, mem, j);
      CellInside(p, mem, f, slot, 0);
      CellInside(p, mem, f, slot, f.ecount - 1);
      Distribute(f, slot, f.ecount - 1);
      ElementInRow(f.ecount, f.esize, f.ecount - 1);
      SliceOf(mem, a, f.ecount * f.esize, a + e * f.esize, f.esize);
    }
  }

  lemma ElementInRow(n: nat, size: nat, e: nat)
    requires e < n
    ensures e * size + size <= n * size && (e == n - 1 ==> e * size + size == n * size)
  {
    assert (e + 1) * size == e * size + size;
    Mono(e + 1, n, size);
  }

  lemma Distribute(f: Field, slot: int, e: int)
    ensures Flat(f, slot, e) * f.esize == Flat(f, slot, 0) * f.esize + e * f.esize
  {
  }

  lemma ElementIsCell(p: Pool, mem: Mem, slot: nat, j: nat, e: nat)
    requires Sane(p, mem) && j < |p.fields| && p.fields[j].isColumn && slot < Capacity(p, mem) && e < p.fields[j].ecount
    ensures Element(p.fields, TrueRow(p, mem, slot), j, e) == Cell(p, mem, p.fields[j], slot, e)
  {
    hide RowOf, Sane, Cell, TrueCells, ColumnIndex;
    CellsOfRow(p, mem, slot, |p.fields|, j);
    RowSlice(p, mem, j, slot, e);
  }

  // The element of one row after the poke.
  lemma ElementAfter(p: Pool, mem: Mem, r: PokeReq, slot: nat, j: nat, e: nat)
    requires Sane(p, mem) && PlanPoke(p, mem, r).Store?
    requires j < |p.fields| && p.fields[j].isColumn && slot < Capacity(p, mem) && e < p.fields[j].ecount
    ensures var s := PlanPoke(p, mem, r);
            && InMem(mem, s.at, |s.bytes|)
            && Element(p.fields, TrueRow(p, Write(mem, s.at, s.bytes), slot), j, e) ==
               if j == r.field && e == r.sub && slot == r.slot then s.bytes else Element(p.fields, TrueRow(p, mem, slot), j, e)
  {
    hide PlanPoke, Sane, Write, Cell, TrueRow, Element, Live, GenOf, Count, Capacity;
    PokeEffect(p, mem, r);
    var s := PlanPoke(p, mem, r);
    ElementIsCell(p, mem, slot, j, e);
    ElementIsCell(p, Write(mem, s.at, s.bytes), slot, j, e);
    if !(j == r.field && e == r.sub && slot == r.slot) {
      OtherCellSame(p, mem, r, j, slot, e);
    }
  }

  // Two listings with the same rows, but for what was poked: the same slots and generations, and of all elements of all
  // columns exactly the poked one replaced.
  ghost predicate OnlyPoked(fields: seq<Field>, a: seq<DRow>, b: seq<DRow>, r: PokeReq, bytes: seq<byte>) {
    && |a| == |b|
    && forall x :: 0 <= x < |a| ==> RowOnlyPoked(fields, a[x], b[x], r, bytes)
  }

  ghost predicate RowOnlyPoked(fields: seq<Field>, a: DRow, b: DRow, r: PokeReq, bytes: seq<byte>) {
    && b.slot == a.slot && b.gen == a.gen
    && forall j, e :: 0 <= j < |fields| && fields[j].isColumn && 0 <= e < fields[j].ecount ==>
         Element(fields, b, j, e) == if j == r.field && e == r.sub && a.slot == r.slot then bytes else Element(fields, a, j, e)
  }

  lemma RowAfter(p: Pool, mem: Mem, r: PokeReq, slot: nat)
    requires Sane(p, mem) && PlanPoke(p, mem, r).Store? && slot < Capacity(p, mem)
    ensures var s := PlanPoke(p, mem, r);
            && InMem(mem, s.at, |s.bytes|)
            && RowOnlyPoked(p.fields, TrueRow(p, mem, slot), TrueRow(p, Write(mem, s.at, s.bytes), slot), r, s.bytes)
  {
    hide PlanPoke, Sane, Write, Cell, TrueCells, Element, Live, GenOf, Count, Capacity;
    PokeEffect(p, mem, r);
    forall j, e | 0 <= j < |p.fields| && p.fields[j].isColumn && 0 <= e < p.fields[j].ecount
      ensures var s := PlanPoke(p, mem, r);
              Element(p.fields, TrueRow(p, Write(mem, s.at, s.bytes), slot), j, e) ==
              if j == r.field && e == r.sub && slot == r.slot then s.bytes else Element(p.fields, TrueRow(p, mem, slot), j, e)
    {
      ElementAfter(p, mem, r, slot, j, e);
    }
  }

  // For every poke that is carried out, of any value into any element of any field, and every window of rows: the
  // decoded listing after it is the listing before it with exactly that element replaced by the value's bytes. A
  // listing with room for all rows shows the poked row.
  lemma PokeThenRows(p: Pool, mem: Mem, r: PokeReq, v: int, start: int, want: int, cap: nat)
    requires Sane(p, mem) && 0 <= r.field < |p.fields| && r.hex == Hex(EncodeValue(v, p.fields[r.field].esize))
    requires PlanPoke(p, mem, r).Store?
    ensures var s, f := PlanPoke(p, mem, r), p.fields[r.field];
            && InMem(mem, s.at, |s.bytes|)
            && (var mem' := Write(mem, s.at, s.bytes);
                var a, b := Listing(p, mem, start, want, cap), Listing(p, mem', start, want, cap);
                && OnlyPoked(p.fields, a, b, r, EncodeValue(v, f.esize))
                && (f.isColumn && start <= 0 && want < 0 && Count(p, mem) * RowBytes(p) <= cap ==>
                      exists x :: 0 <= x < |b| && b[x].slot == r.slot))
  {
    hide PlanPoke, Write, Live, Sane, Count, Capacity, Listing, TrueRow, Window, RowOnlyPoked, GenOf, Cell, RowCells;
    HexRound(EncodeValue(v, p.fields[r.field].esize));
    PokeInside(p, mem, r);
    PokeEffect(p, mem, r);
    SaneCounts(p, mem);
    var s, f := PlanPoke(p, mem, r), p.fields[r.field];
    var mem' := Write(mem, s.at, s.bytes);
    var live := Live(p, mem, Count(p, mem));
    var w := Window(live, start, want, RowBytes(p), cap);
    ListingIs(p, mem, start, want, cap);
    ListingIs(p, mem', start, want, cap);
    LiveAscends(p, mem, Count(p, mem));
    WindowOf(live, start, want, RowBytes(p), cap);
    forall x | 0 <= x < |w|
      ensures RowOnlyPoked(p.fields, TrueRow(p, mem, w[x]), TrueRow(p, mem', w[x]), r, s.bytes)
    {
      assert w[x] in live;
      RowAfter(p, mem, r, w[x]);
    }
    if f.isColumn && start <= 0 && want < 0 && Count(p, mem) * RowBytes(p) <= cap {
      LiveCount(p, mem, Count(p, mem));
      WholeWindow(live, start, want, RowBytes(p), cap, Count(p, mem));
      var x :| 0 <= x < |w| && w[x] == r.slot;
      SlotOfRow(p, mem', w[x]);
      assert Listing(p, mem', start, want, cap)[x] == TrueRow(p, mem', w[x]);
    }
  }

  lemma SlotOfRow(p: Pool, mem: Mem, slot: nat)
    ensures TrueRow(p, mem, slot).slot == slot
  {
  }

  lemma WindowOf(live: seq<nat>, start: int, want: int, rb: nat, cap: nat)
    requires rb > 0
    ensures forall x :: 0 <= x < |Window(live, start, want, rb, cap)| ==> Window(live, start, want, rb, cap)[x] in live
  {
  }

  lemma {:induction false} LiveCount(p: Pool, mem: Mem, n: nat)
    ensures |Live(p, mem, n)| <= n
  {
    hide SlotIsFree;
    if n > 0 {
      LiveCount(p, mem, n - 1);
    }
  }

  // Nothing is cut when nothing is skipped, all rows are wanted and they fit.
  lemma WholeWindow(live: seq<nat>, start: int, want: int, rb: nat, cap: nat, n: nat)
    requires rb > 0 && start <= 0 && want < 0 && |live| <= n && n * rb <= cap
    ensures Window(live, start, want, rb, cap) == live
  {
    if |live| > 0 {
      Mono(|live|, n, rb);
      assert (|live| - 1) * rb + rb == |live| * rb;
      Fits(|live| - 1, rb, cap);
    }
  }

  lemma SaneCounts(p: Pool, mem: Mem)
    requires Sane(p, mem)
    ensures 0 <= Count(p, mem) <= Capacity(p, mem)
  {
  }
}

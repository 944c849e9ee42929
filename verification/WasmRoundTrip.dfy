// Every module that fits the binary format's 32-bit fields is read back exactly as it was written.
module WasmRoundTrip {
  import opened Bytes
  import opened Leb128
  import opened WasmBinary

  predicate FitsU(n: nat) { n < U32_LIMIT }

  predicate FitsI(v: int) { -I32_LIMIT <= v < I32_LIMIT }

  predicate TypeFits(t: FuncType) { FitsU(|t.params|) && FitsU(|t.results|) }
  predicate ImportFits(i: Import) { FitsU(|i.mod|) && FitsU(|i.field|) && FitsU(i.typeIdx) }
  predicate GlobalFits(g: Global) { FitsI(g.init) }
  predicate ExportFits(e: Export) { FitsU(|e.name|) && e.kind <= 3 && FitsU(e.idx) }
  predicate LocalFits(l: (nat, byte)) { FitsU(l.0) }
  predicate CodeFits(c: Code) {
    && FitsU(|c.locals|) && (forall l <- c.locals :: LocalFits(l))
    && FitsU(|EncU(|c.locals|) + EncAll(EncLocal, c.locals) + c.body|)
  }
  predicate DataFits(d: Data) { FitsI(d.offset) && FitsU(|d.bytes|) }

  predicate SectionFits<T>(enc: T -> seq<byte>, xs: seq<T>) {
    FitsU(|xs|) && FitsU(|EncU(|xs|) + EncAll(enc, xs)|)
  }

  // Indices, lengths and section sizes below 2^32, initialisers and offsets in the signed 32-bit range.
  ghost predicate Fits(m: Module) {
    && (forall t <- m.types :: TypeFits(t)) && SectionFits(EncType, m.types)
    && (forall i <- m.imports :: ImportFits(i)) && SectionFits(EncImport, m.imports)
    && (forall f <- m.funcs :: FitsU(f)) && SectionFits(EncIndex, m.funcs)
    && (m.memory.Some? ==> FitsU(m.memory.value))
    && (forall g <- m.globals :: GlobalFits(g)) && SectionFits(EncGlobal, m.globals)
    && (forall e <- m.exports :: ExportFits(e)) && SectionFits(EncExport, m.exports)
    && (m.start.Some? ==> FitsU(m.start.value))
    && (forall c <- m.codes :: CodeFits(c)) && SectionFits(EncCode, m.codes)
    && (forall d <- m.datas :: DataFits(d)) && SectionFits(EncData, m.datas)
  }

  lemma URound(v: nat, rest: seq<byte>)
    requires FitsU(v)
    ensures DecU(EncU(v) + rest, 32) == Some((v, rest))
  {
    Pow2Widths();
    UnsignedRoundTrip(v, 32, rest);
  }

  lemma SRound(v: int, rest: seq<byte>)
    requires FitsI(v)
    ensures DecS(EncS(v) + rest, 32) == Some((v, rest))
  {
    Pow2Widths();
    SignedRoundTrip(v, 32, rest);
  }

  lemma NameRound(s: seq<byte>, rest: seq<byte>)
    requires FitsU(|s|)
    ensures DecName(EncName(s) + rest) == Some((s, rest))
  {
    assert EncName(s) + rest == EncU(|s|) + (s + rest);
    URound(|s|, s + rest);
    assert (s + rest)[..|s|] == s && (s + rest)[|s|..] == rest;
  }

  lemma TypeRound(t: FuncType, rest: seq<byte>)
    requires TypeFits(t)
    ensures DecType(EncType(t) + rest) == Some((t, rest))
  {
    var s := EncType(t) + rest;
    assert s[1..] == EncName(t.params) + (EncName(t.results) + rest);
    NameRound(t.params, EncName(t.results) + rest);
    NameRound(t.results, rest);
  }

  lemma ImportRound(i: Import, rest: seq<byte>)
    requires ImportFits(i)
    ensures DecImport(EncImport(i) + rest) == Some((i, rest))
  {
    var t3 := [0x00] + (EncU(i.typeIdx) + rest);
    var t2 := EncName(i.field) + t3;
    assert EncImport(i) + rest == EncName(i.mod) + t2;
    NameRound(i.mod, t2);
    NameRound(i.field, t3);
    assert t3[1..] == EncU(i.typeIdx) + rest;
    URound(i.typeIdx, rest);
  }

  lemma GlobalRound(g: Global, rest: seq<byte>)
    requires GlobalFits(g)
    ensures DecGlobal(EncGlobal(g) + rest) == Some((g, rest))
  {
    var s := EncGlobal(g) + rest;
    var t := [0x0b] + rest;
    assert s[3..] == EncS(g.init) + t;
    SRound(g.init, t);
    assert t[1..] == rest;
  }

  lemma ExportRound(e: Export, rest: seq<byte>)
    requires ExportFits(e)
    ensures DecExport(EncExport(e) + rest) == Some((e, rest))
  {
    var t := [e.kind] + (EncU(e.idx) + rest);
    assert EncExport(e) + rest == EncName(e.name) + t;
    NameRound(e.name, t);
    assert t[1..] == EncU(e.idx) + rest;
    URound(e.idx, rest);
  }

  lemma LocalRound(l: (nat, byte), rest: seq<byte>)
    requires LocalFits(l)
    ensures DecLocal(EncLocal(l) + rest) == Some((l, rest))
  {
    var t := [l.1] + rest;
    assert EncLocal(l) + rest == EncU(l.0) + t;
    URound(l.0, t);
    assert t[1..] == rest;
  }

  lemma DataRound(d: Data, rest: seq<byte>)
    requires DataFits(d)
    ensures DecData(EncData(d) + rest) == Some((d, rest))
  {
    var s := EncData(d) + rest;
    var t := [0x0b] + (EncName(d.bytes) + rest);
    assert s[2..] == EncS(d.offset) + t;
    SRound(d.offset, t);
    assert t[1..] == EncName(d.bytes) + rest;
    NameRound(d.bytes, rest);
  }

  // Items that each read back on their own read back as a counted vector.
  lemma {:induction false} CountRound<T>(enc: T -> seq<byte>, dec: Parser<T>, xs: seq<T>, rest: seq<byte>)
    requires forall x, r: seq<byte> :: x in xs ==> dec(enc(x) + r) == Some((x, r))
    ensures DecCount(dec, |xs|, EncAll(enc, xs) + rest) == Some((xs, rest))
  {
    if xs == [] {
      assert EncAll(enc, xs) + rest == rest;
    } else {
      var tail := EncAll(enc, xs[1..]) + rest;
      assert EncAll(enc, xs) + rest == enc(xs[0]) + tail;
      assert dec(enc(xs[0]) + tail) == Some((xs[0], tail));
      CountRound(enc, dec, xs[1..], rest);
      assert xs == [xs[0]] + xs[1..];
    }
  }

  lemma VecRound<T>(enc: T -> seq<byte>, dec: Parser<T>, xs: seq<T>, rest: seq<byte>)
    requires FitsU(|xs|)
    requires forall x, r: seq<byte> :: x in xs ==> dec(enc(x) + r) == Some((x, r))
    ensures DecVec(dec, EncU(|xs|) + (EncAll(enc, xs) + rest)) == Some((xs, rest))
  {
    URound(|xs|, EncAll(enc, xs) + rest);
    CountRound(enc, dec, xs, rest);
  }

  function Entry(c: Code): seq<byte> { EncU(|c.locals|) + EncAll(EncLocal, c.locals) + c.body }

  lemma LocalsRound(c: Code)
    requires CodeFits(c)
    ensures DecVec(DecLocal, Entry(c)) == Some((c.locals, c.body))
  {
    LocalsVec(c.locals, c.body);
    assert Entry(c) == EncU(|c.locals|) + (EncAll(EncLocal, c.locals) + c.body);
  }

  lemma LocalsVec(locals: seq<(nat, byte)>, body: seq<byte>)
    requires FitsU(|locals|) && forall l <- locals :: LocalFits(l)
    ensures DecVec(DecLocal, EncU(|locals|) + (EncAll(EncLocal, locals) + body)) == Some((locals, body))
  {
    forall l: (nat, byte), r: seq<byte> | l in locals
      ensures DecLocal(EncLocal(l) + r) == Some((l, r))
    {
      LocalRound(l, r);
    }
    VecRound(EncLocal, DecLocal, locals, body);
  }

  lemma CodeRound(c: Code, rest: seq<byte>)
    requires CodeFits(c)
    ensures DecCode(EncCode(c) + rest) == Some((c, rest))
  {
    LocalsRound(c);
    assert EncCode(c) == EncName(Entry(c));
    NameRound(Entry(c), rest);
  }

  // The first byte of what follows a section is the id of a later one.
  ghost predicate LaterThan(id: byte, s: seq<byte>) { s == [] || s[0] > id }

  lemma SectionRound(id: byte, content: seq<byte>, rest: seq<byte>)
    requires FitsU(|content|)
    ensures DecSection(id, Section(id, content) + rest) == Some((Some(content), rest))
  {
    var s := Section(id, content) + rest;
    assert s[1..] == EncName(content) + rest;
    NameRound(content, rest);
  }

  lemma VecSectionRound<T>(id: byte, enc: T -> seq<byte>, dec: Parser<T>, xs: seq<T>, rest: seq<byte>)
    requires SectionFits(enc, xs) && LaterThan(id, rest)
    requires forall x, r: seq<byte> :: x in xs ==> dec(enc(x) + r) == Some((x, r))
    ensures DecVecSection(id, dec, VecSection(id, enc, xs) + rest) == Some((xs, rest))
    ensures forall k: byte :: k < id ==> LaterThan(k, VecSection(id, enc, xs) + rest)
  {
    if xs == [] {
      assert VecSection(id, enc, xs) + rest == rest;
    } else {
      var content := EncU(|xs|) + EncAll(enc, xs);
      SectionRound(id, content, rest);
      VecRound(enc, dec, xs, []);
      assert content == EncU(|xs|) + (EncAll(enc, xs) + []);
    }
  }

  lemma MemoryItem(pages: nat)
    requires FitsU(pages)
    ensures DecMemory([0x00] + EncU(pages)) == Some((pages, []))
  {
    var t := [0x00] + EncU(pages);
    URound(pages, []);
    assert t[1..] == EncU(pages) + [];
  }

  lemma OneItem<T>(dec: Parser<T>, x: T, t: seq<byte>)
    requires dec(t) == Some((x, []))
    ensures DecVec(dec, EncU(1) + t) == Some(([x], []))
  {
    URound(1, t);
    assert DecCount(dec, 0, []) == Some(([], []));
    assert [x] + [] == [x];
    assert DecCount(dec, 1, t) == Some(([x], []));
  }

  lemma MemoryContent(pages: nat)
    requires FitsU(pages)
    ensures DecVec(DecMemory, EncU(1) + [0x00] + EncU(pages)) == Some(([pages], []))
    ensures FitsU(|EncU(1) + [0x00] + EncU(pages)|)
  {
    hide DecVec, EncU;
    MemoryItem(pages);
    OneItem(DecMemory, pages, [0x00] + EncU(pages));
    assert EncU(1) + [0x00] + EncU(pages) == EncU(1) + ([0x00] + EncU(pages));
    Pow2Widths();
    UnsignedLength(pages, 32);
    UnsignedLength(1, 7);
  }

  lemma MemorySectionRound(m: Option<nat>, rest: seq<byte>)
    requires m.Some? ==> FitsU(m.value)
    requires LaterThan(5, rest)
    ensures DecMemorySection(MemorySection(m) + rest) == Some((m, rest))
    ensures forall k: byte :: k < 5 ==> LaterThan(k, MemorySection(m) + rest)
  {
    match m
    case None => assert MemorySection(m) + rest == rest;
    case Some(pages) =>
      MemoryContent(pages);
      SectionRound(5, EncU(1) + [0x00] + EncU(pages), rest);
  }

  lemma StartSectionRound(start: Option<nat>, rest: seq<byte>)
    requires start.Some? ==> FitsU(start.value)
    requires LaterThan(8, rest)
    ensures DecStartSection(StartSection(start) + rest) == Some((start, rest))
    ensures forall k: byte :: k < 8 ==> LaterThan(k, StartSection(start) + rest)
  {
    match start
    case None => assert StartSection(start) + rest == rest;
    case Some(f) =>
      Pow2Widths();
      UnsignedLength(f, 32);
      SectionRound(8, EncU(f), rest);
      URound(f, []);
      assert EncU(f) + [] == EncU(f);
  }

  lemma CodeTail(m: Module)
    requires Fits(m)
    ensures DecVecSection(11, DecData, Tail11(m)) == Some((m.datas, []))
    ensures DecVecSection(10, DecCode, Tail10(m)) == Some((m.codes, Tail11(m)))
    ensures LaterThan(8, Tail10(m))
  {
    forall d, r: seq<byte> | d in m.datas ensures DecData(EncData(d) + r) == Some((d, r)) { DataRound(d, r); }
    VecSectionRound(11, EncData, DecData, m.datas, []);
    assert Tail11(m) + [] == Tail11(m);
    forall c, r: seq<byte> | c in m.codes ensures DecCode(EncCode(c) + r) == Some((c, r)) { CodeRound(c, r); }
    VecSectionRound(10, EncCode, DecCode, m.codes, Tail11(m));
  }

  lemma MiddleTail(m: Module)
    requires Fits(m)
    ensures DecStartSection(Tail8(m)) == Some((m.start, Tail10(m)))
    ensures DecVecSection(7, DecExport, Tail7(m)) == Some((m.exports, Tail8(m)))
    ensures DecVecSection(6, DecGlobal, Tail6(m)) == Some((m.globals, Tail7(m)))
    ensures LaterThan(5, Tail6(m))
  {
    CodeTail(m);
    StartSectionRound(m.start, Tail10(m));
    forall e, r: seq<byte> | e in m.exports ensures DecExport(EncExport(e) + r) == Some((e, r)) { ExportRound(e, r); }
    VecSectionRound(7, EncExport, DecExport, m.exports, Tail8(m));
    forall g, r: seq<byte> | g in m.globals ensures DecGlobal(EncGlobal(g) + r) == Some((g, r)) { GlobalRound(g, r); }
    VecSectionRound(6, EncGlobal, DecGlobal, m.globals, Tail7(m));
  }

  lemma HeadTail(m: Module)
    requires Fits(m)
    ensures DecMemorySection(Tail5(m)) == Some((m.memory, Tail6(m)))
    ensures DecVecSection(3, DecIndex, Tail3(m)) == Some((m.funcs, Tail5(m)))
    ensures DecVecSection(2, DecImport, Tail2(m)) == Some((m.imports, Tail3(m)))
    ensures DecVecSection(1, DecType, Tail1(m)) == Some((m.types, Tail2(m)))
  {
    MiddleTail(m);
    MemorySectionRound(m.memory, Tail6(m));
    forall f: nat, r: seq<byte> | f in m.funcs ensures DecIndex(EncIndex(f) + r) == Some((f, r)) { URound(f, r); }
    VecSectionRound(3, EncIndex, DecIndex, m.funcs, Tail5(m));
    forall i, r: seq<byte> | i in m.imports ensures DecImport(EncImport(i) + r) == Some((i, r)) { ImportRound(i, r); }
    VecSectionRound(2, EncImport, DecImport, m.imports, Tail3(m));
    forall t, r: seq<byte> | t in m.types ensures DecType(EncType(t) + r) == Some((t, r)) { TypeRound(t, r); }
    VecSectionRound(1, EncType, DecType, m.types, Tail2(m));
  }

  // The file wm_finish writes parses, and yields every section's items in order with nothing left over.
  lemma ModuleRoundTrip(m: Module)
    requires Fits(m)
    ensures Decode(Encode(m)) == Some(m)
  {
    hide DecVecSection, DecMemorySection, DecStartSection, Tail1, Tail2, Tail3, Tail5, Tail6, Tail7, Tail8, Tail10, Tail11, Fits;
    var s := Encode(m);
    assert s[..8] == HEADER && s[8..] == Tail1(m);
    HeadTail(m);
    MiddleTail(m);
    CodeTail(m);
  }
}

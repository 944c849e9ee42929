// A WebAssembly module as data, its binary layout, and a parser for that layout following section 5.5 of the
// WebAssembly Core Specification 1.0 (custom sections excepted).
module WasmBinary {
  import opened Bytes
  import opened Leb128

  datatype FuncType = FuncType(params: seq<byte>, results: seq<byte>)
  datatype Import = Import(mod: seq<byte>, field: seq<byte>, typeIdx: nat)
  datatype Global = Global(isMutable: bool, init: int)
  datatype Export = Export(name: seq<byte>, kind: byte, idx: nat)
  datatype Code = Code(locals: seq<(nat, byte)>, body: seq<byte>)
  datatype Data = Data(offset: int, bytes: seq<byte>)

  datatype Module = Module(
    types: seq<FuncType>,
    imports: seq<Import>,
    funcs: seq<nat>,
    memory: Option<nat>,
    globals: seq<Global>,
    exports: seq<Export>,
    start: Option<nat>,
    codes: seq<Code>,
    datas: seq<Data>)

  const EMPTY: Module := Module([], [], [], None, [], [], None, [], [])

  // ---- items ----

  function EncName(s: seq<byte>): seq<byte> { EncU(|s|) + s }

  function EncType(t: FuncType): seq<byte> { [0x60] + EncName(t.params) + EncName(t.results) }

  function EncImport(i: Import): seq<byte> { EncName(i.mod) + EncName(i.field) + [0x00] + EncU(i.typeIdx) }

  function EncIndex(k: nat): seq<byte> { EncU(k) }

  // The only globals written are i32 with a constant initialiser.
  function EncGlobal(g: Global): seq<byte> {
    [0x7f, if g.isMutable then 1 else 0, 0x41] + EncS(g.init) + [0x0b]
  }

  function EncExport(e: Export): seq<byte> { EncName(e.name) + [e.kind] + EncU(e.idx) }

  function EncLocal(l: (nat, byte)): seq<byte> { EncU(l.0) + [l.1] }

  function EncCode(c: Code): seq<byte> {
    EncName(EncU(|c.locals|) + EncAll(EncLocal, c.locals) + c.body)
  }

  function EncData(d: Data): seq<byte> { [0x00, 0x41] + EncS(d.offset) + [0x0b] + EncName(d.bytes) }

  function EncAll<T>(enc: T -> seq<byte>, xs: seq<T>): seq<byte> {
    if xs == [] then [] else enc(xs[0]) + EncAll(enc, xs[1..])
  }

  lemma {:induction false} EncAllAppend<T>(enc: T -> seq<byte>, xs: seq<T>, x: T)
    ensures EncAll(enc, xs + [x]) == EncAll(enc, xs) + enc(x)
  {
    if xs == [] {
      assert xs + [x] == [x] && [x][1..] == [];
      assert EncAll(enc, [x]) == enc(x) + EncAll(enc, []);
    } else {
      EncAllAppend(enc, xs[1..], x);
      assert (xs + [x])[1..] == xs[1..] + [x];
    }
  }

  // ---- sections ----

  function Section(id: byte, content: seq<byte>): seq<byte> { [id] + EncName(content) }

  // A vector section is left out when it has no items.
  function VecSection<T>(id: byte, enc: T -> seq<byte>, xs: seq<T>): seq<byte> {
    if xs == [] then [] else Section(id, EncU(|xs|) + EncAll(enc, xs))
  }

  const HEADER: seq<byte> := [0x00, 0x61, 0x73, 0x6d, 0x01, 0x00, 0x00, 0x00]

  function MemorySection(m: Option<nat>): seq<byte> {
    match m case None => [] case Some(pages) => Section(5, EncU(1) + [0x00] + EncU(pages))
  }

  function StartSection(s: Option<nat>): seq<byte> {
    match s case None => [] case Some(f) => Section(8, EncU(f))
  }

  // Each tail is a module from one section onwards; the whole file is the header and the first tail.
  function Tail11(m: Module): seq<byte> { VecSection(11, EncData, m.datas) }
  function Tail10(m: Module): seq<byte> { VecSection(10, EncCode, m.codes) + Tail11(m) }
  function Tail8(m: Module): seq<byte> { StartSection(m.start) + Tail10(m) }
  function Tail7(m: Module): seq<byte> { VecSection(7, EncExport, m.exports) + Tail8(m) }
  function Tail6(m: Module): seq<byte> { VecSection(6, EncGlobal, m.globals) + Tail7(m) }
  function Tail5(m: Module): seq<byte> { MemorySection(m.memory) + Tail6(m) }
  function Tail3(m: Module): seq<byte> { VecSection(3, EncIndex, m.funcs) + Tail5(m) }
  function Tail2(m: Module): seq<byte> { VecSection(2, EncImport, m.imports) + Tail3(m) }
  function Tail1(m: Module): seq<byte> { VecSection(1, EncType, m.types) + Tail2(m) }

  function Encode(m: Module): seq<byte> { HEADER + Tail1(m) }

  // ---- parsing items ----

  type Parser<!T> = seq<byte> -> Option<(T, seq<byte>)>

  function TakeBytes(n: nat, s: seq<byte>): Option<(seq<byte>, seq<byte>)> {
    if n <= |s| then Some((s[..n], s[n..])) else None
  }

  function DecName(s: seq<byte>): Option<(seq<byte>, seq<byte>)> {
    match DecU(s, 32) case None => None case Some(p) => TakeBytes(p.0, p.1)
  }

  function DecType(s: seq<byte>): Option<(FuncType, seq<byte>)> {
    if s == [] || s[0] != 0x60 then None
    else match DecName(s[1..])
      case None => None
      case Some(p) =>
        match DecName(p.1) case None => None case Some(r) => Some((FuncType(p.0, r.0), r.1))
  }

  function DecImport(s: seq<byte>): Option<(Import, seq<byte>)> {
    match DecName(s)
    case None => None
    case Some(m) =>
      match DecName(m.1)
      case None => None
      case Some(f) =>
        if f.1 == [] || f.1[0] != 0x00 then None
        else match DecU(f.1[1..], 32) case None => None case Some(t) => Some((Import(m.0, f.0, t.0), t.1))
  }

  function DecIndex(s: seq<byte>): Option<(nat, seq<byte>)> { DecU(s, 32) }

  function DecGlobal(s: seq<byte>): Option<(Global, seq<byte>)> {
    if |s| < 3 || s[0] != 0x7f || s[1] > 1 || s[2] != 0x41 then None
    else match DecS(s[3..], 32)
      case None => None
      case Some(p) => if p.1 == [] || p.1[0] != 0x0b then None else Some((Global(s[1] == 1, p.0), p.1[1..]))
  }

  function DecExport(s: seq<byte>): Option<(Export, seq<byte>)> {
    match DecName(s)
    case None => None
    case Some(p) =>
      if p.1 == [] || p.1[0] > 3 then None
      else match DecU(p.1[1..], 32) case None => None case Some(k) => Some((Export(p.0, p.1[0], k.0), k.1))
  }

  function DecLocal(s: seq<byte>): Option<((nat, byte), seq<byte>)> {
    match DecU(s, 32)
    case None => None
    case Some(p) => if p.1 == [] then None else Some(((p.0, p.1[0]), p.1[1..]))
  }

  function DecCode(s: seq<byte>): Option<(Code, seq<byte>)> {
    match DecName(s)
    case None => None
    case Some(f) =>
      match DecVec(DecLocal, f.0) case None => None case Some(l) => Some((Code(l.0, l.1), f.1))
  }

  function DecData(s: seq<byte>): Option<(Data, seq<byte>)> {
    if |s| < 2 || s[0] != 0x00 || s[1] != 0x41 then None
    else match DecS(s[2..], 32)
      case None => None
      case Some(p) =>
        if p.1 == [] || p.1[0] != 0x0b then None
        else match DecName(p.1[1..]) case None => None case Some(b) => Some((Data(p.0, b.0), b.1))
  }

  function DecCount<T>(dec: Parser<T>, n: nat, s: seq<byte>): Option<(seq<T>, seq<byte>)> {
    if n == 0 then Some(([], s))
    else match dec(s)
      case None => None
      case Some(p) =>
        match DecCount(dec, n - 1, p.1) case None => None case Some(q) => Some(([p.0] + q.0, q.1))
  }

  function DecVec<T>(dec: Parser<T>, s: seq<byte>): Option<(seq<T>, seq<byte>)> {
    match DecU(s, 32) case None => None case Some(p) => DecCount(dec, p.0, p.1)
  }

  // ---- parsing sections ----

  // The content of section `id` if it comes next, and what follows it.
  function DecSection(id: byte, s: seq<byte>): Option<(Option<seq<byte>>, seq<byte>)> {
    if s == [] || s[0] != id then Some((None, s))
    else match DecName(s[1..]) case None => None case Some(p) => Some((Some(p.0), p.1))
  }

  // A vector section must be used up by its items.
  function DecVecSection<T>(id: byte, dec: Parser<T>, s: seq<byte>): Option<(seq<T>, seq<byte>)> {
    match DecSection(id, s)
    case None => None
    case Some(p) =>
      match p.0
      case None => Some(([], p.1))
      case Some(content) =>
        match DecVec(dec, content)
        case None => None
        case Some(v) => if v.1 == [] then Some((v.0, p.1)) else None
  }

  // One memory with a minimum and no maximum.
  function DecMemory(s: seq<byte>): Option<(nat, seq<byte>)> {
    if s == [] || s[0] != 0x00 then None else DecU(s[1..], 32)
  }

  function DecMemorySection(s: seq<byte>): Option<(Option<nat>, seq<byte>)> {
    match DecVecSection(5, DecMemory, s)
    case None => None
    case Some(p) =>
      if |p.0| == 0 then Some((None, p.1)) else if |p.0| == 1 then Some((Some(p.0[0]), p.1)) else None
  }

  function DecStartSection(s: seq<byte>): Option<(Option<nat>, seq<byte>)> {
    match DecSection(8, s)
    case None => None
    case Some(p) =>
      match p.0
      case None => Some((None, p.1))
      case Some(content) =>
        match DecU(content, 32)
        case None => None
        case Some(f) => if f.1 == [] then Some((Some(f.0), p.1)) else None
  }

  function Decode(s: seq<byte>): Option<Module> {
    if |s| < 8 || s[..8] != [0x00, 0x61, 0x73, 0x6d, 0x01, 0x00, 0x00, 0x00] then None
    else match DecVecSection(1, DecType, s[8..])
      case None => None
      case Some(types) =>
    match DecVecSection(2, DecImport, types.1)
      case None => None
      case Some(imports) =>
    match DecVecSection(3, DecIndex, imports.1)
      case None => None
      case Some(funcs) =>
    match DecMemorySection(funcs.1)
      case None => None
      case Some(memory) =>
    match DecVecSection(6, DecGlobal, memory.1)
      case None => None
      case Some(globals) =>
    match DecVecSection(7, DecExport, globals.1)
      case None => None
      case Some(exports) =>
    match DecStartSection(exports.1)
      case None => None
      case Some(start) =>
    match DecVecSection(10, DecCode, start.1)
      case None => None
      case Some(codes) =>
    match DecVecSection(11, DecData, codes.1)
      case None => None
      case Some(datas) =>
        if datas.1 != [] then None
        else Some(Module(types.0, imports.0, funcs.0, memory.0, globals.0, exports.0, start.0, codes.0, datas.0))
  }
}

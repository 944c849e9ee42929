// The module builder: seven section buffers that grow as items are added, and the final serialisation.
module WasmBuilder {
  import opened Bytes
  import opened Leb128
  import opened WasmBuffer
  import opened WasmBinary

  const ENV: seq<byte> := [0x65, 0x6e, 0x76]

  // ---- one item into one buffer ----

  lemma NameShape(s: seq<byte>)
    ensures EncName(s) == EncU(|s|) + s
  {
  }

  method PutType(b: WasmBuf, t: FuncType)
    requires b.Valid()
    modifies b, b.data
    ensures b.Valid() && (b.data == old(b.data) || fresh(b.data))
    ensures b.contents == old(b.contents) + EncType(t)
  {
    b.Byte(0x60);
    b.Name(t.params);
    b.Name(t.results);
  }

  method PutImport(b: WasmBuf, i: Import)
    requires b.Valid()
    modifies b, b.data
    ensures b.Valid() && (b.data == old(b.data) || fresh(b.data))
    ensures b.contents == old(b.contents) + EncImport(i)
  {
    hide EncU;
    b.Name(i.mod);
    b.Name(i.field);
    b.Byte(0x00);
    b.U(i.typeIdx);
  }

  method PutGlobal(b: WasmBuf, g: Global)
    requires b.Valid()
    modifies b, b.data
    ensures b.Valid() && (b.data == old(b.data) || fresh(b.data))
    ensures b.contents == old(b.contents) + EncGlobal(g)
  {
    b.Byte(0x7f);
    b.Byte(if g.isMutable then 1 else 0);
    b.Byte(0x41);
    b.I(g.init);
    b.Byte(0x0b);
  }

  method PutLocals(b: WasmBuf, locals: seq<(nat, byte)>)
    requires b.Valid()
    modifies b, b.data
    ensures b.Valid() && (b.data == old(b.data) || fresh(b.data))
    ensures b.contents == old(b.contents) + EncAll(EncLocal, locals)
  {
    for i := 0 to |locals|
      invariant b.Valid() && (b.data == old(b.data) || fresh(b.data))
      invariant b.contents == old(b.contents) + EncAll(EncLocal, locals[..i])
    {
      b.U(locals[i].0);
      b.Byte(locals[i].1);
      EncAllAppend(EncLocal, locals[..i], locals[i]);
      assert locals[..i] + [locals[i]] == locals[..i + 1];
      assert EncLocal(locals[i]) == EncU(locals[i].0) + [locals[i].1];
    }
    assert locals[..|locals|] == locals;
  }

  // Local groups, then the body, all behind one length.
  method PutCode(b: WasmBuf, c: Code)
    requires b.Valid()
    modifies b, b.data
    ensures b.Valid() && (b.data == old(b.data) || fresh(b.data))
    ensures b.contents == old(b.contents) + EncCode(c)
  {
    hide EncU, EncS;
    var fb := new WasmBuf();
    fb.U(|c.locals|);
    PutLocals(fb, c.locals);
    fb.Bytes(c.body);
    assert fb.contents == EncU(|c.locals|) + EncAll(EncLocal, c.locals) + c.body;
    b.Name(fb.data[..fb.len]);
  }

  method PutExport(b: WasmBuf, e: Export)
    requires b.Valid()
    modifies b, b.data
    ensures b.Valid() && (b.data == old(b.data) || fresh(b.data))
    ensures b.contents == old(b.contents) + EncExport(e)
  {
    b.Name(e.name);
    b.Byte(e.kind);
    b.U(e.idx);
  }

  method PutData(b: WasmBuf, d: Data)
    requires b.Valid()
    modifies b, b.data
    ensures b.Valid() && (b.data == old(b.data) || fresh(b.data))
    ensures b.contents == old(b.contents) + EncData(d)
  {
    hide EncU, EncS, EncName;
    assert EncData(d) == [0x00, 0x41] + EncS(d.offset) + [0x0b] + (EncU(|d.bytes|) + d.bytes) by { NameShape(d.bytes); }
    b.Byte(0x00);
    b.Byte(0x41);
    b.I(d.offset);
    b.Byte(0x0b);
    b.Name(d.bytes);
  }

  // No items, no bytes.
  lemma Empties()
    ensures EncAll(EncType, EMPTY.types) == [] && EncAll(EncImport, EMPTY.imports) == []
    ensures EncAll(EncIndex, EMPTY.funcs) == [] && EncAll(EncGlobal, EMPTY.globals) == []
    ensures EncAll(EncExport, EMPTY.exports) == [] && EncAll(EncCode, EMPTY.codes) == [] && EncAll(EncData, EMPTY.datas) == []
  {
  }

  class WasmModule {
    const types: WasmBuf
    const imports: WasmBuf
    const funcs: WasmBuf
    const globals: WasmBuf
    const exports: WasmBuf
    const code: WasmBuf
    const data: WasmBuf
    var typeCount: nat
    var importCount: nat
    var funcCount: nat
    var globalCount: nat
    var exportCount: nat
    var codeCount: nat
    var dataCount: nat
    var hasMemory: bool
    var memMin: nat
    var hasStart: bool
    var startIdx: nat
    // The module built so far.
    ghost var M: Module

    // No two sections share a buffer.
    ghost predicate Distinct() {
      && types != imports && types != funcs && types != globals && types != exports && types != code && types != data
      && imports != funcs && imports != globals && imports != exports && imports != code && imports != data
      && funcs != globals && funcs != exports && funcs != code && funcs != data
      && globals != exports && globals != code && globals != data
      && exports != code && exports != data
      && code != data
    }

    // Nor the storage of one.
    ghost predicate Separate()
      reads this, types, imports, funcs, globals, exports, code, data
    {
      && Distinct()
      && types.data != imports.data && types.data != funcs.data && types.data != globals.data && types.data != exports.data && types.data != code.data && types.data != data.data
      && imports.data != funcs.data && imports.data != globals.data && imports.data != exports.data && imports.data != code.data && imports.data != data.data
      && funcs.data != globals.data && funcs.data != exports.data && funcs.data != code.data && funcs.data != data.data
      && globals.data != exports.data && globals.data != code.data && globals.data != data.data
      && exports.data != code.data && exports.data != data.data
      && code.data != data.data
    }

    // Every buffer holds the encodings of the items added to its section, and every counter their number.
    ghost predicate Valid()
      reads this, types, imports, funcs, globals, exports, code, data
      reads types.data, imports.data, funcs.data, globals.data, exports.data, code.data, data.data
    {
      && Separate()
      && types.Valid() && imports.Valid() && funcs.Valid() && globals.Valid()
      && exports.Valid() && code.Valid() && data.Valid()
      && types.contents == EncAll(EncType, M.types) && typeCount == |M.types|
      && imports.contents == EncAll(EncImport, M.imports) && importCount == |M.imports|
      && funcs.contents == EncAll(EncIndex, M.funcs) && funcCount == |M.funcs|
      && globals.contents == EncAll(EncGlobal, M.globals) && globalCount == |M.globals|
      && exports.contents == EncAll(EncExport, M.exports) && exportCount == |M.exports|
      && code.contents == EncAll(EncCode, M.codes) && codeCount == |M.codes|
      && data.contents == EncAll(EncData, M.datas) && dataCount == |M.datas|
      && M.memory == (if hasMemory then Some(memMin) else None)
      && M.start == (if hasStart then Some(startIdx) else None)
    }

    lemma ValidDistinct()
      requires Valid()
      ensures Distinct()
    {
    }

    constructor ()
      ensures Valid() && M == EMPTY
      ensures fresh(types) && fresh(imports) && fresh(funcs) && fresh(globals)
      ensures fresh(exports) && fresh(code) && fresh(data)
      ensures fresh(types.data) && fresh(imports.data) && fresh(funcs.data) && fresh(globals.data)
      ensures fresh(exports.data) && fresh(code.data) && fresh(data.data)
    {
      Empties();
      types := new WasmBuf();
      imports := new WasmBuf();
      funcs := new WasmBuf();
      globals := new WasmBuf();
      exports := new WasmBuf();
      code := new WasmBuf();
      data := new WasmBuf();
      typeCount, importCount, funcCount, globalCount := 0, 0, 0, 0;
      exportCount, codeCount, dataCount := 0, 0, 0;
      hasMemory, memMin, hasStart, startIdx := false, 0, false, 0;
      M := EMPTY;
    }

    method Type(params: seq<byte>, results: seq<byte>) returns (idx: nat)
      requires Valid()
      modifies this, types, types.data
      ensures Valid() && (types.data == old(types.data) || fresh(types.data))
      ensures M == old(M).(types := old(M).types + [FuncType(params, results)])
      ensures idx == |old(M).types|
    {
      hide EncAll, EncU, EncS;
      var item := FuncType(params, results);
      PutType(types, item);
      idx := typeCount;
      typeCount := typeCount + 1;
      EncAllAppend(EncType, M.types, item);
      M := M.(types := M.types + [item]);
    }

    method ImportFunc(field: seq<byte>, typeIdx: nat) returns (idx: nat)
      requires Valid()
      modifies this, imports, imports.data
      ensures Valid() && (imports.data == old(imports.data) || fresh(imports.data))
      ensures M == old(M).(imports := old(M).imports + [Import(ENV, field, typeIdx)])
      ensures idx == |old(M).imports|
    {
      hide EncAll, EncU, EncS;
      var item := Import(ENV, field, typeIdx);
      PutImport(imports, item);
      idx := importCount;
      importCount := importCount + 1;
      EncAllAppend(EncImport, M.imports, item);
      M := M.(imports := M.imports + [item]);
    }

    method Memory(minPages: nat)
      requires Valid()
      modifies this
      ensures Valid() && M == old(M).(memory := Some(minPages))
    {
      hide EncAll, EncU, EncS, EncType, EncImport, EncCode, EncData, EncGlobal, EncExport, WasmBuf.Valid;
      hasMemory, memMin := true, minPages;
      M := M.(memory := Some(minPages));
    }

    method GlobalI32(isMutable: bool, init: int) returns (idx: nat)
      requires Valid()
      modifies this, globals, globals.data
      ensures Valid() && (globals.data == old(globals.data) || fresh(globals.data))
      ensures M == old(M).(globals := old(M).globals + [Global(isMutable, init)])
      ensures idx == |old(M).globals|
    {
      hide EncAll, EncU, EncS;
      var item := Global(isMutable, init);
      PutGlobal(globals, item);
      idx := globalCount;
      globalCount := globalCount + 1;
      EncAllAppend(EncGlobal, M.globals, item);
      M := M.(globals := M.globals + [item]);
    }

    // A defined function's index counts the imports made so far.
    method Func(typeIdx: nat) returns (idx: nat)
      requires Valid()
      modifies this, funcs, funcs.data
      ensures Valid() && (funcs.data == old(funcs.data) || fresh(funcs.data))
      ensures M == old(M).(funcs := old(M).funcs + [typeIdx])
      ensures idx == |old(M).imports| + |old(M).funcs|
    {
      hide EncAll, EncU, EncS;
      idx := importCount + funcCount;
      funcs.U(typeIdx);
      funcCount := funcCount + 1;
      EncAllAppend(EncIndex, M.funcs, typeIdx);
      M := M.(funcs := M.funcs + [typeIdx]);
    }

    method Body(locals: seq<(nat, byte)>, body: seq<byte>)
      requires Valid()
      modifies this, code, code.data
      ensures Valid() && (code.data == old(code.data) || fresh(code.data))
      ensures M == old(M).(codes := old(M).codes + [Code(locals, body)])
    {
      hide EncAll, EncU, EncS;
      var item := Code(locals, body);
      PutCode(code, item);
      codeCount := codeCount + 1;
      EncAllAppend(EncCode, M.codes, item);
      M := M.(codes := M.codes + [item]);
    }

    method ExportItem(name: seq<byte>, kind: byte, k: nat)
      requires Valid()
      modifies this, exports, exports.data
      ensures Valid() && (exports.data == old(exports.data) || fresh(exports.data))
      ensures M == old(M).(exports := old(M).exports + [Export(name, kind, k)])
    {
      hide EncAll, EncU, EncS;
      var item := Export(name, kind, k);
      PutExport(exports, item);
      exportCount := exportCount + 1;
      EncAllAppend(EncExport, M.exports, item);
      M := M.(exports := M.exports + [item]);
    }

    method Start(f: nat)
      requires Valid()
      modifies this
      ensures Valid() && M == old(M).(start := Some(f))
    {
      hide EncAll, EncU, EncS, EncType, EncImport, EncCode, EncData, EncGlobal, EncExport, WasmBuf.Valid;
      hasStart, startIdx := true, f;
      M := M.(start := Some(f));
    }

    method Segment(offset: int, bytes: seq<byte>)
      requires Valid()
      modifies this, data, data.data
      ensures Valid() && (data.data == old(data.data) || fresh(data.data))
      ensures M == old(M).(datas := old(M).datas + [Data(offset, bytes)])
    {
      hide EncAll, EncU, EncS;
      var item := Data(offset, bytes);
      PutData(data, item);
      dataCount := dataCount + 1;
      EncAllAppend(EncData, M.datas, item);
      M := M.(datas := M.datas + [item]);
    }

    ghost predicate Apart(out: WasmBuf)
      reads this, types, imports, funcs, globals, exports, code, data, out
    {
      && out != types && out != imports && out != funcs && out != globals && out != exports && out != code && out != data
      && out.data != types.data && out.data != imports.data && out.data != funcs.data && out.data != globals.data
      && out.data != exports.data && out.data != code.data && out.data != data.data
    }

    method EmitFront(out: WasmBuf)
      requires Valid() && out.Valid() && Apart(out)
      modifies out, out.data
      ensures Valid() && Apart(out) && out.Valid() && (out.data == old(out.data) || fresh(out.data))
      ensures out.contents == old(out.contents) + VecSection(1, EncType, M.types)
                              + VecSection(2, EncImport, M.imports) + VecSection(3, EncIndex, M.funcs)
    {
      hide EncAll, EncU, EncS, Section, MemorySection, StartSection;
      EmitVec(out, 1, typeCount, types);
      EmitVec(out, 2, importCount, imports);
      EmitVec(out, 3, funcCount, funcs);
    }

    method EmitMiddle(out: WasmBuf)
      requires Valid() && out.Valid() && Apart(out)
      modifies out, out.data
      ensures Valid() && Apart(out) && out.Valid() && (out.data == old(out.data) || fresh(out.data))
      ensures out.contents == old(out.contents) + MemorySection(M.memory)
                              + VecSection(6, EncGlobal, M.globals) + VecSection(7, EncExport, M.exports)
    {
      hide EncAll, EncU, EncS, Section, MemorySection, StartSection;
      EmitMemory(out, if hasMemory then Some(memMin) else None);
      EmitVec(out, 6, globalCount, globals);
      EmitVec(out, 7, exportCount, exports);
    }

    method EmitBack(out: WasmBuf)
      requires Valid() && out.Valid() && Apart(out)
      modifies out, out.data
      ensures Valid() && Apart(out) && out.Valid() && (out.data == old(out.data) || fresh(out.data))
      ensures out.contents == old(out.contents) + StartSection(M.start)
                              + VecSection(10, EncCode, M.codes) + VecSection(11, EncData, M.datas)
    {
      hide EncAll, EncU, EncS, Section, MemorySection, StartSection;
      EmitStart(out, if hasStart then Some(startIdx) else None);
      EmitVec(out, 10, codeCount, code);
      EmitVec(out, 11, dataCount, data);
    }

    // The header and every non-empty section in order.
    method Finish() returns (out: WasmBuf)
      requires Valid()
      ensures Valid() && out.Valid() && fresh(out) && fresh(out.data)
      ensures out.contents == Encode(M)
    {
      hide EncAll, EncU, EncS, Section, VecSection, MemorySection, StartSection;
      out := new WasmBuf();
      out.Bytes(HEADER);
      EmitFront(out);
      EmitMiddle(out);
      EmitBack(out);
      EncodeFlat(M);
    }
  }

  // The nested tails of the layout, flattened into the order in which the sections are written.
  lemma EncodeFlat(m: Module)
    ensures Encode(m) ==
            [] + HEADER + VecSection(1, EncType, m.types) + VecSection(2, EncImport, m.imports)
            + VecSection(3, EncIndex, m.funcs) + MemorySection(m.memory) + VecSection(6, EncGlobal, m.globals)
            + VecSection(7, EncExport, m.exports) + StartSection(m.start) + VecSection(10, EncCode, m.codes)
            + VecSection(11, EncData, m.datas)
  {
    hide VecSection, MemorySection, StartSection;
    var h := HEADER;
    var a := h + VecSection(1, EncType, m.types);
    assert Encode(m) == a + Tail2(m);
    var b := a + VecSection(2, EncImport, m.imports);
    assert a + Tail2(m) == b + Tail3(m);
    var c := b + VecSection(3, EncIndex, m.funcs);
    assert b + Tail3(m) == c + Tail5(m);
    var d := c + MemorySection(m.memory);
    assert c + Tail5(m) == d + Tail6(m);
    var e := d + VecSection(6, EncGlobal, m.globals);
    assert d + Tail6(m) == e + Tail7(m);
    var f := e + VecSection(7, EncExport, m.exports);
    assert e + Tail7(m) == f + Tail8(m);
    var g := f + StartSection(m.start);
    assert f + Tail8(m) == g + Tail10(m);
    assert g + Tail10(m) == g + VecSection(10, EncCode, m.codes) + VecSection(11, EncData, m.datas);
    assert [] + HEADER == HEADER;
  }

  // One section: id, size, content.
  method EmitRaw(out: WasmBuf, id: byte, s: WasmBuf)
    requires out.Valid() && s.Valid() && out != s && out.data != s.data
    modifies out, out.data
    ensures out.Valid() && (out.data == old(out.data) || fresh(out.data))
    ensures out.contents == old(out.contents) + Section(id, s.contents)
  {
    var content := s.data[..s.len];
    out.Byte(id);
    out.U(s.len);
    out.Bytes(content);
  }

  method EmitMemory(out: WasmBuf, memory: Option<nat>)
    requires out.Valid()
    modifies out, out.data
    ensures out.Valid() && (out.data == old(out.data) || fresh(out.data))
    ensures out.contents == old(out.contents) + MemorySection(memory)
  {
    if memory.Some? {
      var s := new WasmBuf();
      s.U(1);
      s.Byte(0x00);
      s.U(memory.value);
      assert s.contents == EncU(1) + [0x00] + EncU(memory.value);
      EmitRaw(out, 5, s);
    } else {
      assert MemorySection(memory) == [];
    }
  }

  method EmitStart(out: WasmBuf, start: Option<nat>)
    requires out.Valid()
    modifies out, out.data
    ensures out.Valid() && (out.data == old(out.data) || fresh(out.data))
    ensures out.contents == old(out.contents) + StartSection(start)
  {
    if start.Some? {
      var s := new WasmBuf();
      s.U(start.value);
      assert s.contents == EncU(start.value);
      EmitRaw(out, 8, s);
    } else {
      assert StartSection(start) == [];
    }
  }

  // A counted section, skipped when the count is zero.
  method EmitVec(out: WasmBuf, id: byte, count: nat, content: WasmBuf)
    requires out.Valid() && content.Valid() && out != content && out.data != content.data
    modifies out, out.data
    ensures out.Valid() && (out.data == old(out.data) || fresh(out.data))
    ensures out.contents ==
            old(out.contents) + if count == 0 then [] else Section(id, EncU(count) + content.contents)
  {
    if count == 0 {
      return;
    }
    var bytes := content.data[..content.len];
    var s := new WasmBuf();
    s.U(count);
    assert s.contents == EncU(count);
    s.Bytes(bytes);
    assert out.contents == old(out.contents);
    EmitRaw(out, id, s);
  }

  // ---- runs of builder calls ----

  datatype BuilderCall =
    | AddType(t: FuncType)
    | AddImport(field: seq<byte>, typeIdx: nat)
    | SetMemory(pages: nat)
    | AddGlobal(g: Global)
    | AddFunc(ftype: nat)
    | AddCode(c: Code)
    | AddExport(e: Export)
    | SetStart(f: nat)
    | AddData(d: Data)

  // What one builder call does to the module, as the methods above promise it.
  function Apply(m: Module, call: BuilderCall): Module {
    match call
    case AddType(t) => m.(types := m.types + [t])
    case AddImport(field, ti) => m.(imports := m.imports + [Import(ENV, field, ti)])
    case SetMemory(p) => m.(memory := Some(p))
    case AddGlobal(g) => m.(globals := m.globals + [g])
    case AddFunc(t) => m.(funcs := m.funcs + [t])
    case AddCode(c) => m.(codes := m.codes + [c])
    case AddExport(e) => m.(exports := m.exports + [e])
    case SetStart(f) => m.(start := Some(f))
    case AddData(d) => m.(datas := m.datas + [d])
  }

  // The index the call returns (0 for calls that return nothing).
  function Returned(m: Module, call: BuilderCall): nat {
    match call
    case AddType(_) => |m.types|
    case AddImport(_, _) => |m.imports|
    case AddGlobal(_) => |m.globals|
    case AddFunc(_) => |m.imports| + |m.funcs|
    case _ => 0
  }

  function Build(m: Module, calls: seq<BuilderCall>): Module
    decreases |calls|
  {
    if calls == [] then m else Build(Apply(m, calls[0]), calls[1..])
  }

  // The function index space of section 2.5.1: imports first, then the module's own functions.
  function FuncSpace(m: Module): seq<nat> {
    ImportTypes(m.imports) + m.funcs
  }

  function ImportTypes(imports: seq<Import>): (r: seq<nat>)
    ensures |r| == |imports|
  {
    seq(|imports|, i requires 0 <= i < |imports| => imports[i].typeIdx)
  }

  lemma {:induction false} ImportsFixed(m: Module, calls: seq<BuilderCall>)
    requires forall c <- calls :: !c.AddImport?
    ensures Build(m, calls).imports == m.imports
    ensures m.types <= Build(m, calls).types && m.funcs <= Build(m, calls).funcs
    ensures m.globals <= Build(m, calls).globals
    decreases |calls|
  {
    if calls != [] {
      ImportsFixed(Apply(m, calls[0]), calls[1..]);
    }
  }

  lemma {:induction false} OnlyGrows(m: Module, calls: seq<BuilderCall>)
    ensures m.imports <= Build(m, calls).imports && m.types <= Build(m, calls).types
    ensures m.globals <= Build(m, calls).globals && m.funcs <= Build(m, calls).funcs
    decreases |calls|
  {
    if calls != [] {
      OnlyGrows(Apply(m, calls[0]), calls[1..]);
    }
  }

  // Every index a call returned names, in the finished module, the very item that call added; for a defined
  // function this holds exactly when no import is added after it.
  lemma ReturnedIndicesStayRight(m: Module, call: BuilderCall, later: seq<BuilderCall>)
    ensures var final := Build(Apply(m, call), later);
            var k := Returned(m, call);
            match call
            case AddType(t) => k < |final.types| && final.types[k] == t
            case AddGlobal(g) => k < |final.globals| && final.globals[k] == g
            case AddImport(field, ti) => k < |final.imports| && FuncSpace(final)[k] == ti
            case AddFunc(t) =>
              (forall c <- later :: !c.AddImport?) ==> k < |FuncSpace(final)| && FuncSpace(final)[k] == t
            case _ => true
  {
    var m' := Apply(m, call);
    OnlyGrows(m', later);
    if call.AddFunc? && forall c <- later :: !c.AddImport? {
      ImportsFixed(m', later);
    }
  }

  // The index a defined function was given is its index in the finished module if and only if no import is added
  // after it: each later import moves it up by one.
  lemma FunctionIndexExact(m: Module, t: nat, later: seq<BuilderCall>)
    ensures var final := Build(Apply(m, AddFunc(t)), later);
            && |m.funcs| < |final.funcs| && FuncSpace(final)[|final.imports| + |m.funcs|] == t
            && (Returned(m, AddFunc(t)) == |final.imports| + |m.funcs| <==> (forall i :: 0 <= i < |later| ==> !later[i].AddImport?))
  {
    var m' := Apply(m, AddFunc(t));
    OnlyGrows(m', later);
    ImportsExact(m', later);
  }

  lemma {:induction false} ImportsExact(m: Module, calls: seq<BuilderCall>)
    ensures |Build(m, calls).imports| == |m.imports| <==> (forall i :: 0 <= i < |calls| ==> !calls[i].AddImport?)
    decreases |calls|
  {
    if calls != [] {
      var m' := Apply(m, calls[0]);
      OnlyGrows(m', calls[1..]);
      ImportsExact(m', calls[1..]);
      assert forall i :: 0 < i < |calls| ==> calls[i] == calls[1..][i - 1];
    }
  }
}

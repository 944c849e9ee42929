// The main theorem for the wasm backend: whoever parses the generated bytes, validates the start function and runs
// it on freshly instantiated memory sees exactly the host calls the program means.
module WasmEndToEnd {
  import opened Bytes
  import opened Leb128
  import opened WasmInstr
  import opened Values
  import opened Hir
  import opened WasmGen
  import opened HirSem
  import opened Fragment
  import opened WasmTables
  import opened WasmExec
  import opened WasmExprSim
  import opened WasmMemSim
  import opened WasmTyping
  import opened WasmValid
  import opened WasmProgram
  import opened WasmRoundTrip
  import B = WasmBinary

  // ---- loading a module ----

  function Zeros(n: nat): (m: Mem)
    ensures |m| == n
  {
    seq(n, i => 0)
  }

  // Active segments are copied into memory in order.
  function LoadSegments(mem: Mem, datas: seq<B.Data>): Option<Mem>
    decreases |datas|
  {
    if datas == [] then Some(mem)
    else if InMem(mem, datas[0].offset, |datas[0].bytes|)
    then LoadSegments(Write(mem, datas[0].offset, datas[0].bytes), datas[1..]) else None
  }

  const PAGE: nat := 65536

  // The names a host looks for, in UTF-8: env, arche_print, arche_printf, _start, memory.
  const ENV: seq<byte> := [0x65, 0x6e, 0x76]
  const PRINT: seq<byte> := [0x61, 0x72, 0x63, 0x68, 0x65, 0x5f, 0x70, 0x72, 0x69, 0x6e, 0x74]
  const PRINTF: seq<byte> := [0x61, 0x72, 0x63, 0x68, 0x65, 0x5f, 0x70, 0x72, 0x69, 0x6e, 0x74, 0x66]
  const ENTRY: seq<byte> := [0x5f, 0x73, 0x74, 0x61, 0x72, 0x74]
  const MEMORY: seq<byte> := [0x6d, 0x65, 0x6d, 0x6f, 0x72, 0x79]

  function FindImport(imps: seq<B.Import>, field: seq<byte>): Option<nat> {
    if imps == [] then None else if imps[0].mod == ENV && imps[0].field == field then Some(0)
    else match FindImport(imps[1..], field) case None => None case Some(k) => Some(k + 1)
  }

  // The index of the exported function of that name.
  function FindExport(es: seq<B.Export>, name: seq<byte>): Option<nat> {
    if es == [] then None else if es[0].kind == 0 && es[0].name == name then Some(es[0].idx) else FindExport(es[1..], name)
  }

  function ZeroOfType(t: byte): Val { if t == 0x7c then VF(ZERO_BITS) else VI(0) }

  function Repeat<T>(n: nat, x: T): seq<T> { seq(n, i => x) }

  // The locals of a function, all zero.
  function ZeroLocals(groups: seq<(nat, byte)>): seq<Val> {
    if groups == [] then [] else Repeat(groups[0].0, ZeroOfType(groups[0].1)) + ZeroLocals(groups[1..])
  }

  function ValTypeOf(t: byte): ValType { if t == 0x7c then F64 else I32 }

  function LocalTypes(groups: seq<(nat, byte)>): seq<ValType> {
    if groups == [] then [] else Repeat(groups[0].0, ValTypeOf(groups[0].1)) + LocalTypes(groups[1..])
  }

  function ParamTypes(ps: seq<byte>): seq<ValType> { seq(|ps|, i requires 0 <= i < |ps| => ValTypeOf(ps[i])) }

  // Parameter types of the imported functions.
  function ImportTypes(types: seq<B.FuncType>, imps: seq<B.Import>): seq<seq<ValType>> {
    seq(|imps|, i requires 0 <= i < |imps| => if imps[i].typeIdx < |types| then ParamTypes(types[imps[i].typeIdx].params) else [])
  }

  // An i32 or an f64.
  predicate Known(t: byte) { t == 0x7f || t == 0x7c }

  // The start function takes and returns nothing, the imported ones return nothing, the types are ones the machine has,
  // and the host can see the memory.
  predicate Linked(m: B.Module, start: nat) {
    && |m.imports| <= start
    && (var f := start - |m.imports|;
        && f < |m.codes| && f < |m.funcs| && m.funcs[f] < |m.types| && m.types[m.funcs[f]] == B.FuncType([], [])
        && (forall i :: 0 <= i < |m.codes[f].locals| ==> Known(m.codes[f].locals[i].1)))
    && (forall i :: 0 <= i < |m.imports| ==>
          && m.imports[i].typeIdx < |m.types| && m.types[m.imports[i].typeIdx].results == []
          && forall j :: 0 <= j < |m.types[m.imports[i].typeIdx].params| ==> Known(m.types[m.imports[i].typeIdx].params[j]))
    && m.memory.Some? && exists i :: 0 <= i < |m.exports| && m.exports[i] == B.Export(MEMORY, 2, 0)
  }

  datatype Loaded = Loaded(machine: Machine, sig: Sig, code: seq<Instr>, start: Cfg)

  // Parse, find the host functions and the start function, parse its body, instantiate memory and locals.
  function LoadModule(h: Host, bytes: seq<byte>): Option<Loaded> {
    match B.Decode(bytes)
    case None => None
    case Some(m) =>
    match (FindImport(m.imports, PRINT), FindImport(m.imports, PRINTF), FindExport(m.exports, ENTRY))
    case (Some(p), Some(pf), Some(s)) =>
      if !Linked(m, s) then None
      else
        var c := m.codes[s - |m.imports|];
        (match (DecSeq(c.body), LoadSegments(Zeros(m.memory.value * PAGE), m.datas))
         case (Some(q), Some(mem)) =>
           if q.1 != 0x0b || q.2 != [] then None
           else Some(Loaded(Machine(h, p, pf), Sig(LocalTypes(c.locals), ImportTypes(m.types, m.imports)), q.0,
                            Cfg(ZeroLocals(c.locals), mem, [])))
         case _ => None)
    case _ => None
  }

  // ---- sizes ----

  lemma Short(v: nat)
    requires v < 128
    ensures EncU(v) == [v]
  {
  }

  lemma AtMostFive(v: nat)
    requires v < U32_LIMIT
    ensures |EncU(v)| <= 5
  {
    Pow2Widths();
    UnsignedLength(v, 32);
  }

  lemma {:induction false} GroupsSize(locals: seq<Local>)
    ensures |B.EncAll(B.EncLocal, LocalGroups(locals))| == 2 * |locals|
    decreases |locals|
  {
    if locals != [] {
      assert LocalGroups(locals)[1..] == LocalGroups(locals[1..]);
      assert LocalGroups(locals)[0] == (1, TypeByte(locals[0].wt));
      Short(1);
      GroupsSize(locals[1..]);
      assert B.EncLocal(LocalGroups(locals)[0]) == [1, TypeByte(locals[0].wt)];
    }
  }

  const BODY_LIMIT: nat := 0x7fff_0000

  lemma OneInAll<T>(enc: T -> seq<byte>, x: T)
    ensures B.EncAll(enc, [x]) == enc(x)
  {
    assert [x][1..] == [];
    assert B.EncAll(enc, []) == [];
  }

  lemma CodesFit(o: Out)
    requires Fragment.Fits(o.g) && |EncSeq(o.code)| < BODY_LIMIT
    ensures var codes := ModuleFor(o).codes;
            (forall c <- codes :: CodeFits(c)) && SectionFits(B.EncCode, codes)
  {
    hide EncSeq;
    var c := ModuleFor(o).codes[0];
    var groups := LocalGroups(o.g.locals);
    GroupsSize(o.g.locals);
    AtMostFive(|groups|);
    var entry := EncU(|c.locals|) + B.EncAll(B.EncLocal, c.locals) + c.body;
    assert forall l <- c.locals :: LocalFits(l);
    AtMostFive(|entry|);
    OneInAll(B.EncCode, c);
    Short(1);
  }

  lemma DataFitsIn(o: Out)
    requires Fragment.Fits(o.g)
    ensures var datas := ModuleFor(o).datas;
            (forall d <- datas :: DataFits(d)) && SectionFits(B.EncData, datas)
  {
    hide EncSeq;
    if o.g.strings != [] {
      var d := ModuleFor(o).datas[0];
      AtMostFive(|d.bytes|);
      Pow2Widths();
      SignedLength(STRINGS_BASE, 32);
      OneInAll(B.EncData, d);
      Short(1);
    } else {
      Short(0);
    }
  }

  lemma NameSize(s: seq<byte>)
    requires |s| < 128
    ensures |B.EncName(s)| == 1 + |s|
  {
    Short(|s|);
  }

  lemma SmallSections(o: Out)
    ensures var m := ModuleFor(o);
            && (forall t <- m.types :: TypeFits(t)) && SectionFits(B.EncType, m.types)
            && (forall i <- m.imports :: ImportFits(i)) && SectionFits(B.EncImport, m.imports)
  {
    hide EncSeq, LocalGroups, B.EncName;
    var m := ModuleFor(o);
    Short(0);
    Short(1);
    Short(2);
    Short(3);
    forall t <- m.types
      ensures TypeFits(t) && |B.EncType(t)| <= 7
    {
      NameSize(t.params);
      NameSize(t.results);
    }
    ThreeInAll(B.EncType, m.types);
    forall i <- m.imports
      ensures ImportFits(i) && |B.EncImport(i)| <= 20
    {
      NameSize(i.mod);
      NameSize(i.field);
    }
    TwoInAll(B.EncImport, m.imports);
  }

  lemma OtherSections(o: Out)
    ensures var m := ModuleFor(o);
            && (forall f <- m.funcs :: FitsU(f)) && SectionFits(B.EncIndex, m.funcs)
            && SectionFits(B.EncGlobal, m.globals)
            && (forall e <- m.exports :: ExportFits(e)) && SectionFits(B.EncExport, m.exports)
  {
    hide EncSeq, LocalGroups, B.EncName;
    var m := ModuleFor(o);
    Short(0);
    Short(1);
    Short(2);
    OneInAll(B.EncIndex, 2);
    assert B.EncIndex(2) == [2];
    forall e <- m.exports
      ensures ExportFits(e) && |B.EncExport(e)| <= 10
    {
      NameSize(e.name);
    }
    TwoInAll(B.EncExport, m.exports);
  }

  lemma TwoInAll<T>(enc: T -> seq<byte>, xs: seq<T>)
    requires |xs| == 2
    ensures B.EncAll(enc, xs) == enc(xs[0]) + enc(xs[1])
  {
    assert xs[1..] == [xs[1]];
    OneInAll(enc, xs[1]);
  }

  lemma ThreeInAll<T>(enc: T -> seq<byte>, xs: seq<T>)
    requires |xs| == 3
    ensures B.EncAll(enc, xs) == enc(xs[0]) + (enc(xs[1]) + enc(xs[2]))
  {
    assert xs[1..][0] == xs[1] && xs[1..][1] == xs[2];
    TwoInAll(enc, xs[1..]);
  }

  lemma ModuleFits(o: Out)
    requires Fragment.Fits(o.g) && |EncSeq(o.code)| < BODY_LIMIT
    ensures WasmRoundTrip.Fits(ModuleFor(o))
  {
    hide SectionFits, EncSeq;
    SmallSections(o);
    OtherSections(o);
    CodesFit(o);
    DataFitsIn(o);
  }

  // ---- instantiation ----

  lemma {:induction false} LocalsAre(locals: seq<Local>)
    ensures |ZeroLocals(LocalGroups(locals))| == |locals| && |LocalTypes(LocalGroups(locals))| == |locals|
    ensures forall k :: 0 <= k < |locals| ==>
              && LocalTypes(LocalGroups(locals))[k] == locals[k].wt
              && IsOf(ZeroLocals(LocalGroups(locals))[k], locals[k].wt)
    decreases |locals|
  {
    if locals != [] {
      assert LocalGroups(locals)[1..] == LocalGroups(locals[1..]);
      assert LocalGroups(locals)[0] == (1, TypeByte(locals[0].wt));
      LocalsAre(locals[1..]);
      assert forall k :: 1 <= k < |locals| ==> locals[k] == locals[1..][k - 1];
    }
  }

  lemma Names()
    ensures Ascii("arche_print") == PRINT && Ascii("arche_printf") == PRINTF && Ascii("_start") == ENTRY && Ascii("memory") == MEMORY
  {
  }

  lemma Lookups(o: Out)
    ensures var m := ModuleFor(o);
            && FindImport(m.imports, PRINT) == Some(0) && FindImport(m.imports, PRINTF) == Some(1)
            && FindExport(m.exports, ENTRY) == Some(2)
            && ImportTypes(m.types, m.imports) == [[I32, I32], [I32, I32, I32, I32]]
  {
    hide EncSeq, LocalGroups, Ascii;
    var m := ModuleFor(o);
    Names();
    assert m.imports[1..] == [m.imports[1]];
    assert m.exports[1..] == [m.exports[1]];
    assert ParamTypes(m.types[0].params) == [I32, I32];
    assert ParamTypes(m.types[1].params) == [I32, I32, I32, I32];
  }

  lemma IsLinked(o: Out)
    ensures Linked(ModuleFor(o), 2)
  {
    hide EncSeq, Ascii;
    var m := ModuleFor(o);
    Names();
    assert m.exports[0] == B.Export(MEMORY, 2, 0);
  }

  lemma MemoryReady(o: Out)
    requires Fragment.Fits(o.g)
    ensures var r := LoadSegments(Zeros(4 * PAGE), ModuleFor(o).datas);
            r.Some? && PoolOk(o.g.strings, r.value) && FreeZero(ARRAYS_BASE, r.value)
  {
    hide EncSeq, LocalGroups;
    var datas := ModuleFor(o).datas;
    var mem := Zeros(4 * PAGE);
    if datas != [] {
      assert datas[1..] == [];
      ReadWritten(mem, STRINGS_BASE, o.g.strings);
    }
  }

  // The machine starts in the state that corresponds to the program's beginning.
  lemma BeginRel(env: Env, depth: nat, types: Types, systems: seq<seq<Stmt>>, frame: seq<Val>, mem: Mem)
    requires OkSystems(env, depth, types, NOTHING, systems).Some? && env.fPrint != env.fPrintf
    requires var gF := SystemsCode(env, depth, START, systems).g;
             Fragment.Fits(gF) && |frame| == |gF.locals| && PoolOk(gF.strings, mem) && FreeZero(ARRAYS_BASE, mem)
    ensures var gF := SystemsCode(env, depth, START, systems).g;
            && CtxOk(env, types, NOTHING, START) && Grows(START, gF) && LayoutOk(gF)
            && Rel(env, Machine(env.host, env.fPrint, env.fPrintf), types, NOTHING, START, gF, BEGIN, Cfg(frame, mem, []))
  {
    SystemsKeepCtx(env, depth, types, NOTHING, START, systems);
    SystemsGrow(env, depth, START, systems);
  }

  // What loading the generated bytes yields.
  lemma Loads(h: Host, o: Out)
    requires Fragment.Fits(o.g) && WFSeq(o.code) && |EncSeq(o.code)| < BODY_LIMIT
    ensures var l := LoadModule(h, B.Encode(ModuleFor(o)));
            && l.Some? && l.value.machine == Machine(h, 0, 1) && l.value.code == o.code
            && l.value.sig == Sig(LocalTypes(LocalGroups(o.g.locals)), [[I32, I32], [I32, I32, I32, I32]])
            && l.value.start.locals == ZeroLocals(LocalGroups(o.g.locals)) && l.value.start.trace == []
            && PoolOk(o.g.strings, l.value.start.mem) && FreeZero(ARRAYS_BASE, l.value.start.mem)
  {
    hide Ascii, LocalGroups, EncSeq, DecSeq, PoolOk, FreeZero, Zeros, FindImport, FindExport, ImportTypes, LoadSegments, Linked;
    var m := ModuleFor(o);
    ModuleFits(o);
    ModuleRoundTrip(m);
    Lookups(o);
    IsLinked(o);
    MemoryReady(o);
    assert m.memory == Some(4);
    SeqRoundTrip(o.code, 0x0b, []);
    assert EncSeq(o.code) + [0x0b] + [] == EncSeq(o.code) + [0x0b];
  }

  lemma Sited(env: Env, types: Types, ctx: Ctx, g: Gen, gF: Gen, sig: Sig)
    requires CtxOk(env, types, ctx, g) && Grows(g, gF) && LayoutOk(gF) && Fragment.Fits(gF)
    requires env.fPrint == 0 && env.fPrintf == 1
    requires sig == Sig(LocalTypes(LocalGroups(gF.locals)), [[I32, I32], [I32, I32, I32, I32]])
    ensures Site(env, types, ctx, g, gF, sig)
  {
    LocalsAre(gF.locals);
  }

  // The tables at the end of a supported program whose systems start from nothing.
  lemma BeginSite(env: Env, depth: nat, types: Types, systems: seq<seq<Stmt>>)
    requires OkSystems(env, depth, types, NOTHING, systems).Some? && env.fPrint == 0 && env.fPrintf == 1
    requires Fragment.Fits(SystemsCode(env, depth, START, systems).g)
    ensures var o := SystemsCode(env, depth, START, systems);
            var sig := Sig(LocalTypes(LocalGroups(o.g.locals)), [[I32, I32], [I32, I32, I32, I32]]);
            Site(env, types, NOTHING, START, o.g, sig)
  {
    var gF := SystemsCode(env, depth, START, systems).g;
    SystemsKeepCtx(env, depth, types, NOTHING, START, systems);
    SystemsGrow(env, depth, START, systems);
    Sited(env, types, NOTHING, START, gF, Sig(LocalTypes(LocalGroups(gF.locals)), [[I32, I32], [I32, I32, I32, I32]]));
  }

  // A program the backend supports: its systems check, its tables fit the memory map, its body the format.
  ghost predicate Supported(h: Host, depth: nat, types: Types, decls: seq<Decl>) {
    var o := SystemsCode(ProgramEnv(h, decls), depth, START, Systems(decls));
    && OkSystems(ProgramEnv(h, decls), depth, types, NOTHING, Systems(decls)).Some?
    && Fragment.Fits(o.g) && |EncSeq(o.code)| < BODY_LIMIT
  }

  // The host calls a run of the program makes, and how it ends.
  predicate Agrees(r: Res, er: ExecRes) {
    match er
    case Done(st) => r.Next? && r.stack == [] && r.c.trace == st.trace
    case Abort(trace) => r == Trapped(trace)
    case Timeout => r == OutOfFuel
    case Wild => true
  }

  // For every supported program: the generated bytes parse and load, the start function validates, and running it
  // makes exactly the host calls the program means, ends where it ends, traps where it aborts, and never gets stuck.
  lemma GeneratedCodeIsCorrect(h: Host, depth: nat, types: Types, decls: seq<Decl>, fuel: nat)
    requires Supported(h, depth, types, decls)
    ensures var l := LoadModule(h, B.Encode(ModuleOf(h, depth, decls)));
            && l.Some? && CheckBody(l.value.sig, 1, l.value.code)
            && (var r := ExecSeq(l.value.machine, l.value.code, [], l.value.start, fuel);
                && Agrees(r, RunSystems(ProgramEnv(h, decls), depth, BEGIN, Systems(decls), fuel))
                && r != Stuck && !r.Branch?)
  {
    hide SystemsCode, Systems, RunSystems, Takes, Site, Rel, LoadModule, CheckSeq, WFSeq, CtxOk, LayoutOk, HostSig, LocalGroups, LocalTypes, ZeroLocals, AllOf;
    var env := ProgramEnv(h, decls);
    var o := SystemsCode(env, depth, START, Systems(decls));
    BeginSite(env, depth, types, Systems(decls));
    var sig := Sig(LocalTypes(LocalGroups(o.g.locals)), [[I32, I32], [I32, I32, I32, I32]]);
    var none := VStack([], false);
    GrowsSelf(o.g);
    SystemsTake(env, depth, types, NOTHING, START, o.g, sig, 1, none, Systems(decls));
    SystemsTake(env, depth, types, NOTHING, START, o.g, sig, 0, none, Systems(decls));
    assert WFSeq(o.code) && CheckBody(sig, 1, o.code) by { TakesMeans(sig, 1, o.code); }
    Loads(h, o);
    var l := LoadModule(h, B.Encode(ModuleFor(o))).value;
    LocalsAre(o.g.locals);
    BeginRel(env, depth, types, Systems(decls), l.start.locals, l.start.mem);
    SystemsRun(env, l.machine, depth, types, NOTHING, START, o.g, BEGIN, l.start, Systems(decls), fuel);
    Simulated(env, l.machine, types, OkSystems(env, depth, types, NOTHING, Systems(decls)).value, o.g, o.g,
              ExecSeq(l.machine, o.code, [], l.start, fuel), RunSystems(env, depth, BEGIN, Systems(decls), fuel));
    NeverStuck(l.machine, sig, o.g.locals, o.code, l.start, fuel);
  }

  lemma GrowsSelf(g: Gen)
    ensures Grows(g, g)
  {
  }

  lemma TakesMeans(sig: Sig, labels: nat, code: seq<Instr>)
    requires Takes(sig, labels, VStack([], false), code, VStack([], false))
    ensures WFSeq(code) && CheckBody(sig, labels, code)
  {
  }

  lemma Simulated(env: Env, m: Machine, types: Types, ctx: Ctx, g: Gen, gF: Gen, r: Res, er: ExecRes)
    requires Sim(env, m, types, ctx, g, gF, r, er)
    ensures Agrees(r, er)
  {
  }

  lemma NeverStuck(m: Machine, sig: Sig, locals: seq<Local>, code: seq<Instr>, c: Cfg, fuel: nat)
    requires m.fPrint == 0 && m.fPrintf == 1
    requires sig == Sig(LocalTypes(LocalGroups(locals)), [[I32, I32], [I32, I32, I32, I32]])
    requires c.locals == ZeroLocals(LocalGroups(locals)) && Takes(sig, 0, VStack([], false), code, VStack([], false))
    ensures ExecSeq(m, code, [], c, fuel) != Stuck && !ExecSeq(m, code, [], c, fuel).Branch?
  {
    hide ExecSeq, CheckSeq;
    LocalsAre(locals);
    SeqSound(m, sig, 0, VStack([], false), code, [], c, fuel);
  }
}

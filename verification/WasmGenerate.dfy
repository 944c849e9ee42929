// Generation of a program's module, from the first memory declaration to the finished bytes.
module WasmGenerate {
  import opened Bytes
  import opened WasmInstr
  import opened Values
  import opened Hir
  import opened WasmGen
  import opened WasmBuffer
  import opened WasmBuilder
  import opened WasmEmitter
  import opened WasmProgram
  import opened Fragment
  import B = WasmBinary

  // Whether a run declaration occurs, and the first constants, in one pass over the declarations.
  method Scan(decls: seq<Decl>) returns (hasRun: bool, consts: Consts)
    ensures hasRun == HasRun(decls) && consts == ConstsOf(decls, MAX_CONSTS)
  {
    hasRun, consts := false, [];
    for i := 0 to |decls|
      invariant hasRun <==> exists k :: 0 <= k < i && decls[k].RunDecl?
      invariant |consts| <= MAX_CONSTS
      invariant ConstsOf(decls, MAX_CONSTS) == consts + ConstsOf(decls[i..], MAX_CONSTS - |consts|)
    {
      assert decls[i..][0] == decls[i] && decls[i..][1..] == decls[i + 1..];
      ghost var rest := ConstsOf(decls[i..], MAX_CONSTS - |consts|);
      if decls[i].RunDecl? {
        hasRun := true;
      }
      if decls[i].ConstDecl? && decls[i].cvalue.Some? && |consts| < MAX_CONSTS {
        ghost var tail := ConstsOf(decls[i + 1..], MAX_CONSTS - |consts| - 1);
        assert rest == [(decls[i].cname, decls[i].cvalue.value)] + tail;
        assert consts + rest == consts + [(decls[i].cname, decls[i].cvalue.value)] + tail;
        consts := consts + [(decls[i].cname, decls[i].cvalue.value)];
      } else {
        assert rest == ConstsOf(decls[i + 1..], MAX_CONSTS - |consts|);
      }
    }
    assert decls[|decls|..] == [];
  }

  lemma RunOnceSnoc(decls: seq<Decl>, i: nat)
    requires i < |decls|
    ensures RunOnce(decls[..i + 1]) ==
            RunOnce(decls[..i]) + (if decls[i].SystemDecl? && decls[i].runOnce then [decls[i].stmts] else [])
  {
    RunOnceAppend(decls[..i], decls[i]);
    assert decls[..i] + [decls[i]] == decls[..i + 1];
  }

  lemma {:induction false} RunOnceAppend(ds: seq<Decl>, d: Decl)
    ensures RunOnce(ds + [d]) == RunOnce(ds) + (if d.SystemDecl? && d.runOnce then [d.stmts] else [])
    decreases |ds|
  {
    if ds == [] {
      assert ds + [d] == [d] && [d][1..] == [];
    } else {
      assert (ds + [d])[1..] == ds[1..] + [d];
      RunOnceAppend(ds[1..], d);
    }
  }

  // The statements of every run-once system in turn.
  method EmitSystems(g: Wg, depth: nat, decls: seq<Decl>)
    requires g.Valid()
    modifies g, g.body, g.body.data, g.strings, g.strings.data
    ensures g.Valid() && (g.body.data == old(g.body.data) || fresh(g.body.data))
    ensures g.strings.data == old(g.strings.data) || fresh(g.strings.data)
    ensures var o := SystemsCode(g.env, depth, old(g.Tables()), RunOnce(decls));
            g.Tables() == o.g && Emits(old(g.body.contents), g.body.contents, o.code)
  {
    hide Emits, StmtsCode;
    ghost var b0, g0 := g.body.contents, g.Tables();
    EmitsNone(b0);
    for i := 0 to |decls|
      invariant g.Valid() && (g.body.data == old(g.body.data) || fresh(g.body.data))
      invariant g.strings.data == old(g.strings.data) || fresh(g.strings.data)
      invariant g.Tables() == SystemsCode(g.env, depth, g0, RunOnce(decls[..i])).g
      invariant Emits(b0, g.body.contents, SystemsCode(g.env, depth, g0, RunOnce(decls[..i])).code)
    {
      ghost var done := SystemsCode(g.env, depth, g0, RunOnce(decls[..i]));
      ghost var b1 := g.body.contents;
      RunOnceSnoc(decls, i);
      if decls[i].SystemDecl? && decls[i].runOnce {
        SystemsSnoc(g.env, depth, g0, RunOnce(decls[..i]), decls[i].stmts);
        g.EmitStmts(depth, decls[i].stmts);
        EmitsThen(b0, b1, g.body.contents, done.code, StmtsCode(g.env, depth, done.g, decls[i].stmts).code);
      } else {
        assert RunOnce(decls[..i + 1]) == RunOnce(decls[..i]);
      }
    }
    assert decls[..|decls|] == decls;
  }

  // The body of the start function, its end opcode included, its locals and the string pool.
  method Compile(h: Host, depth: nat, decls: seq<Decl>) returns (locals: seq<Local>, body: seq<byte>, pool: seq<byte>)
    ensures var o := SystemsCode(ProgramEnv(h, decls), depth, START, Systems(decls));
            locals == o.g.locals && pool == o.g.strings && body == EncSeq(o.code) + [0x0b]
  {
    hide StmtsCode;
    var hasRun, consts := Scan(decls);
    var g := new Wg(Env(consts, h, 0, 1));
    if hasRun {
      EmitSystems(g, depth, decls);
    }
    g.body.Byte(0x0b);
    locals, body, pool := g.locals, g.body.data[..g.body.len], g.strings.data[..g.strings.len];
  }

  method Groups(locals: seq<Local>) returns (r: seq<(nat, byte)>)
    ensures r == LocalGroups(locals)
  {
    r := [];
    for i := 0 to |locals|
      invariant r == LocalGroups(locals[..i])
    {
      r := r + [(1, TypeByte(locals[i].wt))];
    }
    assert locals[..|locals|] == locals;
  }

  // An imported host function of integer parameters and no result.
  method HostFunction(m: WasmModule, params: seq<byte>, field: seq<byte>) returns (idx: nat)
    requires m.Valid()
    modifies m, m.types, m.types.data, m.imports, m.imports.data
    ensures m.Valid() && (m.types.data == old(m.types.data) || fresh(m.types.data))
    ensures m.imports.data == old(m.imports.data) || fresh(m.imports.data)
    ensures m.M == WithHost(old(m.M), params, field)
    ensures idx == |old(m.M).imports|
  {
    hide WasmModule.Valid;
    m.ValidDistinct();
    var t := m.Type(params, []);
    idx := m.ImportFunc(field, t);
  }

  method MemoryExport(m: WasmModule)
    requires m.Valid()
    modifies m, m.exports, m.exports.data
    ensures m.Valid() && (m.exports.data == old(m.exports.data) || fresh(m.exports.data))
    ensures m.M == WithMemory(old(m.M))
  {
    hide WasmModule.Valid, Ascii;
    m.Memory(4);
    m.ExportItem(Ascii("memory"), 2, 0);
  }

  // A function without parameters, its body behind its signature.
  method VoidFunction(m: WasmModule, groups: seq<(nat, byte)>, body: seq<byte>) returns (idx: nat)
    requires m.Valid()
    modifies m, m.types, m.types.data, m.funcs, m.funcs.data, m.code, m.code.data
    ensures m.Valid()
    ensures m.M == old(m.M).(types := old(m.M).types + [B.FuncType([], [])],
                             funcs := old(m.M).funcs + [|old(m.M).types|],
                             codes := old(m.M).codes + [B.Code(groups, body)])
    ensures idx == |old(m.M).imports| + |old(m.M).funcs|
  {
    hide WasmModule.Valid;
    m.ValidDistinct();
    var t := m.Type([], []);
    idx := m.Func(t);
    m.Body(groups, body);
  }

  method StartAndPool(m: WasmModule, start: nat, pool: seq<byte>)
    requires m.Valid()
    modifies m, m.exports, m.exports.data, m.data, m.data.data
    ensures m.Valid()
    ensures m.M == old(m.M).(exports := old(m.M).exports + [B.Export(Ascii("_start"), 0, start)],
                             datas := old(m.M).datas + if pool == [] then [] else [B.Data(STRINGS_BASE, pool)])
  {
    hide WasmModule.Valid, Ascii;
    m.ValidDistinct();
    m.ExportItem(Ascii("_start"), 0, start);
    if |pool| != 0 {
      m.Segment(STRINGS_BASE, pool);
    }
  }

  // A module with the start function, its export and the pool added.
  function Finished(m: B.Module, groups: seq<(nat, byte)>, body: seq<byte>, pool: seq<byte>): B.Module {
    m.(types := m.types + [B.FuncType([], [])], funcs := m.funcs + [|m.types|], codes := m.codes + [B.Code(groups, body)],
       exports := m.exports + [B.Export(Ascii("_start"), 0, |m.imports| + |m.funcs|)],
       datas := m.datas + if pool == [] then [] else [B.Data(STRINGS_BASE, pool)])
  }

  function WithHost(m: B.Module, params: seq<byte>, field: seq<byte>): B.Module {
    m.(types := m.types + [B.FuncType(params, [])], imports := m.imports + [B.Import(ENV_NAME, field, |m.types|)])
  }

  function WithMemory(m: B.Module): B.Module {
    m.(memory := Some(4), exports := m.exports + [B.Export(Ascii("memory"), 2, 0)])
  }

  lemma Assembled(o: Out)
    ensures var m1 := WithHost(WithMemory(B.EMPTY), [0x7f, 0x7f], Ascii("arche_print"));
            var m2 := WithHost(m1, [0x7f, 0x7f, 0x7f, 0x7f], Ascii("arche_printf"));
            && |WithMemory(B.EMPTY).imports| == 0 && |m1.imports| == 1
            && ModuleFor(o) == Finished(m2, LocalGroups(o.g.locals), EncSeq(o.code) + [0x0b], o.g.strings)
  {
    hide Ascii, LocalGroups, EncSeq;
    var f := ModuleFor(o);
    assert f.types == [] + [B.FuncType([0x7f, 0x7f], [])] + [B.FuncType([0x7f, 0x7f, 0x7f, 0x7f], [])] + [B.FuncType([], [])];
  }

  // What is written is the binary form of the program's module.
  method Generate(h: Host, depth: nat, decls: seq<Decl>) returns (out: WasmBuf)
    ensures fresh(out) && out.Valid() && out.contents == B.Encode(ModuleOf(h, depth, decls))
  {
    hide SystemsCode, EncSeq, LocalGroups, Systems, ProgramEnv, B.Encode, ModuleFor, Ascii, Finished, WithHost, WithMemory;
    ghost var o := SystemsCode(ProgramEnv(h, decls), depth, START, Systems(decls));
    Assembled(o);
    var locals, body, pool := Compile(h, depth, decls);
    out := Assemble(locals, body, pool);
  }

  method Assemble(locals: seq<Local>, body: seq<byte>, pool: seq<byte>) returns (out: WasmBuf)
    ensures fresh(out) && out.Valid()
    ensures var m1 := WithHost(WithMemory(B.EMPTY), [0x7f, 0x7f], Ascii("arche_print"));
            var m2 := WithHost(m1, [0x7f, 0x7f, 0x7f, 0x7f], Ascii("arche_printf"));
            out.contents == B.Encode(Finished(m2, LocalGroups(locals), body, pool))
  {
    hide LocalGroups, B.Encode, Ascii, Finished, WithHost, WithMemory;
    hide WasmModule.Valid;
    var m := new WasmModule();
    m.ValidDistinct();
    MemoryExport(m);
    var fPrint := HostFunction(m, [0x7f, 0x7f], Ascii("arche_print"));
    var fPrintf := HostFunction(m, [0x7f, 0x7f, 0x7f, 0x7f], Ascii("arche_printf"));
    out := Serialise(m, locals, body, pool);
  }

  method Serialise(m: WasmModule, locals: seq<Local>, body: seq<byte>, pool: seq<byte>) returns (out: WasmBuf)
    requires m.Valid()
    modifies m, m.types, m.types.data, m.funcs, m.funcs.data, m.code, m.code.data, m.exports, m.exports.data, m.data, m.data.data
    ensures fresh(out) && out.Valid()
    ensures out.contents == B.Encode(Finished(old(m.M), LocalGroups(locals), body, pool))
  {
    hide LocalGroups, B.Encode, Ascii, WasmModule.Valid;
    m.ValidDistinct();
    var groups := Groups(locals);
    var start := VoidFunction(m, groups, body);
    StartAndPool(m, start, pool);
    out := m.Finish();
  }
}

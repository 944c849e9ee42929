// A whole program: its constants and run-once systems, what running them means, and the module generated for them.
module WasmProgram {
  import opened Bytes
  import opened WasmInstr
  import opened Values
  import opened Hir
  import opened WasmGen
  import opened HirSem
  import opened Fragment
  import opened WasmTables
  import opened WasmExec
  import opened WasmExprSim
  import opened WasmMemSim
  import opened WasmCtrlSim
  import opened WasmTyping
  import opened WasmValid
  import B = WasmBinary

  // Declarations the backend looks at; a system is run once if it has no parameters.
  datatype Decl =
    | RunDecl
    | ConstDecl(cname: string, cvalue: Option<Expr>)
    | SystemDecl(runOnce: bool, stmts: seq<Stmt>)
    | OtherDecl

  const MAX_CONSTS: nat := 256

  // The first constants with a value, as many as there is room for.
  function ConstsOf(decls: seq<Decl>, room: nat): Consts {
    if decls == [] || room == 0 then []
    else match decls[0]
      case ConstDecl(n, Some(v)) => [(n, v)] + ConstsOf(decls[1..], room - 1)
      case _ => ConstsOf(decls[1..], room)
  }

  predicate HasRun(decls: seq<Decl>) { exists i :: 0 <= i < |decls| && decls[i].RunDecl? }

  function RunOnce(decls: seq<Decl>): seq<seq<Stmt>> {
    if decls == [] then []
    else (if decls[0].SystemDecl? && decls[0].runOnce then [decls[0].stmts] else []) + RunOnce(decls[1..])
  }

  // The systems that run, in the order of their declaration; without a run declaration there are none.
  function Systems(decls: seq<Decl>): seq<seq<Stmt>> { if HasRun(decls) then RunOnce(decls) else [] }

  function ProgramEnv(h: Host, decls: seq<Decl>): Env { Env(ConstsOf(decls, MAX_CONSTS), h, 0, 1) }

  // ---- which declarations count ----

  predicate IsSystem(d: Decl) { d.SystemDecl? && d.runOnce }
  predicate IsConst(d: Decl) { d.ConstDecl? && d.cvalue.Some? }

  // How many of the first i declarations are such.
  function CountOf(p: Decl -> bool, decls: seq<Decl>, i: nat): nat
    requires i <= |decls|
  {
    if i == 0 then 0 else CountOf(p, decls, i - 1) + if p(decls[i - 1]) then 1 else 0
  }

  lemma {:induction false} CountFirst(p: Decl -> bool, decls: seq<Decl>, i: nat)
    requires 0 < i <= |decls|
    ensures CountOf(p, decls, i) == (if p(decls[0]) then 1 else 0) + CountOf(p, decls[1..], i - 1)
    decreases i
  {
    if i > 1 {
      CountFirst(p, decls, i - 1);
      assert decls[1..][i - 2] == decls[i - 1];
    }
  }

  lemma {:induction false} RunOnceAt(decls: seq<Decl>, i: nat)
    requires i <= |decls|
    ensures |RunOnce(decls)| == CountOf(IsSystem, decls, |decls|)
    ensures i < |decls| && IsSystem(decls[i]) ==>
              CountOf(IsSystem, decls, i) < |RunOnce(decls)| && RunOnce(decls)[CountOf(IsSystem, decls, i)] == decls[i].stmts
    decreases |decls|
  {
    if decls != [] {
      CountFirst(IsSystem, decls, |decls|);
      RunOnceAt(decls[1..], if i > 0 then i - 1 else 0);
      if i > 0 {
        CountFirst(IsSystem, decls, i);
        assert i < |decls| ==> decls[1..][i - 1] == decls[i];
      }
    }
  }

  // For every program: if a run declaration occurs in it, the systems that run are all its run-once systems, each at the
  // place given by how many come before it; otherwise there are none.
  lemma SystemsExact(decls: seq<Decl>, i: nat)
    requires i < |decls|
    ensures |Systems(decls)| == if exists r :: 0 <= r < |decls| && decls[r].RunDecl? then CountOf(IsSystem, decls, |decls|) else 0
    ensures (exists r :: 0 <= r < |decls| && decls[r].RunDecl?) && decls[i].SystemDecl? && decls[i].runOnce ==>
              CountOf(IsSystem, decls, i) < |Systems(decls)| && Systems(decls)[CountOf(IsSystem, decls, i)] == decls[i].stmts
  {
    RunOnceAt(decls, i);
  }

  lemma {:induction false} ConstsAt(decls: seq<Decl>, room: nat, i: nat)
    requires i <= |decls|
    ensures var n := CountOf(IsConst, decls, |decls|); |ConstsOf(decls, room)| == if n < room then n else room
    ensures i < |decls| && IsConst(decls[i]) && CountOf(IsConst, decls, i) < room ==>
              && CountOf(IsConst, decls, i) < |ConstsOf(decls, room)|
              && ConstsOf(decls, room)[CountOf(IsConst, decls, i)] == (decls[i].cname, decls[i].cvalue.value)
    decreases |decls|
  {
    if decls != [] && room > 0 {
      CountFirst(IsConst, decls, |decls|);
      ConstsAt(decls[1..], if IsConst(decls[0]) then room - 1 else room, if i > 0 then i - 1 else 0);
      if i > 0 {
        CountFirst(IsConst, decls, i);
        assert i < |decls| ==> decls[1..][i - 1] == decls[i];
      }
    }
  }

  // For every program: the constants known are its constants with a value, the first 256 of them, each at the place given by
  // how many come before it.
  lemma ConstsExact(h: Host, decls: seq<Decl>, i: nat)
    requires i < |decls|
    ensures var n, cs := CountOf(IsConst, decls, |decls|), ProgramEnv(h, decls).consts; |cs| == if n < 256 then n else 256
    ensures var j, cs := CountOf(IsConst, decls, i), ProgramEnv(h, decls).consts;
            decls[i].ConstDecl? && decls[i].cvalue.Some? && j < 256 ==> j < |cs| && cs[j] == (decls[i].cname, decls[i].cvalue.value)
  {
    ConstsAt(decls, MAX_CONSTS, i);
  }

  // A name means the first of them that has it.
  lemma {:induction false} FirstConst(cs: Consts, name: string)
    ensures match FindConst(cs, name)
            case None => forall j :: 0 <= j < |cs| ==> cs[j].0 != name
            case Some(v) => exists j :: 0 <= j < |cs| && cs[j] == (name, v) && forall i :: 0 <= i < j ==> cs[i].0 != name
    decreases |cs|
  {
    if cs != [] {
      if cs[0].0 == name {
        assert cs[0] == (name, FindConst(cs, name).value);
      } else {
        FirstConst(cs[1..], name);
        var r := FindConst(cs, name);
        if r.Some? {
          var j :| 0 <= j < |cs[1..]| && cs[1..][j] == (name, r.value) && forall i :: 0 <= i < j ==> cs[1..][i].0 != name;
          assert cs[j + 1] == (name, r.value);
          assert forall i :: 1 <= i < j + 1 ==> cs[i] == cs[1..][i - 1];
        }
      }
    }
  }

  // ---- meaning ----

  const BEGIN: State := State(map[], map[], [])

  // The systems run one after the other, each in a scope of its own.
  function RunSystems(env: Env, depth: nat, st: State, systems: seq<seq<Stmt>>, fuel: nat): ExecRes
    decreases |systems|
  {
    if systems == [] then Done(st)
    else match LeaveRes(st, ExecAll(env, depth, st, systems[0], fuel))
      case Done(st') => RunSystems(env, depth, st', systems[1..], fuel)
      case r => r
  }

  function OkSystems(env: Env, depth: nat, types: Types, ctx: Ctx, systems: seq<seq<Stmt>>): Option<Ctx>
    decreases |systems|
  {
    if systems == [] then Some(ctx)
    else match OkStmts(env, depth, types, ctx, false, systems[0])
      case None => None
      case Some(c) => OkSystems(env, depth, types, Ctx(ctx.vars, ctx.arrs, c.seen), systems[1..])
  }

  // ---- code ----

  function SystemsCode(env: Env, depth: nat, g: Gen, systems: seq<seq<Stmt>>): Out
    decreases |systems|
  {
    if systems == [] then Out([], g)
    else
      var a := StmtsCode(env, depth, g, systems[0]);
      var r := SystemsCode(env, depth, a.g, systems[1..]);
      Out(a.code + r.code, r.g)
  }

  lemma {:induction false} SystemsSnoc(env: Env, depth: nat, g: Gen, systems: seq<seq<Stmt>>, s: seq<Stmt>)
    ensures var a := SystemsCode(env, depth, g, systems);
            var b := StmtsCode(env, depth, a.g, s);
            SystemsCode(env, depth, g, systems + [s]) == Out(a.code + b.code, b.g)
    decreases |systems|
  {
    hide StmtsCode;
    if systems == [] {
      assert systems + [s] == [s] && [s][1..] == [];
      var b := StmtsCode(env, depth, g, s);
      assert SystemsCode(env, depth, b.g, []) == Out([], b.g);
      assert b.code + [] == b.code && [] + b.code == b.code;
    } else {
      assert (systems + [s])[1..] == systems[1..] + [s];
      var x := StmtsCode(env, depth, g, systems[0]);
      SystemsSnoc(env, depth, x.g, systems[1..], s);
      var a := SystemsCode(env, depth, x.g, systems[1..]);
      var b := StmtsCode(env, depth, a.g, s);
      assert x.code + (a.code + b.code) == (x.code + a.code) + b.code;
    }
  }

  function Ascii(s: string): seq<byte> { seq(|s|, i requires 0 <= i < |s| => s[i] as int % 256) }

  function TypeByte(t: ValType): byte { if t == F64 then 0x7c else 0x7f }

  // One group per local, in the order of the table.
  function LocalGroups(locals: seq<Local>): seq<(nat, byte)> {
    seq(|locals|, i requires 0 <= i < |locals| => (1, TypeByte(locals[i].wt)))
  }

  const ENV_NAME: seq<byte> := [0x65, 0x6e, 0x76]

  function ModuleFor(o: Out): B.Module {
    B.Module(
      [B.FuncType([0x7f, 0x7f], []), B.FuncType([0x7f, 0x7f, 0x7f, 0x7f], []), B.FuncType([], [])],
      [B.Import(ENV_NAME, Ascii("arche_print"), 0), B.Import(ENV_NAME, Ascii("arche_printf"), 1)],
      [2],
      Some(4),
      [],
      [B.Export(Ascii("memory"), 2, 0), B.Export(Ascii("_start"), 0, 2)],
      None,
      [B.Code(LocalGroups(o.g.locals), EncSeq(o.code) + [0x0b])],
      if o.g.strings == [] then [] else [B.Data(STRINGS_BASE, o.g.strings)])
  }

  // The module generated for a program.
  function ModuleOf(h: Host, depth: nat, decls: seq<Decl>): B.Module {
    ModuleFor(SystemsCode(ProgramEnv(h, decls), depth, START, Systems(decls)))
  }

  // ---- tables over the systems ----

  lemma {:induction false} SystemsGrow(env: Env, depth: nat, g: Gen, systems: seq<seq<Stmt>>)
    ensures Grows(g, SystemsCode(env, depth, g, systems).g)
    decreases |systems|
  {
    hide StmtsCode;
    if systems != [] {
      StmtsGrow(env, depth, g, systems[0]);
      SystemsGrow(env, depth, StmtsCode(env, depth, g, systems[0]).g, systems[1..]);
    }
  }

  lemma SystemStep(env: Env, depth: nat, types: Types, ctx: Ctx, g: Gen, s: seq<Stmt>)
    requires CtxOk(env, types, ctx, g) && OkStmts(env, depth, types, ctx, false, s).Some?
    ensures var c1 := OkStmts(env, depth, types, ctx, false, s).value;
            var g1 := StmtsCode(env, depth, g, s).g;
            && Grows(g, g1) && Extends(ctx, c1) && CtxOk(env, types, c1, g1)
            && CtxOk(env, types, Ctx(ctx.vars, ctx.arrs, c1.seen), g1)
  {
    hide CtxOk, StmtsCode, OkStmts, Extends;
    var c1 := OkStmts(env, depth, types, ctx, false, s).value;
    StmtsKeepCtx(env, depth, types, ctx, g, false, s);
    StmtsGrow(env, depth, g, s);
    CtxScoped(env, types, ctx, g);
    StmtsExtend(env, depth, types, ctx, false, s);
    CtxWiden(env, types, ctx, g, c1, StmtsCode(env, depth, g, s).g);
  }

  lemma {:induction false} SystemsKeepCtx(env: Env, depth: nat, types: Types, ctx: Ctx, g: Gen, systems: seq<seq<Stmt>>)
    requires CtxOk(env, types, ctx, g) && OkSystems(env, depth, types, ctx, systems).Some?
    ensures CtxOk(env, types, OkSystems(env, depth, types, ctx, systems).value, SystemsCode(env, depth, g, systems).g)
    decreases |systems|
  {
    hide CtxOk, StmtsCode, OkStmts;
    if systems != [] {
      SystemStep(env, depth, types, ctx, g, systems[0]);
      var c1 := OkStmts(env, depth, types, ctx, false, systems[0]).value;
      SystemsKeepCtx(env, depth, types, Ctx(ctx.vars, ctx.arrs, c1.seen), StmtsCode(env, depth, g, systems[0]).g, systems[1..]);
    }
  }

  // ---- simulation over the systems ----

  lemma {:induction false} SystemsRun(env: Env, m: Machine, depth: nat, types: Types, ctx: Ctx, g: Gen, gF: Gen, st: State, c: Cfg,
                                      systems: seq<seq<Stmt>>, fuel: nat)
    requires Rel(env, m, types, ctx, g, gF, st, c) && OkSystems(env, depth, types, ctx, systems).Some?
    requires Grows(SystemsCode(env, depth, g, systems).g, gF)
    ensures var o := SystemsCode(env, depth, g, systems);
            Sim(env, m, types, OkSystems(env, depth, types, ctx, systems).value, o.g, gF,
                ExecSeq(m, o.code, [], c, fuel), RunSystems(env, depth, st, systems, fuel))
    decreases |systems|
  {
    hide Rel, CtxOk, StmtsCode, OkStmts, ExecAll, Leave, Extends, ExecInstr;
    if systems != [] {
      var s := systems[0];
      var a := StmtsCode(env, depth, g, s);
      var b := SystemsCode(env, depth, a.g, systems[1..]);
      var c1 := OkStmts(env, depth, types, ctx, false, s).value;
      var next := Ctx(ctx.vars, ctx.arrs, c1.seen);
      var r := ExecSeq(m, a.code, [], c, fuel);
      var er := ExecAll(env, depth, st, s, fuel);
      Start(env, m, depth, types, ctx, g, gF, st, c, systems);
      WasmCtrlSim.StmtsRun(env, m, depth, types, ctx, g, gF, st, c, false, s, fuel);
      SimLeaves(env, m, types, ctx, g, c1, a.g, gF, st, c, r, er);
      if er.Done? {
        SystemsRun(env, m, depth, types, next, a.g, gF, LeaveRes(st, er).st, r.c, systems[1..], fuel);
      }
      SimThen(env, m, types, next, a.g, gF, a.code, b.code, c, fuel, LeaveRes(st, er),
              OkSystems(env, depth, types, ctx, systems).value, b.g, RunSystems(env, depth, st, systems, fuel));
    }
  }

  // What is known when the first of several systems is entered.
  lemma Start(env: Env, m: Machine, depth: nat, types: Types, ctx: Ctx, g: Gen, gF: Gen, st: State, c: Cfg, systems: seq<seq<Stmt>>)
    requires systems != [] && Rel(env, m, types, ctx, g, gF, st, c) && OkSystems(env, depth, types, ctx, systems).Some?
    requires Grows(SystemsCode(env, depth, g, systems).g, gF)
    ensures OkStmts(env, depth, types, ctx, false, systems[0]).Some?
    ensures var c1 := OkStmts(env, depth, types, ctx, false, systems[0]).value;
            var a := StmtsCode(env, depth, g, systems[0]);
            && Extends(ctx, c1) && Grows(g, a.g) && Grows(a.g, gF)
  {
    hide CtxOk, StmtsCode, OkStmts, Extends, LayoutOk, StOk, VarsRel, ArrsRel, PoolOk, FreeZero;
    var a := StmtsCode(env, depth, g, systems[0]);
    SystemStep(env, depth, types, ctx, g, systems[0]);
    SystemsGrow(env, depth, a.g, systems[1..]);
    GrowsTrans(a.g, SystemsCode(env, depth, a.g, systems[1..]).g, gF);
  }

  // ---- validity over the systems ----

  lemma {:induction false} SystemsTake(env: Env, depth: nat, types: Types, ctx: Ctx, g: Gen, gF: Gen, sig: Sig,
                                       labels: nat, v: VStack, systems: seq<seq<Stmt>>)
    requires Site(env, types, ctx, g, gF, sig) && OkSystems(env, depth, types, ctx, systems).Some?
    requires Grows(SystemsCode(env, depth, g, systems).g, gF)
    ensures Takes(sig, labels, v, SystemsCode(env, depth, g, systems).code, v)
    decreases |systems|
  {
    hide Site, Takes, CtxOk, OkStmts, StmtsCode, Extends;
    if systems == [] {
      TakesNothing(sig, labels, v);
    } else {
      var s := systems[0];
      var a := StmtsCode(env, depth, g, s);
      var b := SystemsCode(env, depth, a.g, systems[1..]);
      var c1 := OkStmts(env, depth, types, ctx, false, s).value;
      var next := Ctx(ctx.vars, ctx.arrs, c1.seen);
      SiteCtx(env, types, ctx, g, gF, sig);
      SystemStep(env, depth, types, ctx, g, s);
      SystemsGrow(env, depth, a.g, systems[1..]);
      GrowsTrans(a.g, b.g, gF);
      SiteMoves(env, types, ctx, g, next, a.g, gF, sig);
      StmtsTake(env, depth, types, ctx, g, gF, sig, labels, v, false, s);
      SystemsTake(env, depth, types, next, a.g, gF, sig, labels, v, systems[1..]);
      TakesBoth(sig, labels, v, a.code, v, b.code, v);
    }
  }
}

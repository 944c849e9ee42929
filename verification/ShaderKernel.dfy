// From a map's body to the columns its shader leaves, by way of the text: what the emitter writes is read by GLSL's
// grammar and run over the grid, and the columns are those of the CPU's loop.
module ShaderKernel {
  import opened Bytes
  import opened ShaderLang
  import opened ShaderFits
  import opened ShaderLower
  import opened ShaderMeans
  import opened ShaderSafe
  import opened ShaderGrid
  import opened ShaderText
  import H = Hir

  // ---- the emitted text can be read ----

  // No column and no variable is named like a keyword, a type or a function of the text.
  predicate WordsOk(k: Kernel, names: seq<string>) {
    && (forall i :: 0 <= i < |k.cols| ==> WordOk(k.kind, k.cols[i]))
    && (forall i :: 0 <= i < |names| ==> WordOk(k.kind, names[i]))
  }

  predicate AllReadable(kind: Kind, ss: seq<GStmt>) { forall i :: 0 <= i < |ss| ==> ReadableS(kind, ss[i]) }

  lemma FewerWords(k: Kernel, a: seq<string>, b: seq<string>)
    requires WordsOk(k, b) && a <= b
    ensures WordsOk(k, a)
  {
  }

  lemma NameReadable(k: Kernel, names: seq<string>, n: string)
    requires WordsOk(k, names) && (n in k.cols || n in names)
    ensures WordOk(k.kind, n)
  {
  }

  lemma LitReadable(k: Kernel, lx: string)
    ensures LowerLit(k, lx).Some? ==> Readable(k.kind, LowerLit(k, lx).value)
  {
  }

  lemma {:induction false} ExprReadable(k: Kernel, names: seq<string>, e: KExpr, bools: bool)
    requires WordsOk(k, names) && LowerExpr(k, names, e, bools).Some?
    ensures Readable(k.kind, LowerExpr(k, names, e, bools).value)
    decreases e
  {
    hide WordsOk, WordOk, LowerLit, NonzeroConst;
    match e
    case KUnary(_, x) => ExprReadable(k, names, x, false);
    case KBinary(_, l, r) =>
      ExprReadable(k, names, l, false);
      ExprReadable(k, names, r, false);
    case KCall(fn, args) =>
      if fn == "select" && |args| == 3 {
        ExprReadable(k, names, args[0], true);
        ExprReadable(k, names, args[1], false);
        ExprReadable(k, names, args[2], false);
      } else {
        ExprReadable(k, names, args[0], false);
      }
    case KLit(lx) => LitReadable(k, lx);
    case KName(n) =>
      if n in k.cols || n in names {
        NameReadable(k, names, n);
      } else {
        LitReadable(k, ConstLexeme(k.consts, n).value);
      }
    case KOther =>
  }

  lemma {:induction false} StmtReadable(k: Kernel, names: seq<string>, s: KStmt)
    requires LowerStmt(k, names, s).Some? && WordsOk(k, LowerStmt(k, names, s).value.names)
    ensures AllReadable(k.kind, LowerStmt(k, names, s).value.code)
    decreases s, 0
  {
    hide WordsOk, WordOk, LowerExpr, OpAllowed, Readable;
    var l := LowerStmt(k, names, s).value;
    NameLonger(k, names, s);
    FewerWords(k, names, l.names);
    match s
    case KAssign(t, op, v) =>
      ExprReadable(k, names, v, false);
      NameReadable(k, names, t.value);
      if op.Some? {
        AllowedHasText(k, op.value, v);
      }
    case KBlock(ss) => StmtsReadable(k, names, ss);
    case KBind(ns, init) =>
      ExprReadable(k, names, init.value, false);
      assert ns[0] in l.names;
      NameReadable(k, l.names, ns[0]);
    case KIf(c, t, e) =>
      var gt := LowerStmts(k, names, t).value;
      var ge := LowerStmts(k, gt.names, e).value;
      NamesLonger(k, gt.names, e);
      FewerWords(k, gt.names, l.names);
      ExprReadable(k, names, c, true);
      StmtsReadable(k, names, t);
      StmtsReadable(k, gt.names, e);
    case KOtherStmt =>
  }

  lemma AllowedHasText(k: Kernel, op: H.Op, right: KExpr)
    requires OpAllowed(k, op, right)
    ensures HasGlslOp(op)
  {
  }

  lemma {:induction false} StmtsReadable(k: Kernel, names: seq<string>, ss: seq<KStmt>)
    requires LowerStmts(k, names, ss).Some? && WordsOk(k, LowerStmts(k, names, ss).value.names)
    ensures AllReadable(k.kind, LowerStmts(k, names, ss).value.code)
    decreases ss, 0
  {
    hide WordsOk, LowerStmt, ReadableS;
    if ss != [] {
      var a := LowerStmt(k, names, ss[0]).value;
      var b := LowerStmts(k, a.names, ss[1..]).value;
      NamesLonger(k, a.names, ss[1..]);
      FewerWords(k, a.names, b.names);
      StmtReadable(k, names, ss[0]);
      StmtsReadable(k, a.names, ss[1..]);
    }
  }

  // For every accepted body: the whole emitted text is read, and as the lowered statements.
  lemma TextIsCode(k: Kernel, ss: seq<KStmt>)
    requires LowerStmts(k, [], ss).Some? && WordsOk(k, LowerStmts(k, [], ss).value.names)
    ensures var code := LowerStmts(k, [], ss).value.code;
            ReadAll(k.kind, PrintAll(k.kind, code) + [Sym("}")]) == Some((PlainAll(code), []))
  {
    hide ReadAll, PrintAll, LowerStmts, ReadableS;
    var code := LowerStmts(k, [], ss).value.code;
    StmtsReadable(k, [], ss);
    ReadBody(k.kind, code, []);
    assert PrintAll(k.kind, code) + [Sym("}")] + [] == PrintAll(k.kind, code) + [Sym("}")];
  }

  // ---- reading keeps what compiles ----

  lemma {:induction false} PlainCheck(kind: Kind, outer: set<string>, here: set<string>, s: GStmt)
    ensures GCheck(kind, outer, here, Plain(s)) == GCheck(kind, outer, here, s)
    decreases s, 0
  {
    hide GType;
    match s
    case GIf(_, t, _, e) =>
      PlainCheckAll(kind, outer + here, {}, t);
      PlainCheckAll(kind, outer + here, {}, e);
    case _ =>
  }

  lemma {:induction false} PlainCheckAll(kind: Kind, outer: set<string>, here: set<string>, ss: seq<GStmt>)
    ensures GCheckAll(kind, outer, here, PlainAll(ss)) == GCheckAll(kind, outer, here, ss)
    decreases ss, 1
  {
    hide GCheck, Plain;
    if ss != [] {
      PlainCheck(kind, outer, here, ss[0]);
      assert PlainAll(ss)[1..] == PlainAll(ss[1..]);
      if GCheck(kind, outer, here, ss[0]).Some? {
        PlainCheckAll(kind, outer, GCheck(kind, outer, here, ss[0]).value, ss[1..]);
      }
    }
  }

  // ---- the text is the loop ----

  // What the language needs of the body and its platform: see PlainStmt, Safe and DriverOk.
  ghost predicate Portable(k: Kernel, d: Driver, ss: seq<KStmt>, names: seq<string>) {
    && DriverOk(d) && PlainConsts(k) && (forall i :: 0 <= i < |ss| ==> PlainStmt(k, ss[i]))
    && (k.fused <==> FlatBody(ss)) && Safe(k, ss) && BoundOnce(names) && WordsOk(k, names)
  }

  lemma ReadRunsLikeBody(k: Kernel, d: Driver, ss: seq<KStmt>)
    requires Faithful(k, d, ss)
    ensures RowsLike(k, d, ss, PlainAll(LowerStmts(k, [], ss).value.code))
  {
    hide Faithful, ExecAll, GExecAll, LowerStmts, PlainAll;
    Lowers(k, d, ss);
    var code := LowerStmts(k, [], ss).value.code;
    forall row
      ensures RowLike(k, d, ss, PlainAll(code), row)
    {
      if RowHolds(k.kind, row) && ExecAll(k, d, Start(row), ss).Some? {
        RowShader(k, d, ss, row);
        PlainAllRuns(k.kind, d, Effect(row, map[]), code);
      }
    }
  }

  // For every body the emitter accepts, every column length and every count up to 2^32 - 64: the emitted text is read
  // to its end; if the GLSL compiler accepts it, then, in whatever order the invocations' statements run, no statement
  // meets an undefined operation, and once all have finished the columns hold what the CPU's loop leaves.
  lemma TextIsLoop(k: Kernel, d: Driver, ss: seq<KStmt>, m: Memory, n: nat, count: nat, schedule: seq<nat>)
    requires LowerStmts(k, [], ss).Some? && Portable(k, d, ss, LowerStmts(k, [], ss).value.names)
    requires Rows(m, n) && Typed(k.kind, m) && 0 < count <= n && count <= U32 - 64 && CpuLoop(k, d, m, n, ss, count).Some?
    requires forall i :: 0 <= i < |schedule| ==> schedule[i] < 64 * Groups(count)
    ensures var p := ReadAll(k.kind, PrintAll(k.kind, LowerStmts(k, [], ss).value.code) + [Sym("}")]);
            && p.Some? && p.value.1 == []
            && (Compiles(k.kind, p.value.0) ==>
                  var r := Run(k.kind, d, n, Begin(m, p.value.0, count), schedule);
                  r.Some? && (Finished(r.value) ==> r.value.mem == CpuLoop(k, d, m, n, ss, count).value))
  {
    hide ReadAll, PrintAll, GCheckAll, LowerStmts, PlainAll, CpuLoop, Run, Groups, DriverOk, PlainConsts, PlainStmt, BoundOnce, Safe, FlatBody;
    var code := LowerStmts(k, [], ss).value.code;
    TextIsCode(k, ss);
    if Compiles(k.kind, PlainAll(code)) {
      PlainCheckAll(k.kind, {}, {}, code);
      ReadRunsLikeBody(k, d, ss);
      CodeIsLoop(k, d, ss, PlainAll(code), m, n, count, schedule);
    }
  }
}

// A program the backend supports: it adds up 0, 1 and 2 in a loop and prints a text. The main theorem speaks of it.
module WasmExample {
  import opened Bytes
  import opened Leb128
  import opened WasmInstr
  import opened Values
  import opened IntLiterals
  import opened Hir
  import opened WasmText
  import opened WasmGen
  import opened HirSem
  import opened Fragment
  import opened WasmProgram
  import opened WasmEndToEnd

  const INT: HType := TInt(32, true)
  const SCALARS: Types := map["s" := SInt, "i" := SInt]

  function Digit(c: char): Expr { Literal([c], INT) }

  // s : int = 0
  const SUM: Stmt := Bind("s", Some(INT), Some(Digit('0')))
  // for (i := 0; i < 3; i = i + 1) { s += i }
  const FROM: Stmt := Bind("i", None, Some(Digit('0')))
  const BELOW: Expr := Binary(Lt, Name("i", INT), Digit('3'), TNamed("bool"))
  const NEXT: Stmt := Assign(Name("i", INT), Binary(Add, Name("i", INT), Digit('1'), INT), None)
  const ADD: Stmt := Assign(Name("s", INT), Name("i", INT), Some(Add))
  const COUNT: Stmt := For(None, Some(FROM), Some(BELOW), Some(NEXT), [ADD])
  // print("ok")
  const SAY: Stmt := Eff(Expr.Call(Name("print", TOther), [Str([0x6f, 0x6b], TCharArray)], TOther))

  const PROGRAM: seq<Decl> := [RunDecl, SystemDecl(true, [SUM, COUNT, SAY])]

  lemma DigitToken(c: char)
    requires '0' <= c <= '9'
    ensures IntOk([c]) && InI32(WgParseInt([c]))
  {
    var lx := [c];
    assert lx[1..] == [] && Strip(lx) == [c] + Strip([]);
    assert SplitBase(lx) == (10, lx) && IsDigit(c, 10);
    assert Positional(lx, 10) == DigitVal(c).value * Power(10, 0) + Positional(lx[1..], 10);
    BackendDecodesLexemes(lx);
  }

  lemma DigitReads(env: Env, depth: nat, ctx: Ctx, g: Gen, c: char)
    requires '0' <= c <= '9'
    ensures TypeOf(env, depth, ctx, Digit(c)) == Some(SInt)
    ensures ExprCode(env, depth, g, Digit(c)) == Out([Const(WgParseInt([c]))], g)
  {
    DigitToken(c);
    hide IntOk, WgParseInt;
    assert |[c]| == 1 && |"true"| == 4 && |"false"| == 5;
  }

  const S: Ctx := Ctx(map["s" := SInt], map[], {})
  const SI: Ctx := Ctx(map["s" := SInt, "i" := SInt], map[], {})

  function Plain(h: Host): Env { Env([], h, 0, 1) }

  // Each statement is accepted.
  lemma AcceptedParts(h: Host)
    ensures var env := Plain(h);
            && OkStmt(env, 0, SCALARS, NOTHING, false, SUM) == Some(S)
            && OkStmt(env, 0, SCALARS, S, false, FROM) == Some(SI)
            && OkStmt(env, 0, SCALARS, S, false, SAY) == Some(S)
  {
    var env := Plain(h);
    DigitReads(env, 0, NOTHING, START, '0');
    DigitReads(env, 0, S, START, '0');
    hide TypeLit, IntOk, OkAssign, OkStmts;
    assert NOTHING.vars["s" := SInt] == S.vars && S.vars["i" := SInt] == SI.vars;
  }

  lemma AcceptedTest(h: Host)
    ensures CondOk(Plain(h), 0, SI, Some(BELOW))
  {
    DigitReads(Plain(h), 0, SI, START, '3');
    hide TypeLit, IntOk;
  }

  lemma AcceptedUpdates(h: Host)
    ensures var env := Plain(h);
            OkStmt(env, 0, SCALARS, SI, true, ADD) == Some(SI) && OkStmt(env, 0, SCALARS, SI, true, NEXT) == Some(SI)
  {
    DigitReads(Plain(h), 0, SI, START, '1');
    hide TypeLit, IntOk, OkBind, OkStmts;
  }

  lemma AcceptedLoop(h: Host)
    ensures OkStmt(Plain(h), 0, SCALARS, S, false, COUNT) == Some(S)
  {
    var env := Plain(h);
    AcceptedParts(h);
    AcceptedTest(h);
    AcceptedUpdates(h);
    assert [ADD][1..] == [];
    hide TypeOf, CondOk, OkBind, OkAssign;
    assert OkStmts(env, 0, SCALARS, SI, true, [ADD][1..]) == Some(SI);
    assert OkStmts(env, 0, SCALARS, SI, true, [ADD]) == Some(SI);
    assert OkOpt(env, 0, SCALARS, S, false, Some(FROM)) == Some(SI);
    assert OkOpt(env, 0, SCALARS, SI, true, Some(NEXT)) == Some(SI);
  }

  lemma Accepted(h: Host)
    ensures OkStmts(Plain(h), 0, SCALARS, NOTHING, false, [SUM, COUNT, SAY]) == Some(S)
  {
    var env := Plain(h);
    AcceptedParts(h);
    AcceptedLoop(h);
    hide OkStmt;
    assert [SUM, COUNT, SAY][1..] == [COUNT, SAY] && [COUNT, SAY][1..] == [SAY] && [SAY][1..] == [];
    assert OkStmts(env, 0, SCALARS, S, false, []) == Some(S);
    assert OkStmts(env, 0, SCALARS, S, false, [SAY]) == Some(S);
    assert OkStmts(env, 0, SCALARS, S, false, [COUNT, SAY]) == Some(S);
  }

  // ---- size ----

  predicate Flat(i: Instr) {
    match i
    case Const(v) => InI32(v)
    case LocalGet(k) => k < U32_LIMIT
    case LocalSet(k) => k < U32_LIMIT
    case Br(k) => k < U32_LIMIT
    case BrIf(k) => k < U32_LIMIT
    case Call(k) => k < U32_LIMIT
    case Num(_) => true
    case _ => false
  }

  predicate AllFlat(code: seq<Instr>) { forall i :: 0 <= i < |code| ==> Flat(code[i]) }

  lemma FlatOne(i: Instr)
    requires Flat(i)
    ensures |EncInstr(i)| <= 6
  {
    Pow2Widths();
    match i
    case Const(v) => SignedLength(v, 32);
    case LocalGet(k) => UnsignedLength(k, 32);
    case LocalSet(k) => UnsignedLength(k, 32);
    case Br(k) => UnsignedLength(k, 32);
    case BrIf(k) => UnsignedLength(k, 32);
    case Call(k) => UnsignedLength(k, 32);
    case Num(_) =>
  }

  lemma {:induction false} FlatSize(code: seq<Instr>)
    requires AllFlat(code)
    ensures |EncSeq(code)| <= 6 * |code|
    decreases |code|
  {
    if code != [] {
      FlatOne(code[0]);
      FlatSize(code[1..]);
    }
  }

  const LOCALS: seq<Local> := [Local("s", I32), Local("i", I32)]
  const G1: Gen := Gen([Local("s", I32)], [], ARRAYS_BASE, [])
  const G2: Gen := Gen(LOCALS, [], ARRAYS_BASE, [])

  function InLoop(): seq<Instr> {
    [LocalGet(1), Const(WgParseInt(['3'])), Num(0x48), Num(0x45), BrIf(1), LocalGet(0), LocalGet(1), Num(0x6a), LocalSet(0),
     LocalGet(1), Const(WgParseInt(['1'])), Num(0x6a), LocalSet(1), Br(0)]
  }

  function Zero(): Instr { Const(WgParseInt(['0'])) }

  lemma Slots()
    ensures FindLocal(START.locals, "s") == None && START.locals + [Local("s", I32)] == G1.locals
    ensures FindLocal(G1.locals, "i") == None && G1.locals + [Local("i", I32)] == LOCALS
    ensures FindLocal(LOCALS, "s") == Some(0) && FindLocal(LOCALS, "i") == Some(1)
  {
    assert G1.locals[1..] == [] && LOCALS[1..] == [Local("i", I32)];
  }

  lemma CompiledParts(h: Host)
    ensures var env := Plain(h);
            && StmtCode(env, 0, START, SUM) == Out([Zero(), LocalSet(0)], G1)
            && StmtCode(env, 0, G1, FROM) == Out([Zero(), LocalSet(1)], G2)
  {
    var env := Plain(h);
    DigitReads(env, 0, NOTHING, START, '0');
    DigitReads(env, 0, NOTHING, G1, '0');
    Slots();
    hide WgParseInt, FindLocal, LiteralCode;
  }

  lemma CompiledTest(h: Host)
    ensures ExitCode(Plain(h), 0, G2, Some(BELOW)) == Out(InLoop()[..5], G2)
  {
    DigitReads(Plain(h), 0, NOTHING, G2, '3');
    Slots();
    hide WgParseInt, FindLocal, LiteralCode;
  }

  lemma CompiledUpdates(h: Host)
    ensures var env := Plain(h);
            && StmtCode(env, 0, G2, ADD) == Out(InLoop()[5..9], G2)
            && StmtCode(env, 0, G2, NEXT) == Out(InLoop()[9..13], G2)
  {
    DigitReads(Plain(h), 0, NOTHING, G2, '1');
    Slots();
    hide WgParseInt, FindLocal, LiteralCode;
  }

  lemma LoopParts()
    ensures var code := InLoop(); |code| == 14 && code[..5] + code[5..9] + code[9..13] + [Br(0)] == code
  {
    hide WgParseInt;
  }

  lemma CompiledLoop(h: Host)
    ensures StmtCode(Plain(h), 0, G1, COUNT) == Out([Zero(), LocalSet(1), Block([Loop(InLoop())])], G2)
  {
    var env := Plain(h);
    CompiledParts(h);
    CompiledTest(h);
    CompiledUpdates(h);
    LoopParts();
    var code := InLoop();
    hide ExprCode, ExitCode, AssignCode, BindCode, InLoop, Zero;
    assert [ADD][1..] == [];
    assert StmtsCode(env, 0, G2, [ADD][1..]) == Out([], G2);
    assert StmtsCode(env, 0, G2, [ADD]) == Out(code[5..9] + [], G2) && code[5..9] + [] == code[5..9];
    assert OptStmtCode(env, 0, G1, Some(FROM)) == Out([Zero(), LocalSet(1)], G2);
    assert OptStmtCode(env, 0, G2, Some(NEXT)) == Out(code[9..13], G2);
    assert [Zero(), LocalSet(1)] + [Block([Loop(code)])] == [Zero(), LocalSet(1), Block([Loop(code)])];
  }

  const G3: Gen := Gen(LOCALS, [], ARRAYS_BASE, [0x6f, 0x6b])

  lemma CompiledPrint(h: Host)
    ensures StmtCode(Plain(h), 0, G2, SAY) == Out([Const(STRINGS_BASE), Const(2), Instr.Call(0)], G3)
  {
    assert Unescape([0x6f, 0x6b]) == [0x6f] + Unescape([0x6f, 0x6b][1..]) && [0x6f, 0x6b][1..] == [0x6b];
    assert Unescape([0x6b]) == [0x6b] + Unescape([0x6b][1..]) && [0x6b][1..] == [];
  }

  lemma Compiled(h: Host)
    ensures StmtsCode(Plain(h), 0, START, [SUM, COUNT, SAY]) ==
            Out([Zero(), LocalSet(0)] + ([Zero(), LocalSet(1), Block([Loop(InLoop())])]
                                         + [Const(STRINGS_BASE), Const(2), Instr.Call(0)]), G3)
  {
    var env := Plain(h);
    CompiledParts(h);
    CompiledLoop(h);
    CompiledPrint(h);
    hide StmtCode, InLoop, Zero;
    var say := [Const(STRINGS_BASE), Const(2), Instr.Call(0)];
    assert [SUM, COUNT, SAY][1..] == [COUNT, SAY] && [COUNT, SAY][1..] == [SAY] && [SAY][1..] == [];
    assert StmtsCode(env, 0, G3, []) == Out([], G3);
    assert StmtsCode(env, 0, G2, [SAY]) == Out(say + [], G3) && say + [] == say;
    assert StmtsCode(env, 0, G1, [COUNT, SAY]) == Out([Zero(), LocalSet(1), Block([Loop(InLoop())])] + say, G3);
  }

  lemma FlatDigit(c: char)
    requires '0' <= c <= '9'
    ensures Flat(Const(WgParseInt([c])))
  {
    DigitToken(c);
  }

  lemma LoopFlat()
    ensures AllFlat(InLoop()) && |InLoop()| == 14 && Flat(Zero())
  {
    FlatDigit('0');
    FlatDigit('1');
    FlatDigit('3');
    var zero, one, three := Zero(), Const(WgParseInt(['1'])), Const(WgParseInt(['3']));
    hide WgParseInt, InI32;
    LoopIs(one, three);
  }

  lemma LoopIs(one: Instr, three: Instr)
    requires one == Const(WgParseInt(['1'])) && three == Const(WgParseInt(['3'])) && Flat(one) && Flat(three)
    ensures AllFlat(InLoop()) && |InLoop()| == 14
  {
    hide WgParseInt, InI32, Flat;
    var test := [LocalGet(1), three, Num(0x48), Num(0x45), BrIf(1)];
    var rest := [LocalGet(0), LocalGet(1), Num(0x6a), LocalSet(0), LocalGet(1), one, Num(0x6a), LocalSet(1), Br(0)];
    assert InLoop() == test + rest;
    PlainFlat();
    hide InLoop;
    assert AllFlat(test) && AllFlat(rest);
  }

  lemma PlainFlat()
    ensures forall k :: 0 <= k < U32_LIMIT ==> Flat(LocalGet(k)) && Flat(LocalSet(k)) && Flat(Br(k)) && Flat(BrIf(k))
    ensures forall op :: Flat(Num(op))
  {
  }

  lemma JoinSize(a: seq<Instr>, b: seq<Instr>)
    ensures |EncSeq(a + b)| == |EncSeq(a)| + |EncSeq(b)|
  {
    EncSeqAppend(a, b);
  }

  lemma NestedSize(code: seq<Instr>)
    ensures |EncSeq([Block([Loop(code)])])| == |EncSeq(code)| + 6
  {
    EncSeqOne(Loop(code));
    EncSeqOne(Block([Loop(code)]));
  }

  lemma PairSize(i: Instr, j: Instr)
    requires Flat(i) && Flat(j)
    ensures |EncSeq([i, j])| <= 12
  {
    FlatSize([i, j]);
  }

  lemma CallSize(p: int, n: int, f: nat)
    requires InI32(p) && InI32(n) && f < U32_LIMIT
    ensures |EncSeq([Const(p), Const(n), Instr.Call(f)])| <= 18
  {
    hide EncSeq;
    FlatSize([Const(p), Const(n), Instr.Call(f)]);
  }

  lemma Joined(a: seq<Instr>, b: seq<Instr>, l: seq<Instr>, c: seq<Instr>)
    requires |EncSeq(a)| <= 12 && |EncSeq(b)| <= 12 && |EncSeq(l)| <= 100 && |EncSeq(c)| <= 18
    ensures |EncSeq(a + (b + l + c))| < BODY_LIMIT
  {
    hide EncSeq;
    JoinSize(b, l);
    JoinSize(b + l, c);
    JoinSize(a, b + l + c);
  }

  lemma Small(h: Host)
    ensures |EncSeq(StmtsCode(Plain(h), 0, START, [SUM, COUNT, SAY]).code)| < BODY_LIMIT
  {
    hide StmtsCode, EncSeq, InLoop, Zero, AllFlat;
    Compiled(h);
    LoopFlat();
    var l := [Block([Loop(InLoop())])];
    PairSize(Zero(), LocalSet(0));
    PairSize(Zero(), LocalSet(1));
    CallSize(STRINGS_BASE, 2, 0);
    FlatSize(InLoop());
    NestedSize(InLoop());
    assert [Zero(), LocalSet(1), Block([Loop(InLoop())])] == [Zero(), LocalSet(1)] + l;
    Joined([Zero(), LocalSet(0)], [Zero(), LocalSet(1)], l, [Const(STRINGS_BASE), Const(2), Instr.Call(0)]);
  }

  // The fragment is not empty: the main theorem applies to this program, on every host.
  lemma LoopIsSupported(h: Host)
    ensures Supported(h, 0, SCALARS, PROGRAM)
  {
    var env := Plain(h);
    var stmts := [SUM, COUNT, SAY];
    hide StmtsCode, OkStmts, EncSeq;
    assert PROGRAM[0].RunDecl? && HasRun(PROGRAM);
    assert PROGRAM[1..] == [SystemDecl(true, stmts)] && PROGRAM[1..][1..] == [];
    assert RunOnce(PROGRAM[1..][1..]) == [] && RunOnce(PROGRAM[1..]) == [stmts] + [] == [stmts];
    assert RunOnce(PROGRAM) == [] + [stmts] == [stmts];
    assert Systems(PROGRAM) == [stmts];
    assert ConstsOf(PROGRAM[1..][1..], MAX_CONSTS) == [] && ConstsOf(PROGRAM[1..], MAX_CONSTS) == [] && ConstsOf(PROGRAM, MAX_CONSTS) == [];
    assert ProgramEnv(h, PROGRAM) == env;
    Accepted(h);
    Compiled(h);
    Small(h);
    assert [stmts][1..] == [];
    assert OkSystems(env, 0, SCALARS, NOTHING, [stmts]).Some?;
    var o := StmtsCode(env, 0, START, stmts);
    assert SystemsCode(env, 0, o.g, []) == Out([], o.g);
    assert SystemsCode(env, 0, START, [stmts]) == Out(o.code + [], o.g) && o.code + [] == o.code;
  }
}

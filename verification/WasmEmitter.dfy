// The emitter: one walk over the HIR that appends bytes to the body, text to the string pool, and entries to the
// tables of locals and arrays. What it appends is the binary form of the code the construct stands for.
module WasmEmitter {
  import opened Bytes
  import opened Leb128
  import opened WasmBuffer
  import opened WasmInstr
  import opened Values
  import opened IntLiterals
  import opened Hir
  import opened WasmText
  import opened WasmGen

  // The buffer has grown by the binary form of the code.
  predicate Emits(before: seq<byte>, after: seq<byte>, code: seq<Instr>) { after == before + EncSeq(code) }

  lemma EmitsNone(b: seq<byte>)
    ensures Emits(b, b, [])
  {
  }

  lemma EmitsOne(before: seq<byte>, after: seq<byte>, i: Instr)
    requires after == before + EncInstr(i)
    ensures Emits(before, after, [i])
  {
    EncSeqOne(i);
  }

  lemma EmitsThen(a: seq<byte>, b: seq<byte>, c: seq<byte>, x: seq<Instr>, y: seq<Instr>)
    requires Emits(a, b, x) && Emits(b, c, y)
    ensures Emits(a, c, x + y)
  {
    hide EncSeq;
    EncSeqAppend(x, y);
    assert (a + EncSeq(x)) + EncSeq(y) == a + (EncSeq(x) + EncSeq(y));
  }

  // Brackets around what the middle emits.
  lemma EmitsBlock(a: seq<byte>, opener: seq<byte>, b: seq<byte>, c: seq<byte>, closer: seq<byte>, d: seq<byte>,
                   x: seq<Instr>, i: Instr)
    requires b == a + opener && Emits(b, c, x) && d == c + closer
    requires EncInstr(i) == opener + EncSeq(x) + closer
    ensures Emits(a, d, [i])
  {
    EmitsOne(a, d, i);
  }

  lemma {:induction false} StmtsSnoc(env: Env, depth: nat, g: Gen, ss: seq<Stmt>, s: Stmt)
    ensures var a := StmtsCode(env, depth, g, ss);
            var b := StmtCode(env, depth, a.g, s);
            StmtsCode(env, depth, g, ss + [s]) == Out(a.code + b.code, b.g)
    decreases |ss|
  {
    hide StmtCode;
    if ss == [] {
      assert ss + [s] == [s] && [s][1..] == [];
      var b := StmtCode(env, depth, g, s);
      assert StmtsCode(env, depth, b.g, []) == Out([], b.g);
      assert b.code + [] == b.code && [] + b.code == b.code;
    } else {
      assert (ss + [s])[1..] == ss[1..] + [s];
      var x := StmtCode(env, depth, g, ss[0]);
      StmtsSnoc(env, depth, x.g, ss[1..], s);
      var a := StmtsCode(env, depth, x.g, ss[1..]);
      var b := StmtCode(env, depth, a.g, s);
      assert x.code + (a.code + b.code) == (x.code + a.code) + b.code;
    }
  }

  lemma {:induction false} ArgsSnoc(env: Env, depth: nat, g: Gen, args: seq<Expr>, a: Expr, j: nat)
    ensures var x := ArgsCode(env, depth, g, args, j);
            var y := ArgCode(env, depth, x.g, a, j + |args|);
            ArgsCode(env, depth, g, args + [a], j) == Out(x.code + y.code, y.g)
    decreases |args|
  {
    hide ArgCode;
    if args == [] {
      assert args + [a] == [a] && [a][1..] == [];
      var y := ArgCode(env, depth, g, a, j);
      assert y.code + [] == y.code && [] + y.code == y.code;
    } else {
      assert (args + [a])[1..] == args[1..] + [a];
      var x := ArgCode(env, depth, g, args[0], j);
      ArgsSnoc(env, depth, x.g, args[1..], a, j + 1);
      var r := ArgsCode(env, depth, x.g, args[1..], j + 1);
      var y := ArgCode(env, depth, r.g, a, j + |args|);
      assert x.code + (r.code + y.code) == (x.code + r.code) + y.code;
    }
  }

  lemma {:induction false} ElementsSnoc(env: Env, depth: nat, g: Gen, a: Arr, elements: seq<Expr>, e: Expr, k: nat)
    requires k + |elements| < a.total
    ensures var x := ElementsCode(env, depth, g, a, elements, k);
            var v := ValueCode(env, depth, x.g, a.wt, e);
            ElementsCode(env, depth, g, a, elements + [e], k) ==
            Out(x.code + ([Const(a.base + (k + |elements|) * a.size)] + v.code + [StoreOf(a)]), v.g)
    decreases |elements|
  {
    hide ValueCode, StoreOf;
    if elements == [] {
      assert elements + [e] == [e] && [e][1..] == [];
      var v := ValueCode(env, depth, g, a.wt, e);
      assert ElementsCode(env, depth, v.g, a, [], k + 1) == Out([], v.g);
      var one := [Const(a.base + k * a.size)] + v.code + [StoreOf(a)];
      assert one + [] == one && [] + one == one;
    } else {
      var all := elements + [e];
      assert all[1..] == elements[1..] + [e] && all[0] == elements[0];
      var v0 := ValueCode(env, depth, g, a.wt, elements[0]);
      ElementsSnoc(env, depth, v0.g, a, elements[1..], e, k + 1);
      assert k + 1 + |elements[1..]| == k + |elements|;
      var r := ElementsCode(env, depth, v0.g, a, elements[1..], k + 1);
      var v := ValueCode(env, depth, r.g, a.wt, e);
      var one := [Const(a.base + (k + |elements|) * a.size)] + v.code + [StoreOf(a)];
      var first := [Const(a.base + k * a.size)] + v0.code + [StoreOf(a)];
      assert ElementsCode(env, depth, g, a, elements, k) == Out(first + r.code, r.g);
      assert ElementsCode(env, depth, v0.g, a, all[1..], k + 1) == Out(r.code + one, v.g);
      assert ElementsCode(env, depth, g, a, all, k) == Out(first + (r.code + one), v.g);
      assert first + (r.code + one) == (first + r.code) + one;
    }
  }

  // Elements beyond the array's length are not emitted.
  lemma {:induction false} ElementsCut(env: Env, depth: nat, g: Gen, a: Arr, elements: seq<Expr>, n: nat, k: nat)
    requires k + n <= a.total && n <= |elements| && (n == |elements| || k + n == a.total)
    ensures ElementsCode(env, depth, g, a, elements, k) == ElementsCode(env, depth, g, a, elements[..n], k)
    decreases |elements|
  {
    hide ValueCode, StoreOf;
    if n > 0 {
      assert elements[..n][1..] == elements[1..][..n - 1];
      ElementsCut(env, depth, ValueCode(env, depth, g, a.wt, elements[0]).g, a, elements[1..], n - 1, k + 1);
    }
  }

  // The character an escape or a plain byte at i stands for, and where the next one begins.
  function CharAt(raw: seq<byte>, i: nat): (byte, nat)
    requires i < |raw|
  {
    if raw[i] == 0x5c && i + 1 < |raw| then (EscapeByte(raw[i + 1]), i + 2) else (raw[i], i + 1)
  }

  lemma UnescapeStep(raw: seq<byte>, i: nat, done: seq<byte>, before: seq<byte>)
    requires i < |raw| && Unescape(raw) == done + Unescape(raw[i..])
    ensures var (c, j) := CharAt(raw, i);
            j <= |raw| && Unescape(raw) == (done + [c]) + Unescape(raw[j..]) && before + done + [c] == before + (done + [c])
  {
    var (c, j) := CharAt(raw, i);
    assert raw[i..][1..] == raw[i + 1..];
    if i + 1 < |raw| {
      assert raw[i..][2..] == raw[i + 2..];
    }
    hide EscapeByte;
    var rest := Unescape(raw[j..]);
    assert Unescape(raw[i..]) == [c] + rest;
    hide Unescape;
    assert done + ([c] + rest) == (done + [c]) + rest;
  }

  // Text enters the pool byte by byte, escapes resolved.
  method AppendText(pool: WasmBuf, raw: seq<byte>) returns (n: nat)
    requires pool.Valid()
    modifies pool, pool.data
    ensures pool.Valid() && (pool.data == old(pool.data) || fresh(pool.data))
    ensures pool.contents == old(pool.contents) + Unescape(raw) && n == |Unescape(raw)|
    ensures Spells(raw, pool.contents[|old(pool.contents)|..], true)
  {
    hide Unescape, EscapeByte, Spells;
    n := 0;
    var i := 0;
    ghost var done: seq<byte> := [];
    ghost var before := pool.contents;
    UnescapeBegin(raw, before);
    while i < |raw|
      invariant i <= |raw|
      invariant pool.Valid() && (pool.data == old(pool.data) || fresh(pool.data))
      invariant pool.contents == before + done && n == |done|
      invariant Unescape(raw) == done + Unescape(raw[i..])
    {
      UnescapeStep(raw, i, done, before);
      var c := raw[i];
      i := i + 1;
      if c == 0x5c && i < |raw| {
        c := EscapeByte(raw[i]);
        i := i + 1;
      }
      pool.Byte(c);
      done := done + [c];
      n := n + 1;
    }
    UnescapeEnd(raw, done);
    UnescapeExact(raw, done);
    assert pool.contents[|before|..] == done;
  }

  lemma UnescapeBegin(raw: seq<byte>, before: seq<byte>)
    ensures Unescape(raw) == [] + Unescape(raw[0..]) && before + [] == before
  {
    assert raw[0..] == raw;
  }

  lemma UnescapeEnd(raw: seq<byte>, done: seq<byte>)
    requires Unescape(raw) == done + Unescape(raw[|raw|..])
    ensures done == Unescape(raw)
  {
    assert raw[|raw|..] == [];
    assert done + [] == done;
  }

  // The inside of a loop.
  function LoopCode(env: Env, depth: nat, g: Gen, s: Stmt): Out
    requires s.For?
  {
    var x := ExitCode(env, depth, g, s.cond);
    var b := StmtsCode(env, depth, x.g, s.body);
    var n := OptStmtCode(env, depth, b.g, s.incr);
    Out(x.code + b.code + n.code + [Br(0)], n.g)
  }

  class Wg {
    const env: Env
    const body: WasmBuf
    const strings: WasmBuf
    var locals: seq<Local>
    var arrays: seq<Arr>
    var cursor: int

    ghost predicate Valid()
      reads this, body, body.data, strings, strings.data
    {
      body != strings && body.data != strings.data && body.Valid() && strings.Valid()
    }

    ghost function Tables(): Gen
      reads this, strings
    {
      Gen(locals, arrays, cursor, strings.contents)
    }

    twostate predicate Kept()
      reads this, body, strings
    {
      (body.data == old(body.data) || fresh(body.data)) && (strings.data == old(strings.data) || fresh(strings.data))
    }

    constructor (env: Env)
      ensures this.env == env && Valid() && Tables() == Gen([], [], ARRAYS_BASE, []) && body.contents == []
      ensures fresh(body) && fresh(body.data) && fresh(strings) && fresh(strings.data)
    {
      this.env := env;
      body := new WasmBuf();
      strings := new WasmBuf();
      locals, arrays, cursor := [], [], ARRAYS_BASE;
    }

    // ---- single instructions ----

    method EmitOp(op: byte)
      requires Valid() && IsNum(op)
      modifies body, body.data
      ensures Valid() && Kept() && Tables() == old(Tables())
      ensures Emits(old(body.contents), body.contents, [Num(op)])
    {
      ghost var b0 := body.contents;
      body.Byte(op);
      EmitsOne(b0, body.contents, Num(op));
    }

    method EmitConst(v: int)
      requires Valid()
      modifies body, body.data
      ensures Valid() && Kept() && Tables() == old(Tables())
      ensures Emits(old(body.contents), body.contents, [Const(v)])
    {
      hide EncS, EncU;
      ghost var b0 := body.contents;
      body.Byte(0x41);
      body.I(v);
      assert body.contents == b0 + ([0x41] + EncS(v));
      EmitsOne(b0, body.contents, Const(v));
    }

    method EmitFconst(bits: F64Bits)
      requires Valid()
      modifies body, body.data
      ensures Valid() && Kept() && Tables() == old(Tables())
      ensures Emits(old(body.contents), body.contents, [FConst(bits)])
    {
      ghost var b0 := body.contents;
      body.Byte(0x44);
      body.Bytes(bits);
      assert body.contents == b0 + ([0x44] + bits);
      EmitsOne(b0, body.contents, FConst(bits));
    }

    // One opcode with one index.
    method EmitIndexed(op: byte, k: nat, ghost i: Instr)
      requires Valid() && EncInstr(i) == [op] + EncU(k)
      modifies body, body.data
      ensures Valid() && Kept() && Tables() == old(Tables())
      ensures Emits(old(body.contents), body.contents, [i])
    {
      hide EncS, EncU;
      ghost var b0 := body.contents;
      body.Byte(op);
      body.U(k);
      assert body.contents == b0 + ([op] + EncU(k));
      EmitsOne(b0, body.contents, i);
    }

    // A load or store with its alignment and offset zero.
    method EmitMem(op: byte, align: byte, ghost i: Instr)
      requires Valid() && align < 128 && (i == Load(op, align, 0) || i == Store(op, align, 0))
      modifies body, body.data
      ensures Valid() && Kept() && Tables() == old(Tables())
      ensures Emits(old(body.contents), body.contents, [i])
    {
      ghost var b0 := body.contents;
      body.Byte(op);
      body.Byte(align);
      body.Byte(0x00);
      assert EncU(align) == [align] && EncU(0) == [0x00];
      assert body.contents == b0 + ([op] + EncU(align) + EncU(0));
      EmitsOne(b0, body.contents, i);
    }

    method EmitLoad(a: Arr)
      requires Valid()
      modifies body, body.data
      ensures Valid() && Kept() && Tables() == old(Tables())
      ensures Emits(old(body.contents), body.contents, [LoadOf(a)])
    {
      if a.wt == F64 {
        EmitMem(0x2b, 3, LoadOf(a));
      } else if a.size == 1 {
        EmitMem(if a.isSigned then 0x2c else 0x2d, 0, LoadOf(a));
      } else if a.size == 2 {
        EmitMem(if a.isSigned then 0x2e else 0x2f, 1, LoadOf(a));
      } else {
        EmitMem(0x28, 2, LoadOf(a));
      }
    }

    method EmitStore(a: Arr)
      requires Valid()
      modifies body, body.data
      ensures Valid() && Kept() && Tables() == old(Tables())
      ensures Emits(old(body.contents), body.contents, [StoreOf(a)])
    {
      if a.wt == F64 {
        EmitMem(0x39, 3, StoreOf(a));
      } else if a.size == 1 {
        EmitMem(0x3a, 0, StoreOf(a));
      } else if a.size == 2 {
        EmitMem(0x3b, 1, StoreOf(a));
      } else {
        EmitMem(0x36, 2, StoreOf(a));
      }
    }

    // ---- tables ----

    method LocalOf(name: string, wt: ValType) returns (i: nat)
      requires Valid()
      modifies this
      ensures Valid() && Kept() && body.contents == old(body.contents)
      ensures LocalIndex(old(Tables()), name, wt) == (i, Tables())
    {
      i := 0;
      while i < |locals|
        invariant i <= |locals|
        invariant FindLocal(locals, name) == (match FindLocal(locals[i..], name) case None => None case Some(k) => Some(i + k))
      {
        if locals[i].name == name {
          return;
        }
        assert locals[i..][1..] == locals[i + 1..];
        i := i + 1;
      }
      locals := locals + [Local(name, wt)];
    }

    method ArrayFind(name: string) returns (r: Option<Arr>)
      ensures r == FindArr(arrays, name)
    {
      var i := 0;
      while i < |arrays|
        invariant i <= |arrays|
        invariant FindArr(arrays, name) == FindArr(arrays[i..], name)
      {
        if arrays[i].name == name {
          return Some(arrays[i]);
        }
        assert arrays[i..][1..] == arrays[i + 1..];
        i := i + 1;
      }
      return None;
    }

    method ArrayOf(base: Expr) returns (r: Option<Arr>)
      requires Valid()
      ensures r == ArrOf(Tables(), base)
    {
      if base.Name? {
        r := ArrayFind(base.name);
      } else {
        r := None;
      }
    }

    method ArrayDecl(name: string, t: HType) returns (r: Option<Arr>)
      requires Valid()
      modifies this
      ensures Valid() && Kept() && body.contents == old(body.contents)
      ensures DeclareArr(old(Tables()), name, t) == (r, Tables())
    {
      if |arrays| >= MAX_ARRAYS {
        return None;
      }
      var b := ElemBase(t);
      var a := Arr(name, cursor, ScalarSize(b), WType(b), b.TInt? && b.isSigned, TotalElems(t));
      arrays := arrays + [a];
      cursor := cursor + a.total * a.size;
      return Some(a);
    }

    method Constant(name: string) returns (r: Option<Expr>)
      ensures r == FindConst(env.consts, name)
    {
      var i := 0;
      while i < |env.consts|
        invariant i <= |env.consts|
        invariant FindConst(env.consts, name) == FindConst(env.consts[i..], name)
      {
        if env.consts[i].0 == name {
          return Some(env.consts[i].1);
        }
        assert env.consts[i..][1..] == env.consts[i + 1..];
        i := i + 1;
      }
      return None;
    }

    method InternString(raw: seq<byte>) returns (off: int, n: int)
      requires Valid()
      modifies strings, strings.data
      ensures Valid() && Kept() && body.contents == old(body.contents)
      ensures Intern(old(Tables()), raw) == (off, n, Tables())
      ensures Spells(raw, strings.contents[|old(strings.contents)|..], true)
    {
      off := STRINGS_BASE + strings.len;
      n := AppendText(strings, raw);
    }

    // ---- expressions ----

    method EmitExpr(depth: nat, e: Expr)
      requires Valid()
      modifies this, body, body.data, strings, strings.data
      ensures Valid() && Kept()
      ensures Tables() == ExprCode(env, depth, old(Tables()), e).g
      ensures Emits(old(body.contents), body.contents, ExprCode(env, depth, old(Tables()), e).code)
      decreases depth, e, 1
    {
      hide Emits;
      match e
      case Literal(lx, ty) => EmitLiteral(lx, ty);
      case Name(nm, ty) =>
        var c := Constant(nm);
        match c {
          case Some(v) =>
            if depth == 0 {
              EmitsNone(body.contents);
            } else {
              EmitExpr(depth - 1, v);
            }
          case None =>
            var i := LocalOf(nm, WType(ty));
            EmitIndexed(0x20, i, LocalGet(i));
        }
      case Binary(op, l, r, _) => EmitBinary(depth, e);
      case Index(base, indices, _) =>
        var a := ArrayOf(base);
        if a.Some? && |indices| == 1 {
          ghost var b0, g0 := body.contents, Tables();
          EmitAddr(depth, a.value, indices[0]);
          ghost var b1 := body.contents;
          EmitLoad(a.value);
          EmitsThen(b0, b1, body.contents, AddrCode(env, depth, g0, a.value, indices[0]).code, [LoadOf(a.value)]);
        } else {
          EmitConst(0);
        }
      case Field(base, f, _) =>
        var a := ArrayOf(base);
        EmitConst(if a.Some? && f == "length" then a.value.total else 0);
      case _ => EmitConst(0);
    }

    method EmitLiteral(lx: string, ty: HType)
      requires Valid()
      modifies this, body, body.data, strings, strings.data
      ensures Valid() && Kept() && Tables() == old(Tables())
      ensures Emits(old(body.contents), body.contents, [LiteralCode(env.host, lx, ty)])
    {
      hide Emits;
      if WType(ty) == F64 {
        EmitFconst(env.host.parse(lx));
      } else if ty.TChar? {
        EmitConst(ParseChar(lx));
      } else if lx == "true" {
        EmitConst(1);
      } else if lx == "false" {
        EmitConst(0);
      } else {
        var n := ParseInt(lx);
        EmitConst(n);
      }
    }

    method EmitBinary(depth: nat, e: Expr)
      requires Valid() && e.Binary?
      modifies this, body, body.data, strings, strings.data
      ensures Valid() && Kept()
      ensures Tables() == ExprCode(env, depth, old(Tables()), e).g
      ensures Emits(old(body.contents), body.contents, ExprCode(env, depth, old(Tables()), e).code)
      decreases depth, e, 0
    {
      BinaryCodeIs(env, depth, Tables(), e);
      hide Emits, ExprCode, ValueCode;
      var isf := WType(e.left.ty) == F64 || WType(e.right.ty) == F64;
      var opc := if isf then BinopF(e.op) else BinopI(e.op);
      if opc == 0 {
        EmitConst(0);
      } else {
        ghost var b0, g0 := body.contents, Tables();
        EmitValue(depth, if isf then F64 else I32, e.left);
        ghost var b1, lo := body.contents, ValueCode(env, depth, g0, if isf then F64 else I32, e.left);
        EmitValue(depth, if isf then F64 else I32, e.right);
        ghost var b2, ro := body.contents, ValueCode(env, depth, lo.g, if isf then F64 else I32, e.right);
        EmitOp(opc);
        EmitsThen(b0, b1, b2, lo.code, ro.code);
        EmitsThen(b0, b2, body.contents, lo.code + ro.code, [Num(opc)]);
      }
    }

    // The value, converted where a float is wanted.
    method EmitValue(depth: nat, wt: ValType, e: Expr)
      requires Valid()
      modifies this, body, body.data, strings, strings.data
      ensures Valid() && Kept()
      ensures Tables() == ValueCode(env, depth, old(Tables()), wt, e).g
      ensures Emits(old(body.contents), body.contents, ValueCode(env, depth, old(Tables()), wt, e).code)
      decreases depth, e, 2
    {
      hide Emits, ExprCode;
      ghost var b0, g0 := body.contents, Tables();
      EmitExpr(depth, e);
      if wt == F64 && WType(e.ty) != F64 {
        ghost var b1 := body.contents;
        EmitOp(0xb7);
        EmitsThen(b0, b1, body.contents, ExprCode(env, depth, g0, e).code, [Num(0xb7)]);
      }
    }

    method EmitAddr(depth: nat, a: Arr, idx: Expr)
      requires Valid()
      modifies this, body, body.data, strings, strings.data
      ensures Valid() && Kept()
      ensures Tables() == AddrCode(env, depth, old(Tables()), a, idx).g
      ensures Emits(old(body.contents), body.contents, AddrCode(env, depth, old(Tables()), a, idx).code)
      decreases depth, idx, 2
    {
      hide Emits, ExprCode;
      ghost var b0, g0 := body.contents, Tables();
      ghost var io := ExprCode(env, depth, g0, idx).code;
      EmitConst(a.base);
      ghost var b1 := body.contents;
      EmitExpr(depth, idx);
      ghost var b2 := body.contents;
      EmitsThen(b0, b1, b2, [Const(a.base)], io);
      ghost var scale: seq<Instr> := [];
      if a.size != 1 {
        EmitConst(a.size);
        ghost var b3 := body.contents;
        EmitOp(0x6c);
        EmitsThen(b2, b3, body.contents, [Const(a.size)], [Num(0x6c)]);
        scale := [Const(a.size)] + [Num(0x6c)];
      } else {
        EmitsNone(b2);
      }
      ghost var b4 := body.contents;
      EmitsThen(b0, b2, b4, [Const(a.base)] + io, scale);
      EmitOp(0x6a);
      EmitsThen(b0, b4, body.contents, [Const(a.base)] + io + scale, [Num(0x6a)]);
      assert scale == if a.size != 1 then [Const(a.size), Num(0x6c)] else [];
    }

    // ---- printf ----

    method EmitArg(depth: nat, a: Expr, j: nat)
      requires Valid()
      modifies this, body, body.data, strings, strings.data
      ensures Valid() && Kept()
      ensures Tables() == ArgCode(env, depth, old(Tables()), a, j).g
      ensures Emits(old(body.contents), body.contents, ArgCode(env, depth, old(Tables()), a, j).code)
    {
      hide Emits, ExprCode;
      var slot := ARGS_BASE + j * 8;
      ghost var b0, g0 := body.contents, Tables();
      if a.Str? || a.ty.TCharArray? {
        var p, l := 0, 0;
        if a.Str? {
          p, l := InternString(a.text);
        } else {
          var arr := ArrayOf(a);
          if arr.Some? {
            p, l := arr.value.base, arr.value.total;
          }
        }
        assert (p, l, Tables()) == StringArg(g0, a);
        EmitSlotWord(slot, p);
        ghost var b1 := body.contents;
        EmitSlotWord(slot + 4, l);
        EmitsThen(b0, b1, body.contents, [Const(slot), Const(p), StoreI32], [Const(slot + 4), Const(l), StoreI32]);
        assert [Const(slot), Const(p), StoreI32] + [Const(slot + 4), Const(l), StoreI32] ==
               [Const(slot), Const(p), StoreI32, Const(slot + 4), Const(l), StoreI32];
      } else {
        EmitConst(slot);
        ghost var b1 := body.contents;
        EmitExpr(depth, a);
        ghost var b2, vc := body.contents, ExprCode(env, depth, g0, a).code;
        EmitsThen(b0, b1, b2, [Const(slot)], vc);
        if WType(a.ty) == F64 {
          EmitMem(0x39, 3, StoreF64);
        } else {
          EmitMem(0x36, 2, StoreI32);
        }
        EmitsThen(b0, b2, body.contents, [Const(slot)] + vc, [if WType(a.ty) == F64 then StoreF64 else StoreI32]);
      }
    }

    method EmitSlotWord(slot: int, v: int)
      requires Valid()
      modifies body, body.data
      ensures Valid() && Kept() && Tables() == old(Tables())
      ensures Emits(old(body.contents), body.contents, [Const(slot), Const(v), StoreI32])
    {
      hide Emits;
      ghost var b0 := body.contents;
      EmitConst(slot);
      ghost var b1 := body.contents;
      EmitConst(v);
      ghost var b2 := body.contents;
      EmitMem(0x36, 2, StoreI32);
      EmitsThen(b0, b1, b2, [Const(slot)], [Const(v)]);
      EmitsThen(b0, b2, body.contents, [Const(slot)] + [Const(v)], [StoreI32]);
      assert [Const(slot)] + [Const(v)] + [StoreI32] == [Const(slot), Const(v), StoreI32];
    }

    method EmitCall(f: nat)
      requires Valid()
      modifies body, body.data
      ensures Valid() && Kept() && Tables() == old(Tables())
      ensures Emits(old(body.contents), body.contents, [Instr.Call(f)])
    {
      EmitIndexed(0x10, f, Instr.Call(f));
    }

    method EmitTwo(p: int, n: int)
      requires Valid()
      modifies body, body.data
      ensures Valid() && Kept() && Tables() == old(Tables())
      ensures Emits(old(body.contents), body.contents, [Const(p), Const(n)])
    {
      hide Emits;
      ghost var b0 := body.contents;
      EmitConst(p);
      ghost var b1 := body.contents;
      EmitConst(n);
      EmitsThen(b0, b1, body.contents, [Const(p)], [Const(n)]);
      assert [Const(p)] + [Const(n)] == [Const(p), Const(n)];
    }

    method EmitPrint(depth: nat, args: seq<Expr>)
      requires Valid()
      modifies this, body, body.data, strings, strings.data
      ensures Valid() && Kept()
      ensures Tables() == PrintCode(env, depth, old(Tables()), args).g
      ensures Emits(old(body.contents), body.contents, PrintCode(env, depth, old(Tables()), args).code)
    {
      hide Emits, ArgCode;
      ghost var b0 := body.contents;
      if args == [] || !args[0].Str? {
        EmitsNone(b0);
        return;
      }
      var off, n := InternString(args[0].text);
      if |args| == 1 {
        EmitTwo(off, n);
        ghost var b1 := body.contents;
        EmitCall(env.fPrint);
        EmitsThen(b0, b1, body.contents, [Const(off), Const(n)], [Instr.Call(env.fPrint)]);
        assert [Const(off), Const(n)] + [Instr.Call(env.fPrint)] == [Const(off), Const(n), Instr.Call(env.fPrint)];
        return;
      }
      ghost var g1 := Tables();
      EmitArgs(depth, args[1..]);
      ghost var b1, r := body.contents, ArgsCode(env, depth, g1, args[1..], 0);
      EmitTwo(off, n);
      ghost var b2 := body.contents;
      EmitTwo(ARGS_BASE, |args| - 1);
      ghost var b3 := body.contents;
      EmitCall(env.fPrintf);
      ghost var call := [Instr.Call(env.fPrintf)];
      EmitsThen(b0, b1, b2, r.code, [Const(off), Const(n)]);
      EmitsThen(b0, b2, b3, r.code + [Const(off), Const(n)], [Const(ARGS_BASE), Const(|args| - 1)]);
      EmitsThen(b0, b3, body.contents, r.code + [Const(off), Const(n)] + [Const(ARGS_BASE), Const(|args| - 1)], call);
      assert r.code + [Const(off), Const(n)] + [Const(ARGS_BASE), Const(|args| - 1)] + call ==
             r.code + [Const(off), Const(n), Const(ARGS_BASE), Const(|args| - 1), Instr.Call(env.fPrintf)];
    }

    // Each argument into its own eight-byte slot.
    method EmitArgs(depth: nat, args: seq<Expr>)
      requires Valid()
      modifies this, body, body.data, strings, strings.data
      ensures Valid() && Kept()
      ensures Tables() == ArgsCode(env, depth, old(Tables()), args, 0).g
      ensures Emits(old(body.contents), body.contents, ArgsCode(env, depth, old(Tables()), args, 0).code)
    {
      hide Emits, ArgCode;
      ghost var b0, g0 := body.contents, Tables();
      EmitsNone(b0);
      for j := 0 to |args|
        invariant Valid() && Kept()
        invariant Tables() == ArgsCode(env, depth, g0, args[..j], 0).g
        invariant Emits(b0, body.contents, ArgsCode(env, depth, g0, args[..j], 0).code)
      {
        ghost var b1 := body.contents;
        ghost var before := ArgsCode(env, depth, g0, args[..j], 0);
        ArgsSnoc(env, depth, g0, args[..j], args[j], 0);
        assert args[..j] + [args[j]] == args[..j + 1];
        EmitArg(depth, args[j], j);
        EmitsThen(b0, b1, body.contents, before.code, ArgCode(env, depth, before.g, args[j], j).code);
      }
      assert args[..|args|] == args;
    }

    // ---- statements ----

    method EmitElements(depth: nat, a: Arr, elements: seq<Expr>)
      requires Valid() && a.total >= 0
      modifies this, body, body.data, strings, strings.data
      ensures Valid() && Kept()
      ensures Tables() == ElementsCode(env, depth, old(Tables()), a, elements, 0).g
      ensures Emits(old(body.contents), body.contents, ElementsCode(env, depth, old(Tables()), a, elements, 0).code)
    {
      hide Emits, ValueCode, StoreOf;
      ghost var b0, g0 := body.contents, Tables();
      EmitsNone(b0);
      var k := 0;
      while k < |elements| && k < a.total
        invariant 0 <= k <= |elements| && k <= a.total
        invariant Valid() && Kept()
        invariant Tables() == ElementsCode(env, depth, g0, a, elements[..k], 0).g
        invariant Emits(b0, body.contents, ElementsCode(env, depth, g0, a, elements[..k], 0).code)
      {
        ghost var b1 := body.contents;
        ghost var before := ElementsCode(env, depth, g0, a, elements[..k], 0);
        ElementsSnoc(env, depth, g0, a, elements[..k], elements[k], 0);
        assert elements[..k] + [elements[k]] == elements[..k + 1];
        EmitElement(depth, a, elements[k], k);
        EmitsThen(b0, b1, body.contents, before.code,
                  [Const(a.base + k * a.size)] + ValueCode(env, depth, before.g, a.wt, elements[k]).code + [StoreOf(a)]);
        k := k + 1;
      }
      ElementsCut(env, depth, g0, a, elements, k, 0);
    }

    method EmitElement(depth: nat, a: Arr, e: Expr, k: nat)
      requires Valid()
      modifies this, body, body.data, strings, strings.data
      ensures Valid() && Kept()
      ensures Tables() == ValueCode(env, depth, old(Tables()), a.wt, e).g
      ensures Emits(old(body.contents), body.contents,
                    [Const(a.base + k * a.size)] + ValueCode(env, depth, old(Tables()), a.wt, e).code + [StoreOf(a)])
    {
      hide Emits, ValueCode, StoreOf;
      ghost var b0, g0 := body.contents, Tables();
      EmitConst(a.base + k * a.size);
      ghost var b1 := body.contents;
      EmitValue(depth, a.wt, e);
      ghost var b2, vc := body.contents, ValueCode(env, depth, g0, a.wt, e).code;
      EmitStore(a);
      EmitsThen(b0, b1, b2, [Const(a.base + k * a.size)], vc);
      EmitsThen(b0, b2, body.contents, [Const(a.base + k * a.size)] + vc, [StoreOf(a)]);
    }

    method EmitBind(depth: nat, name: string, declared: Option<HType>, value: Option<Expr>)
      requires Valid()
      modifies this, body, body.data, strings, strings.data
      ensures Valid() && Kept()
      ensures Tables() == BindCode(env, depth, old(Tables()), name, declared, value).g
      ensures Emits(old(body.contents), body.contents, BindCode(env, depth, old(Tables()), name, declared, value).code)
    {
      hide Emits, ExprCode, ElementsCode;
      ghost var b0, g0 := body.contents, Tables();
      EmitsNone(b0);
      var at := BindArrayType(declared, value);
      if at.Some? {
        var a := ArrayDecl(name, at.value);
        if a.Some? && value.Some? && value.value.ArrayLit? {
          assert a.value.total == TotalElems(at.value) && TotalElems(at.value) >= 0 by { TotalNonNegative(at.value); }
          EmitElements(depth, a.value, value.value.elements);
        }
        return;
      }
      var wt := if value.Some? then WType(value.value.ty) else I32;
      if value.Some? {
        EmitExpr(depth, value.value);
      } else {
        EmitConst(0);
      }
      ghost var b1, vc := body.contents, if value.Some? then ExprCode(env, depth, g0, value.value).code else [Const(0)];
      var i := LocalOf(name, wt);
      EmitIndexed(0x21, i, LocalSet(i));
      EmitsThen(b0, b1, body.contents, vc, [LocalSet(i)]);
    }

    method EmitAssign(depth: nat, target: Expr, rhs: Expr, op: Option<Op>)
      requires Valid()
      modifies this, body, body.data, strings, strings.data
      ensures Valid() && Kept()
      ensures Tables() == AssignCode(env, depth, old(Tables()), target, rhs, op).g
      ensures Emits(old(body.contents), body.contents, AssignCode(env, depth, old(Tables()), target, rhs, op).code)
    {
      hide Emits, ExprCode;
      EmitsNone(body.contents);
      match target
      case Index(base, indices, _) =>
        var a := ArrayOf(base);
        if a.Some? && |indices| == 1 {
          EmitAssignElem(depth, a.value, indices[0], rhs, op);
        }
      case Name(nm, ty) => EmitAssignVar(depth, nm, WType(ty), rhs, op);
      case _ =>
    }

    method EmitAssignVar(depth: nat, name: string, wt: ValType, rhs: Expr, op: Option<Op>)
      requires Valid()
      modifies this, body, body.data, strings, strings.data
      ensures Valid() && Kept()
      ensures var p := LocalIndex(old(Tables()), name, wt);
              var v := if op.Some? then ValueCode(env, depth, p.1, wt, rhs) else ExprCode(env, depth, p.1, rhs);
              && Tables() == v.g
              && Emits(old(body.contents), body.contents,
                       if op.Some? then [LocalGet(p.0)] + v.code + OpCode(wt, op.value) + [LocalSet(p.0)] else v.code + [LocalSet(p.0)])
    {
      hide Emits, ExprCode;
      ghost var b0 := body.contents;
      var i := LocalOf(name, wt);
      ghost var g1 := Tables();
      if op.None? {
        EmitExpr(depth, rhs);
        ghost var b1 := body.contents;
        EmitIndexed(0x21, i, LocalSet(i));
        EmitsThen(b0, b1, body.contents, ExprCode(env, depth, g1, rhs).code, [LocalSet(i)]);
      } else {
        EmitIndexed(0x20, i, LocalGet(i));
        ghost var b1 := body.contents;
        EmitValue(depth, wt, rhs);
        ghost var b2, vc := body.contents, ValueCode(env, depth, g1, wt, rhs).code;
        EmitCompoundOp(wt, op.value);
        ghost var b3 := body.contents;
        EmitIndexed(0x21, i, LocalSet(i));
        EmitsThen(b0, b1, b2, [LocalGet(i)], vc);
        EmitsThen(b0, b2, b3, [LocalGet(i)] + vc, OpCode(wt, op.value));
        EmitsThen(b0, b3, body.contents, [LocalGet(i)] + vc + OpCode(wt, op.value), [LocalSet(i)]);
      }
    }

    method EmitCompoundOp(wt: ValType, op: Op)
      requires Valid()
      modifies body, body.data
      ensures Valid() && Kept() && Tables() == old(Tables())
      ensures Emits(old(body.contents), body.contents, OpCode(wt, op))
    {
      hide Emits;
      EmitsNone(body.contents);
      var opc := if wt == F64 then BinopF(op) else BinopI(op);
      if opc != 0 {
        EmitOp(opc);
      }
    }

    method EmitAssignElem(depth: nat, a: Arr, idx: Expr, rhs: Expr, op: Option<Op>)
      requires Valid()
      modifies this, body, body.data, strings, strings.data
      ensures Valid() && Kept()
      ensures var ao := AddrCode(env, depth, old(Tables()), a, idx);
              var ao2 := if op.Some? then AddrCode(env, depth, ao.g, a, idx) else ao;
              var v := ValueCode(env, depth, ao2.g, a.wt, rhs);
              && Tables() == v.g
              && Emits(old(body.contents), body.contents,
                       if op.Some? then ao.code + ao2.code + [LoadOf(a)] + v.code + OpCode(a.wt, op.value) + [StoreOf(a)]
                       else ao.code + v.code + [StoreOf(a)])
    {
      hide Emits, ValueCode, AddrCode, LoadOf, StoreOf, OpCode;
      ghost var b0 := body.contents;
      ghost var ao := AddrCode(env, depth, Tables(), a, idx);
      EmitAddr(depth, a, idx);
      ghost var b1, code := body.contents, ao.code;
      if op.Some? {
        ghost var ao2 := AddrCode(env, depth, Tables(), a, idx);
        EmitAddr(depth, a, idx);
        ghost var b2 := body.contents;
        EmitLoad(a);
        EmitsThen(b0, b1, b2, ao.code, ao2.code);
        EmitsThen(b0, b2, body.contents, ao.code + ao2.code, [LoadOf(a)]);
        code := ao.code + ao2.code + [LoadOf(a)];
      }
      ghost var b3 := body.contents;
      ghost var vc := ValueCode(env, depth, Tables(), a.wt, rhs).code;
      EmitValue(depth, a.wt, rhs);
      ghost var b4 := body.contents;
      EmitsThen(b0, b3, b4, code, vc);
      code := code + vc;
      if op.Some? {
        EmitCompoundOp(a.wt, op.value);
        EmitsThen(b0, b4, body.contents, code, OpCode(a.wt, op.value));
        code := code + OpCode(a.wt, op.value);
      }
      ghost var b5 := body.contents;
      EmitStore(a);
      EmitsThen(b0, b5, body.contents, code, [StoreOf(a)]);
    }

    method EmitExit(depth: nat, cond: Option<Expr>)
      requires Valid()
      modifies this, body, body.data, strings, strings.data
      ensures Valid() && Kept()
      ensures Tables() == ExitCode(env, depth, old(Tables()), cond).g
      ensures Emits(old(body.contents), body.contents, ExitCode(env, depth, old(Tables()), cond).code)
    {
      hide Emits, ExprCode;
      ghost var b0, g0 := body.contents, Tables();
      EmitsNone(b0);
      if cond.Some? {
        EmitExpr(depth, cond.value);
        ghost var b1, vc := body.contents, ExprCode(env, depth, g0, cond.value).code;
        EmitOp(0x45);
        ghost var b2 := body.contents;
        EmitIndexed(0x0d, 1, BrIf(1));
        EmitsThen(b1, b2, body.contents, [Num(0x45)], [BrIf(1)]);
        EmitsThen(b0, b1, body.contents, vc, [Num(0x45)] + [BrIf(1)]);
        assert [Num(0x45)] + [BrIf(1)] == [Num(0x45), BrIf(1)];
      }
    }

    // Raw bytes of a block's opening or end.
    method Delimit(bytes: seq<byte>)
      requires Valid()
      modifies body, body.data
      ensures Valid() && Kept() && Tables() == old(Tables())
      ensures body.contents == old(body.contents) + bytes
    {
      body.Bytes(bytes);
    }

    method EmitFor(depth: nat, s: Stmt)
      requires Valid() && s.For?
      modifies this, body, body.data, strings, strings.data
      ensures Valid() && Kept()
      ensures Tables() == StmtCode(env, depth, old(Tables()), s).g
      ensures Emits(old(body.contents), body.contents, StmtCode(env, depth, old(Tables()), s).code)
      decreases s, 1
    {
      ForCodeIs(env, depth, Tables(), s);
      hide Emits, ExitCode, StmtsCode, OptStmtCode, EncSeq, EncInstr, StmtCode, LoopCode;
      ghost var b0 := body.contents;
      ghost var i := OptStmtCode(env, depth, Tables(), s.init);
      EmitOpt(depth, s.init);
      ghost var b1, g1 := body.contents, Tables();
      Delimit([0x02, 0x40]);
      ghost var b2 := body.contents;
      Delimit([0x03, 0x40]);
      ghost var b3 := body.contents;
      EmitLoop(depth, s);
      ghost var b7 := body.contents;
      Delimit([0x0b]);
      ghost var b8 := body.contents;
      Delimit([0x0b]);
      ghost var loop := LoopCode(env, depth, g1, s);
      LoopBytes(b1, b2, b3, b7, b8, body.contents, loop.code);
      EmitsThen(b0, b1, body.contents, i.code, [Block([Loop(loop.code)])]);
    }

    // Exit test, body, increment, jump back.
    method EmitLoop(depth: nat, s: Stmt)
      requires Valid() && s.For?
      modifies this, body, body.data, strings, strings.data
      ensures Valid() && Kept()
      ensures Tables() == LoopCode(env, depth, old(Tables()), s).g
      ensures Emits(old(body.contents), body.contents, LoopCode(env, depth, old(Tables()), s).code)
      decreases s, 0
    {
      hide Emits, ExitCode, StmtsCode, OptStmtCode, EncSeq;
      ghost var b3 := body.contents;
      ghost var x := ExitCode(env, depth, Tables(), s.cond);
      EmitExit(depth, s.cond);
      ghost var b4 := body.contents;
      ghost var b := StmtsCode(env, depth, Tables(), s.body);
      EmitStmts(depth, s.body);
      ghost var b5 := body.contents;
      ghost var n := OptStmtCode(env, depth, Tables(), s.incr);
      EmitOpt(depth, s.incr);
      ghost var b6 := body.contents;
      EmitIndexed(0x0c, 0, Br(0));
      EmitsThen(b3, b4, b5, x.code, b.code);
      EmitsThen(b3, b5, b6, x.code + b.code, n.code);
      EmitsThen(b3, b6, body.contents, x.code + b.code + n.code, [Br(0)]);
    }

    method EmitIf(depth: nat, s: Stmt)
      requires Valid() && s.Cond?
      modifies this, body, body.data, strings, strings.data
      ensures Valid() && Kept()
      ensures Tables() == StmtCode(env, depth, old(Tables()), s).g
      ensures Emits(old(body.contents), body.contents, StmtCode(env, depth, old(Tables()), s).code)
      decreases s, 0
    {
      hide Emits, ExprCode, StmtsCode, EncSeq, EncInstr;
      ghost var b0 := body.contents;
      ghost var c := ExprCode(env, depth, Tables(), s.test);
      EmitExpr(depth, s.test);
      ghost var b1 := body.contents;
      Delimit([0x04, 0x40]);
      ghost var b2 := body.contents;
      ghost var t := StmtsCode(env, depth, Tables(), s.thn);
      EmitStmts(depth, s.thn);
      ghost var b3 := body.contents;
      ghost var e := StmtsCode(env, depth, Tables(), s.els);
      EmitElse(depth, s.els);
      ghost var b5 := body.contents;
      Delimit([0x0b]);
      IfBytes(b1, b2, b3, if s.els == [] then b3 else b3 + [0x05], b5, body.contents, t.code, s.els != [], e.code);
      EmitsThen(b0, b1, body.contents, c.code, [If(t.code, s.els != [], e.code)]);
    }

    // The else part, if there is one.
    method EmitElse(depth: nat, els: seq<Stmt>)
      requires Valid()
      modifies this, body, body.data, strings, strings.data
      ensures Valid() && Kept()
      ensures Tables() == StmtsCode(env, depth, old(Tables()), els).g
      ensures if els == [] then body.contents == old(body.contents)
              else Emits(old(body.contents) + [0x05], body.contents, StmtsCode(env, depth, old(Tables()), els).code)
      ensures els == [] ==> StmtsCode(env, depth, old(Tables()), els).code == []
      decreases els, 9
    {
      hide Emits, StmtsCode;
      if els != [] {
        Delimit([0x05]);
        EmitStmts(depth, els);
      } else {
        NoCode(env, depth, Tables(), els);
      }
    }

    method EmitOpt(depth: nat, s: Option<Stmt>)
      requires Valid()
      modifies this, body, body.data, strings, strings.data
      ensures Valid() && Kept()
      ensures Tables() == OptStmtCode(env, depth, old(Tables()), s).g
      ensures Emits(old(body.contents), body.contents, OptStmtCode(env, depth, old(Tables()), s).code)
      decreases s, 3
    {
      hide Emits;
      EmitsNone(body.contents);
      if s.Some? {
        EmitStmt(depth, s.value);
      }
    }

    method EmitStmt(depth: nat, s: Stmt)
      requires Valid()
      modifies this, body, body.data, strings, strings.data
      ensures Valid() && Kept()
      ensures Tables() == StmtCode(env, depth, old(Tables()), s).g
      ensures Emits(old(body.contents), body.contents, StmtCode(env, depth, old(Tables()), s).code)
      decreases s, 2
    {
      hide Emits, BindCode, AssignCode, PrintCode;
      EmitsNone(body.contents);
      match s
      case Bind(name, declared, value) => EmitBind(depth, name, declared, value);
      case Assign(target, rhs, op) => EmitAssign(depth, target, rhs, op);
      case For(_, _, _, _, _) => EmitFor(depth, s);
      case Cond(_, _, _) => EmitIf(depth, s);
      case Eff(expr) =>
        var e := UnwrapCall(expr);
        if IsPrintCall(e) {
          EmitPrint(depth, e.args);
        }
      case Skip =>
    }

    method UnwrapCall(expr: Expr) returns (e: Expr)
      ensures e == Unwrap(expr)
    {
      e := expr;
      while e.Call? && e.callee.Call?
        invariant Unwrap(e) == Unwrap(expr)
        decreases e
      {
        e := e.callee;
      }
    }

    method EmitStmts(depth: nat, ss: seq<Stmt>)
      requires Valid()
      modifies this, body, body.data, strings, strings.data
      ensures Valid() && Kept()
      ensures Tables() == StmtsCode(env, depth, old(Tables()), ss).g
      ensures Emits(old(body.contents), body.contents, StmtsCode(env, depth, old(Tables()), ss).code)
      decreases ss, 0
    {
      hide Emits, StmtCode;
      ghost var b0, g0 := body.contents, Tables();
      EmitsNone(b0);
      for j := 0 to |ss|
        invariant Valid() && Kept()
        invariant Tables() == StmtsCode(env, depth, g0, ss[..j]).g
        invariant Emits(b0, body.contents, StmtsCode(env, depth, g0, ss[..j]).code)
      {
        ghost var b1 := body.contents;
        ghost var before := StmtsCode(env, depth, g0, ss[..j]);
        StmtsSnoc(env, depth, g0, ss[..j], ss[j]);
        assert ss[..j] + [ss[j]] == ss[..j + 1];
        EmitStmt(depth, ss[j]);
        EmitsThen(b0, b1, body.contents, before.code, StmtCode(env, depth, before.g, ss[j]).code);
      }
      assert ss[..|ss|] == ss;
    }
  }

  lemma {:induction false} TotalNonNegative(t: HType)
    ensures TotalElems(t) >= 0
  {
    match t
    case TShaped(e, rank) =>
      TotalNonNegative(e);
      var n := if rank > 0 then rank else 1;
      assert n * TotalElems(e) >= 0;
    case TArray(e) => TotalNonNegative(e);
    case _ =>
  }

  lemma NoCode(env: Env, depth: nat, g: Gen, ss: seq<Stmt>)
    requires ss == []
    ensures StmtsCode(env, depth, g, ss) == Out([], g)
  {
  }

  lemma BinaryCodeIs(env: Env, depth: nat, g: Gen, e: Expr)
    requires e.Binary?
    ensures var wt := if WType(e.left.ty) == F64 || WType(e.right.ty) == F64 then F64 else I32;
            var opc := if wt == F64 then BinopF(e.op) else BinopI(e.op);
            var l := ValueCode(env, depth, g, wt, e.left);
            var r := ValueCode(env, depth, l.g, wt, e.right);
            ExprCode(env, depth, g, e) == if opc == 0 then Out([Const(0)], g) else Out(l.code + r.code + [Num(opc)], r.g)
  {
  }

  lemma ForCodeIs(env: Env, depth: nat, g: Gen, s: Stmt)
    requires s.For?
    ensures var i := OptStmtCode(env, depth, g, s.init);
            var loop := LoopCode(env, depth, i.g, s);
            StmtCode(env, depth, g, s) == Out(i.code + [Block([Loop(loop.code)])], loop.g)
  {
    hide ExitCode, StmtsCode, OptStmtCode;
  }

  // block, loop, body, end, end
  lemma LoopBytes(b1: seq<byte>, b2: seq<byte>, b3: seq<byte>, b7: seq<byte>, b8: seq<byte>, b9: seq<byte>, code: seq<Instr>)
    requires b2 == b1 + [0x02, 0x40] && b3 == b2 + [0x03, 0x40] && Emits(b3, b7, code)
    requires b8 == b7 + [0x0b] && b9 == b8 + [0x0b]
    ensures Emits(b1, b9, [Block([Loop(code)])])
  {
    EmitsBlock(b2, [0x03, 0x40], b3, b7, [0x0b], b8, code, Loop(code));
    EmitsBlock(b1, [0x02, 0x40], b2, b8, [0x0b], b9, [Loop(code)], Block([Loop(code)]));
  }

  // if, body, else and its body if there is one, end
  lemma IfBytes(b1: seq<byte>, b2: seq<byte>, b3: seq<byte>, b4: seq<byte>, b5: seq<byte>, b6: seq<byte>,
                t: seq<Instr>, hasElse: bool, e: seq<Instr>)
    requires b2 == b1 + [0x04, 0x40] && Emits(b2, b3, t)
    requires if hasElse then b4 == b3 + [0x05] && Emits(b4, b5, e) else b5 == b3
    requires b6 == b5 + [0x0b]
    ensures Emits(b1, b6, [If(t, hasElse, e)])
  {
    if hasElse {
      assert b6 == b1 + ([0x04, 0x40] + EncSeq(t) + ([0x05] + EncSeq(e)) + [0x0b]);
    } else {
      assert b6 == b1 + ([0x04, 0x40] + EncSeq(t) + [] + [0x0b]);
    }
    EmitsOne(b1, b6, If(t, hasElse, e));
  }
}

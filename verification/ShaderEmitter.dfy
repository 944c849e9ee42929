// The emitter itself: a growing text, a flag that is cleared when something cannot be lowered, and the variables
// bound so far. While the flag stands, the text is the print of the lowering.
module ShaderEmitter {
  import opened Bytes
  import opened ShaderLang
  import opened ShaderLower
  import opened ShaderText
  import opened ShaderKernel
  import H = Hir

  class Emitter {
    const k: Kernel
    var toks: seq<Tok>
    var ok: bool
    var names: seq<string>

    constructor (k: Kernel)
      ensures this.k == k && toks == [] && ok && names == []
    {
      this.k := k;
      toks, ok, names := [], true, [];
    }

    // What emitting an expression comes to: success exactly when it has a lowering, and then its text.
    twostate predicate Wrote(new g: Option<GExpr>)
      reads this
    {
      && names == old(names)
      && (ok <==> old(ok) && g.Some?)
      && (ok ==> toks == old(toks) + PrintE(k.kind, g.value))
    }

    method Put(ts: seq<Tok>)
      modifies this`toks
      ensures toks == old(toks) + ts
    {
      toks := toks + ts;
    }

    method IsColumn(name: string) returns (r: bool)
      ensures r == (name in k.cols)
    {
      for i := 0 to |k.cols|
        invariant forall j :: 0 <= j < i ==> k.cols[j] != name
      {
        if k.cols[i] == name {
          return true;
        }
      }
      return false;
    }

    method IsLocal(name: string) returns (r: bool)
      ensures r == (name in names)
    {
      for i := 0 to |names|
        invariant forall j :: 0 <= j < i ==> names[j] != name
      {
        if names[i] == name {
          return true;
        }
      }
      return false;
    }

    method Constant(name: string) returns (r: Option<string>)
      ensures r == ConstLexeme(k.consts, name)
    {
      var i := 0;
      while i < |k.consts|
        invariant i <= |k.consts|
        invariant ConstLexeme(k.consts, name) == ConstLexeme(k.consts[i..], name)
      {
        if k.consts[i].0 == name {
          return k.consts[i].1;
        }
        assert k.consts[i..][1..] == k.consts[i + 1..];
        i := i + 1;
      }
      return None;
    }

    method EmitLexeme(lx: Option<string>)
      modifies this
      ensures Wrote(if old(ok) && lx.Some? then LowerLit(k, lx.value) else None)
    {
      if !ok || lx.None? {
        ok := false;
        return;
      }
      var frac := Fractional(lx.value);
      if k.kind == FloatKind {
        Put([Num(if frac then lx.value else lx.value + ".0")]);
      } else if frac {
        ok := false;
      } else {
        Put([Num(lx.value)]);
      }
    }

    method EmitExpr(e: KExpr, bools: bool)
      modifies this
      ensures Wrote(LowerExpr(k, old(names), e, bools))
      decreases e, 1
    {
      if !ok {
        return;
      }
      match e
      case KName(n) =>
        var col := IsColumn(n);
        var loc := IsLocal(n);
        if col {
          Put([Word(n), Sym("["), Word("i"), Sym("]")]);
        } else if loc {
          Put([Word(n)]);
        } else {
          var lx := Constant(n);
          EmitLexeme(lx);
        }
      case KLit(lx) => EmitLexeme(Some(lx));
      case KUnary(_, x) => EmitUnary(e, x);
      case KBinary(op, l, r) => EmitBinary(op, l, r, bools);
      case KCall(fn, args) =>
        if fn == "select" && |args| == 3 {
          EmitSelect(args);
        } else if fn == "sqrt" && |args| == 1 {
          EmitSqrt(args);
        } else {
          ok := false;
        }
      case KOther => ok := false;
    }

    method EmitUnary(e: KExpr, x: KExpr)
      requires ok && e.KUnary? && x == e.operand
      modifies this
      ensures Wrote(LowerExpr(k, old(names), e, false))
      decreases e, 0
    {
      hide PrintE;
      ghost var t0 := toks;
      Put([OPEN, Sym("-"), OPEN]);
      EmitExpr(x, false);
      Put([CLOSE, CLOSE]);
      if ok {
        NegText(k.kind, LowerExpr(k, names, x, false).value, t0);
      }
    }

    method EmitSqrt(args: seq<KExpr>)
      requires ok && |args| == 1
      modifies this
      ensures Wrote(LowerExpr(k, old(names), KCall("sqrt", args), false))
      decreases args
    {
      hide PrintE;
      ghost var t0 := toks;
      Put([Word("sqrt"), OPEN]);
      EmitExpr(args[0], false);
      Put([CLOSE]);
      if ok {
        SqrtText(k.kind, LowerExpr(k, names, args[0], false).value, t0);
      }
    }

    method EmitBinary(op: H.Op, l: KExpr, r: KExpr, bools: bool)
      requires ok
      modifies this
      ensures Wrote(LowerExpr(k, old(names), KBinary(op, l, r), bools))
      decreases KBinary(op, l, r), 0, 1
    {
      hide PrintE, OpAllowed;
      if !OpAllowed(k, op, r) {
        ok := false;
        return;
      }
      ghost var t0 := toks;
      var cast := Compares(op) && !bools;
      if cast {
        Put([Word(TypeWord(k.kind)), OPEN]);
      }
      EmitBare(op, l, r);
      if cast {
        Put([CLOSE]);
      }
      if ok {
        CastText(k.kind, GBin(op, LowerExpr(k, names, l, false).value, LowerExpr(k, names, r, false).value), t0);
      }
    }

    // Both operands and the operator in parentheses.
    method EmitBare(op: H.Op, l: KExpr, r: KExpr)
      requires ok
      modifies this
      ensures var a, b := LowerExpr(k, old(names), l, false), LowerExpr(k, old(names), r, false);
              Wrote(if a.Some? && b.Some? then Some(GBin(op, a.value, b.value)) else None)
      decreases KBinary(op, l, r), 0, 0
    {
      hide PrintE, LowerExpr, OpText;
      ghost var t0 := toks;
      ghost var a, b := LowerExpr(k, names, l, false), LowerExpr(k, names, r, false);
      Put([OPEN]);
      EmitExpr(l, false);
      ghost var t1 := toks;
      assert ok ==> a.Some? && t1 == t0 + [OPEN] + PrintE(k.kind, a.value);
      Put([Sym(OpText(op))]);
      EmitExpr(r, false);
      ghost var t2 := toks;
      assert ok ==> b.Some? && t2 == t1 + [Sym(OpText(op))] + PrintE(k.kind, b.value);
      Put([CLOSE]);
      if ok {
        BinaryText(k.kind, op, a.value, b.value, t0, t1, t2);
      }
    }

    method EmitSelect(args: seq<KExpr>)
      requires ok && |args| == 3
      modifies this
      ensures Wrote(LowerExpr(k, old(names), KCall("select", args), false))
      decreases args
    {
      hide PrintE;
      ghost var t0 := toks;
      Put([OPEN, OPEN]);
      EmitExpr(args[0], true);
      Put([CLOSE, Sym("?"), OPEN]);
      EmitExpr(args[1], false);
      Put([CLOSE, Sym(":"), OPEN]);
      EmitExpr(args[2], false);
      Put([CLOSE, CLOSE]);
      if ok {
        SelectText(k.kind, LowerExpr(k, names, args[0], true).value, LowerExpr(k, names, args[1], false).value,
                   LowerExpr(k, names, args[2], false).value, t0);
      }
    }

    // ---- statements ----

    // Emitting statements: success exactly when they have a lowering, and then its text and its variables.
    twostate predicate WroteStmts(new l: Option<Lowered>)
      reads this
    {
      && (ok <==> old(ok) && l.Some?)
      && (ok ==> toks == old(toks) + PrintAll(k.kind, l.value.code) && names == l.value.names)
    }

    method EmitAssign(target: Option<string>, op: Option<H.Op>, value: KExpr)
      requires ok
      modifies this
      ensures WroteStmts(LowerStmt(k, old(names), KAssign(target, op, value)))
    {
      hide PrintE, LowerExpr;
      ghost var t0 := toks;
      if target.None? {
        ok := false;
        return;
      }
      var col := IsColumn(target.value);
      if !col {
        ok := false;
        return;
      }
      Put(Target(target.value));
      if op.Some? {
        if !OpAllowed(k, op.value, value) || Compares(op.value) {
          ok := false;
          return;
        }
        Put([Word(target.value), Sym("["), Word("i"), Sym("]"), Sym(OpText(op.value)), OPEN]);
        EmitExpr(value, false);
        Put([CLOSE]);
      } else {
        EmitExpr(value, false);
      }
      Put([Sym(";")]);
      if ok {
        AssignText(k.kind, target.value, op, LowerExpr(k, names, value, false).value, t0);
      }
    }

    method EmitBind(ns: seq<string>, init: Option<KExpr>)
      requires ok
      modifies this
      ensures WroteStmts(LowerStmt(k, old(names), KBind(ns, init)))
    {
      hide PrintE, LowerExpr;
      ghost var t0 := toks;
      if |ns| != 1 || init.None? || |names| >= MAX_LOCALS {
        ok := false;
        return;
      }
      Put([Word(TypeWord(k.kind)), Word(ns[0]), Sym("=")]);
      EmitExpr(init.value, false);
      Put([Sym(";")]);
      if ok {
        DeclText(k.kind, ns[0], LowerExpr(k, names, init.value, false).value, t0);
      }
      names := names + [ns[0]];
    }

    method EmitIf(s: KStmt)
      requires ok && s.KIf?
      modifies this
      ensures WroteStmts(LowerStmt(k, old(names), s))
      decreases s, 0
    {
      hide PrintE, PrintAll, LowerExpr, LowerStmts;
      ghost var t0, n0 := toks, names;
      Put([Word("if"), OPEN]);
      EmitExpr(s.cond, true);
      Put([CLOSE, Sym("{")]);
      EmitStmts(s.thn);
      ghost var n1 := names;
      Put([Sym("}")]);
      if s.els != [] {
        Put([Word("else"), Sym("{")]);
        EmitStmts(s.els);
        Put([Sym("}")]);
      } else {
        NothingLowers(k, names);
      }
      if ok {
        var gt := LowerStmts(k, n0, s.thn).value;
        var ge := LowerStmts(k, gt.names, s.els).value;
        IfText(k.kind, LowerExpr(k, n0, s.cond, true).value, gt.code, s.els != [], ge.code, t0);
      }
    }

    method EmitStmt(s: KStmt)
      requires ok
      modifies this
      ensures WroteStmts(LowerStmt(k, old(names), s))
      decreases s, 1
    {
      hide LowerExpr, PrintAll;
      match s
      case KAssign(t, op, v) => EmitAssign(t, op, v);
      case KBlock(ss) => EmitStmts(ss);
      case KBind(ns, init) => EmitBind(ns, init);
      case KIf(_, _, _) => EmitIf(s);
      case KOtherStmt => ok := false;
    }

    // Statements in order, as long as nothing has failed.
    method EmitStmts(ss: seq<KStmt>)
      modifies this
      ensures WroteStmts(LowerStmts(k, old(names), ss))
      decreases ss, 0
    {
      hide LowerStmt, PrintS;
      ghost var t0, n0, ok0 := toks, names, ok;
      assert t0 + PrintAll(k.kind, []) == t0;
      var i := 0;
      while i < |ss| && ok
        invariant i <= |ss|
        invariant ok <==> ok0 && LowerStmts(k, n0, ss[..i]).Some?
        invariant ok ==> toks == t0 + PrintAll(k.kind, LowerStmts(k, n0, ss[..i]).value.code)
                         && names == LowerStmts(k, n0, ss[..i]).value.names
        decreases |ss| - i
      {
        ghost var done := LowerStmts(k, n0, ss[..i]).value;
        LowerSnoc(k, n0, ss[..i], ss[i]);
        assert ss[..i] + [ss[i]] == ss[..i + 1];
        EmitStmt(ss[i]);
        if ok {
          PrintAppend(k.kind, done.code, LowerStmt(k, done.names, ss[i]).value.code);
        }
        i := i + 1;
      }
      if !ok && ok0 {
        LowerPrefix(k, n0, ss, i);
      } else {
        assert ok ==> ss[..i] == ss;
      }
    }

    // The body of the shader, if the map can be lowered and its body is not empty. GLSL's grammar reads the text to
    // its end, as the lowered statements.
    method BuildBody(ss: seq<KStmt>) returns (r: Option<seq<Tok>>)
      requires toks == [] && ok && names == []
      modifies this
      ensures var l := LowerStmts(k, [], ss);
              r == if l.Some? && PrintAll(k.kind, l.value.code) != [] then Some(PrintAll(k.kind, l.value.code)) else None
      ensures r.Some? && WordsOk(k, LowerStmts(k, [], ss).value.names) ==>
                ReadAll(k.kind, r.value + [Sym("}")]) == Some((PlainAll(LowerStmts(k, [], ss).value.code), []))
    {
      hide LowerStmts, ReadAll, WordsOk, PlainAll;
      EmitStmts(ss);
      assert ok ==> [] + PrintAll(k.kind, LowerStmts(k, [], ss).value.code) == PrintAll(k.kind, LowerStmts(k, [], ss).value.code);
      if !ok || |toks| == 0 {
        return None;
      }
      if WordsOk(k, names) {
        TextIsCode(k, ss);
      }
      return Some(toks);
    }
  }

  lemma BinaryText(kind: Kind, op: H.Op, l: GExpr, r: GExpr, t0: seq<Tok>, t1: seq<Tok>, t2: seq<Tok>)
    requires t1 == t0 + [OPEN] + PrintE(kind, l) && t2 == t1 + [Sym(OpText(op))] + PrintE(kind, r)
    ensures t2 + [CLOSE] == t0 + PrintE(kind, GBin(op, l, r))
  {
  }

  lemma CastText(kind: Kind, g: GExpr, t0: seq<Tok>)
    ensures t0 + [Word(TypeWord(kind)), OPEN] + PrintE(kind, g) + [CLOSE] == t0 + PrintE(kind, GCast(g))
  {
  }

  lemma SelectText(kind: Kind, c: GExpr, a: GExpr, b: GExpr, t0: seq<Tok>)
    ensures t0 + [OPEN, OPEN] + PrintE(kind, c) + [CLOSE, Sym("?"), OPEN] + PrintE(kind, a) + [CLOSE, Sym(":"), OPEN]
            + PrintE(kind, b) + [CLOSE, CLOSE] == t0 + PrintE(kind, GSel(c, a, b))
  {
    var x, y, z := PrintE(kind, c), PrintE(kind, a), PrintE(kind, b);
    assert PrintE(kind, GSel(c, a, b)) ==
           [OPEN, OPEN] + x + [CLOSE, Sym("?"), OPEN] + y + [CLOSE, Sym(":"), OPEN] + z + [CLOSE, CLOSE];
    hide PrintE;
    Regroup(t0, [OPEN, OPEN], x, [CLOSE, Sym("?"), OPEN], y, [CLOSE, Sym(":"), OPEN], z, [CLOSE, CLOSE]);
    Regroup([OPEN, OPEN], x, [CLOSE, Sym("?"), OPEN], y, [CLOSE, Sym(":"), OPEN], z, [CLOSE, CLOSE], []);
    assert [CLOSE, CLOSE] + [] == [CLOSE, CLOSE];
    assert ([OPEN, OPEN] + x + [CLOSE, Sym("?"), OPEN] + y + [CLOSE, Sym(":"), OPEN] + z + [CLOSE, CLOSE]) + [] ==
           [OPEN, OPEN] + x + [CLOSE, Sym("?"), OPEN] + y + [CLOSE, Sym(":"), OPEN] + z + [CLOSE, CLOSE];
  }

  lemma NegText(kind: Kind, g: GExpr, t0: seq<Tok>)
    ensures t0 + [OPEN, Sym("-"), OPEN] + PrintE(kind, g) + [CLOSE, CLOSE] == t0 + PrintE(kind, GNeg(g))
  {
  }

  lemma SqrtText(kind: Kind, g: GExpr, t0: seq<Tok>)
    ensures t0 + [Word("sqrt"), OPEN] + PrintE(kind, g) + [CLOSE] == t0 + PrintE(kind, GSqrt(g))
  {
  }

  lemma OneText(kind: Kind, s: GStmt)
    ensures PrintAll(kind, [s]) == PrintS(kind, s)
  {
    assert [s][1..] == [];
    assert PrintAll(kind, [s]) == PrintS(kind, s) + PrintAll(kind, []);
  }

  lemma AssignText(kind: Kind, c: string, op: Option<H.Op>, g: GExpr, t0: seq<Tok>)
    ensures PrintAll(kind, [GAssign(c, op, g)]) == PrintS(kind, GAssign(c, op, g))
    ensures op.None? ==> t0 + Target(c) + PrintE(kind, g) + [Sym(";")] == t0 + PrintS(kind, GAssign(c, op, g))
    ensures op.Some? ==>
              t0 + Target(c) + [Word(c), Sym("["), Word("i"), Sym("]"), Sym(OpText(op.value)), OPEN] + PrintE(kind, g) + [CLOSE] + [Sym(";")] ==
              t0 + PrintS(kind, GAssign(c, op, g))
  {
    OneText(kind, GAssign(c, op, g));
    var p, last := PrintE(kind, g), [Sym(";")];
    hide PrintE;
    if op.None? {
      assert PrintS(kind, GAssign(c, op, g)) == Target(c) + p + last;
      hide PrintS;
      Assoc(t0, Target(c), p);
      Assoc(t0, Target(c) + p, last);
    } else {
      var mid := [Word(c), Sym("["), Word("i"), Sym("]"), Sym(OpText(op.value)), OPEN];
      assert PrintS(kind, GAssign(c, op, g)) == Target(c) + mid + p + [CLOSE] + last;
      hide PrintS;
      Assoc(t0, Target(c), mid);
      Assoc(t0, Target(c) + mid, p);
      Assoc(t0, Target(c) + mid + p, [CLOSE]);
      Assoc(t0, Target(c) + mid + p + [CLOSE], last);
    }
  }

  lemma DeclText(kind: Kind, x: string, g: GExpr, t0: seq<Tok>)
    ensures t0 + [Word(TypeWord(kind)), Word(x), Sym("=")] + PrintE(kind, g) + [Sym(";")] == t0 + PrintAll(kind, [GDecl(x, g)])
  {
    OneText(kind, GDecl(x, g));
  }

  lemma IfText(kind: Kind, c: GExpr, t: seq<GStmt>, hasElse: bool, e: seq<GStmt>, t0: seq<Tok>)
    ensures var head := t0 + [Word("if"), OPEN] + PrintE(kind, c) + [CLOSE, Sym("{")] + PrintAll(kind, t) + [Sym("}")];
            (if hasElse then head + [Word("else"), Sym("{")] + PrintAll(kind, e) + [Sym("}")] else head) ==
            t0 + PrintAll(kind, [GIf(c, t, hasElse, e)])
  {
    var x, y, z := PrintE(kind, c), PrintAll(kind, t), PrintAll(kind, e);
    var a, b, r, f := [Word("if"), OPEN], [CLOSE, Sym("{")], [Sym("}")], [Word("else"), Sym("{")];
    OneText(kind, GIf(c, t, hasElse, e));
    var whole := a + x + b + y + r;
    assert PrintS(kind, GIf(c, t, hasElse, e)) == whole + (if hasElse then f + z + r else []);
    hide PrintE, PrintAll, PrintS;
    Assoc(t0, a, x);
    Assoc(t0, a + x, b);
    Assoc(t0, a + x + b, y);
    Assoc(t0, a + x + b + y, r);
    if hasElse {
      Assoc(t0, whole, f);
      Assoc(t0, whole + f, z);
      Assoc(t0, whole + f + z, r);
      Assoc(whole + f, z, r);
      Assoc(whole, f, z + r);
      Assoc(f, z, r);
    } else {
      assert whole + [] == whole;
    }
  }

  lemma NothingLowers(k: Kernel, names: seq<string>)
    ensures LowerStmts(k, names, []) == Some(Lowered([], names))
  {
  }

  lemma {:induction false} LowerSnoc(k: Kernel, names: seq<string>, ss: seq<KStmt>, s: KStmt)
    ensures LowerStmts(k, names, ss + [s]) ==
            match LowerStmts(k, names, ss)
            case None => None
            case Some(a) =>
              match LowerStmt(k, a.names, s) case None => None case Some(b) => Some(Lowered(a.code + b.code, b.names))
    decreases |ss|
  {
    hide LowerStmt;
    if ss == [] {
      assert ss + [s] == [s] && [s][1..] == [];
      var b := LowerStmt(k, names, s);
      if b.Some? {
        NothingLowers(k, b.value.names);
        assert b.value.code + [] == b.value.code && [] + b.value.code == b.value.code;
      }
    } else {
      assert (ss + [s])[1..] == ss[1..] + [s];
      var x := LowerStmt(k, names, ss[0]);
      if x.Some? {
        LowerSnoc(k, x.value.names, ss[1..], s);
        var a := LowerStmts(k, x.value.names, ss[1..]);
        if a.Some? {
          var b := LowerStmt(k, a.value.names, s);
          if b.Some? {
            assert x.value.code + (a.value.code + b.value.code) == (x.value.code + a.value.code) + b.value.code;
          }
        }
      }
    }
  }

  // A list whose first statements have no lowering has none.
  lemma {:induction false} LowerPrefix(k: Kernel, names: seq<string>, ss: seq<KStmt>, i: nat)
    requires i <= |ss| && LowerStmts(k, names, ss[..i]).None?
    ensures LowerStmts(k, names, ss).None?
    decreases i
  {
    hide LowerStmt;
    if i > 0 {
      assert ss[..i][0] == ss[0] && ss[..i][1..] == ss[1..][..i - 1];
      var x := LowerStmt(k, names, ss[0]);
      if x.Some? {
        LowerPrefix(k, x.value.names, ss[1..], i - 1);
      }
    }
  }
}

// A match over integers, characters or enum cases turned into a binding and a chain of comparisons: what the match
// means, what the lowerer builds, and exactly when the two agree.
module MatchDesugar {
  import opened Bytes
  import opened Values
  import opened IntLiterals

  // Tokens of a pattern; the arm's colon ends it.
  datatype PTok = Number(text: string) | CharLit(text: string) | Text(text: string) | Ident(text: string) | Other

  // A lexeme to compare with; `_`; or a form the lowerer passes over.
  datatype Pat = Literal(lexeme: string) | Wild | Unknown

  datatype Arm = Arm(toks: seq<PTok>, body: seq<int>)

  // What has happened: the scrutinee was evaluated, a body statement was run.
  datatype Event = Scrutinee(v: int) | Statement(id: int)

  // Values of lexemes, the enum cases with theirs, and what the scrutinee is worth after what has happened so far.
  datatype World = World(value: string -> int, cases: map<string, int>, scrutinee: seq<Event> -> int)

  // A case's value, printed in decimal, is read back.
  predicate ReadsCases(w: World) { forall t :: t in w.cases ==> w.value(PrintD(w.cases[t])) == w.cases[t] }

  // So it is for 32-bit cases and the language's own reading of integers.
  lemma LanguageReadsCases(w: World)
    requires forall lx :: IntLit(lx).Some? ==> w.value(lx) == IntLit(lx).value
    requires forall t :: t in w.cases ==> InI32(w.cases[t])
    ensures ReadsCases(w)
  {
    forall t | t in w.cases
      ensures w.value(PrintD(w.cases[t])) == w.cases[t]
    {
      FoldedConstantsRoundTrip(w.cases[t]);
    }
  }

  // ---- patterns ----

  // The last literal or identifier counts: in `Enum.case` that is the case.
  function LastTok(toks: seq<PTok>): Option<PTok> {
    if toks == [] then None
    else if toks[|toks| - 1] != Other then Some(toks[|toks| - 1]) else LastTok(toks[..|toks| - 1])
  }

  function PatOf(w: World, toks: seq<PTok>): Pat {
    match LastTok(toks)
    case Some(Number(t)) => Literal(t)
    case Some(CharLit(t)) => Literal(t)
    case Some(Ident(t)) => if t == "_" then Wild else if t in w.cases then Literal(PrintD(w.cases[t])) else Unknown
    case _ => Unknown
  }

  method ScanPattern(w: World, toks: seq<PTok>) returns (p: Pat)
    ensures p == PatOf(w, toks)
  {
    var last: Option<PTok> := None;
    for c := 0 to |toks|
      invariant last == LastTok(toks[..c])
    {
      assert toks[..c + 1][..c] == toks[..c];
      if toks[c] != Other {
        last := Some(toks[c]);
      }
    }
    assert toks[..|toks|] == toks;
    match last
    case Some(Number(t)) => return Literal(t);
    case Some(CharLit(t)) => return Literal(t);
    case Some(Ident(t)) =>
      if t == "_" {
        return Wild;
      } else if t in w.cases {
        return Literal(PrintD(w.cases[t]));
      }
      return Unknown;
    case _ => return Unknown;
  }

  // A sign in front of a number is not looked at.
  lemma SignIsIgnored(w: World, t: string)
    ensures PatOf(w, [Other, Number(t)]) == PatOf(w, [Number(t)])
  {
  }

  // ---- what a match means ----

  // What a pattern stands for: a literal's value, a case's value.
  function PatValue(w: World, toks: seq<PTok>): Option<int> {
    match LastTok(toks)
    case Some(Number(t)) => Some(w.value(t))
    case Some(CharLit(t)) => Some(w.value(t))
    case Some(Ident(t)) => if t != "_" && t in w.cases then Some(w.cases[t]) else None
    case _ => None
  }

  predicate Matches(w: World, a: Arm, v: int) { PatValue(w, a.toks) == Some(v) }

  lemma {:induction false} LastIs(front: seq<PTok>, t: PTok, after: seq<PTok>)
    requires t != Other && forall i :: 0 <= i < |after| ==> after[i] == Other
    ensures LastTok(front + [t] + after) == Some(t)
    decreases |after|
  {
    var toks := front + [t] + after;
    if after == [] {
      assert toks == front + [t];
    } else {
      LastIs(front, t, after[..|after| - 1]);
      assert toks[..|toks| - 1] == front + [t] + after[..|after| - 1];
      assert toks[|toks| - 1] == after[|after| - 1];
    }
  }

  // For every pattern: whatever stands in front, its last number, character, text or name counts. A number or character is
  // compared as it is written and stands for its value; the name of a case is compared as the case's number in decimal and
  // stands for it; `_` is the wildcard; a text and any other name are passed over.
  lemma PatternExact(w: World, front: seq<PTok>, t: PTok, after: seq<PTok>)
    requires t != Other && forall i :: 0 <= i < |after| ==> after[i] == Other
    ensures var toks := front + [t] + after;
            match t
            case Number(lx) => PatOf(w, toks) == Literal(lx) && PatValue(w, toks) == Some(w.value(lx))
            case CharLit(lx) => PatOf(w, toks) == Literal(lx) && PatValue(w, toks) == Some(w.value(lx))
            case Text(_) => PatOf(w, toks) == Unknown && PatValue(w, toks) == None
            case Ident(x) =>
              if x == "_" then PatOf(w, toks) == Wild && PatValue(w, toks) == None
              else if x in w.cases then PatOf(w, toks) == Literal(PrintD(w.cases[x])) && PatValue(w, toks) == Some(w.cases[x])
              else PatOf(w, toks) == Unknown && PatValue(w, toks) == None
            case Other => true
  {
    LastIs(front, t, after);
  }

  // The case of an enum, written with the enum's name or without.
  lemma CasePattern(w: World, enumName: string, c: string)
    requires c in w.cases && c != "_"
    ensures PatValue(w, [Ident(enumName), Other, Ident(c)]) == Some(w.cases[c]) == PatValue(w, [Ident(c)])
  {
    PatternExact(w, [Ident(enumName), Other], Ident(c), []);
    assert [Ident(enumName), Other] + [Ident(c)] + [] == [Ident(enumName), Other, Ident(c)];
    PatternExact(w, [], Ident(c), []);
    assert [] + [Ident(c)] + [] == [Ident(c)];
  }

  // The first arm that equals the value, wherever the wildcard stands.
  function FirstMatch(w: World, arms: seq<Arm>, v: int): (r: Option<nat>)
    ensures r.Some? ==> r.value < |arms| && Matches(w, arms[r.value], v)
                        && forall i :: 0 <= i < r.value ==> !Matches(w, arms[i], v)
    ensures r.None? ==> forall i :: 0 <= i < |arms| ==> !Matches(w, arms[i], v)
  {
    if arms == [] then None
    else if Matches(w, arms[0], v) then Some(0)
    else match FirstMatch(w, arms[1..], v) case None => None case Some(i) => Some(i + 1)
  }

  function FirstWild(w: World, arms: seq<Arm>): (r: Option<nat>)
    ensures r.Some? ==> r.value < |arms| && PatOf(w, arms[r.value].toks).Wild?
    ensures r.Some? ==> forall i :: 0 <= i < r.value ==> !PatOf(w, arms[i].toks).Wild?
    ensures r.None? ==> forall i :: 0 <= i < |arms| ==> !PatOf(w, arms[i].toks).Wild?
  {
    if arms == [] then None
    else if PatOf(w, arms[0].toks).Wild? then Some(0)
    else match FirstWild(w, arms[1..]) case None => None case Some(i) => Some(i + 1)
  }

  function DefaultBody(w: World, arms: seq<Arm>): seq<int> {
    match FirstWild(w, arms) case None => [] case Some(i) => arms[i].body
  }

  // The body to run.
  function Chosen(w: World, arms: seq<Arm>, v: int): seq<int> {
    match FirstMatch(w, arms, v) case Some(i) => arms[i].body case None => DefaultBody(w, arms)
  }

  function Events(ids: seq<int>): seq<Event> { seq(|ids|, i requires 0 <= i < |ids| => Statement(ids[i])) }

  // A match evaluates its scrutinee, then runs the chosen body.
  function MatchTrace(w: World, arms: seq<Arm>, trace: seq<Event>): seq<Event> {
    var v := w.scrutinee(trace);
    trace + [Scrutinee(v)] + Events(Chosen(w, arms, v))
  }

  // ---- what is built ----

  // The scrutinee's expression, or a variable.
  datatype Exp = TheScrutinee | Var(name: string)

  // A binding, a body statement, or a comparison with a lexeme.
  datatype Stmt = Bind(name: string, e: Exp) | Do(id: int) | IfEq(left: Exp, lexeme: string, thn: seq<Stmt>, els: seq<Stmt>)

  function Body(b: seq<int>): (r: seq<Stmt>)
    ensures |r| == |b|
  {
    seq(|b|, i requires 0 <= i < |b| => Do(b[i]))
  }

  // One comparison for each arm with a literal, the default innermost.
  function Chain(w: World, tmp: string, arms: seq<Arm>, default: seq<Stmt>): seq<Stmt> {
    if arms == [] then default
    else
      var rest := Chain(w, tmp, arms[1..], default);
      match PatOf(w, arms[0].toks)
      case Literal(lx) => [IfEq(Var(tmp), lx, Body(arms[0].body), rest)]
      case _ => rest
  }

  // The binding of the temporary, and of the chain its first statement.
  function Desugared(w: World, tmp: string, arms: seq<Arm>): seq<Stmt> {
    var c := Chain(w, tmp, arms, Body(DefaultBody(w, arms)));
    [Bind(tmp, TheScrutinee)] + if c == [] then [] else [c[0]]
  }

  // The lowerer's two passes: the wildcard's body forward, the comparisons backward.
  method Desugar(w: World, tmp: string, arms: seq<Arm>) returns (block: seq<Stmt>)
    ensures block == Desugared(w, tmp, arms)
  {
    var chain: seq<Stmt> := [];
    var i := 0;
    assert arms[0..] == arms;
    assert DefaultBody(w, []) == [];
    while i < |arms|
      invariant i <= |arms| && chain == []
      invariant DefaultBody(w, arms) == DefaultBody(w, arms[i..])
    {
      assert arms[i..][0] == arms[i] && arms[i..][1..] == arms[i + 1..];
      var p := ScanPattern(w, arms[i].toks);
      if p.Wild? {
        chain := Body(arms[i].body);
        break;
      }
      i := i + 1;
    }
    assert i == |arms| ==> arms[i..] == [];
    ghost var default := Body(DefaultBody(w, arms));
    assert chain == default;
    var k := |arms|;
    assert arms[k..] == [];
    while k > 0
      invariant 0 <= k <= |arms| && chain == Chain(w, tmp, arms[k..], default)
    {
      k := k - 1;
      assert arms[k..][0] == arms[k] && arms[k..][1..] == arms[k + 1..];
      var p := ScanPattern(w, arms[k].toks);
      if p.Literal? {
        chain := [IfEq(Var(tmp), p.lexeme, Body(arms[k].body), chain)];
      }
    }
    assert arms[0..] == arms;
    block := [Bind(tmp, TheScrutinee)];
    if |chain| > 0 {
      block := block + [chain[0]];
    }
  }

  // ---- running it ----

  datatype State = State(vars: map<string, int>, trace: seq<Event>)

  // Every evaluation of the scrutinee is an event; reading a variable is none.
  function Eval(w: World, st: State, e: Exp): (int, State) {
    match e
    case TheScrutinee => var v := w.scrutinee(st.trace); (v, State(st.vars, st.trace + [Scrutinee(v)]))
    case Var(x) => (if x in st.vars then st.vars[x] else 0, st)
  }

  function Exec(w: World, st: State, s: Stmt): State
    decreases s, 0
  {
    match s
    case Bind(x, e) => var (v, st') := Eval(w, st, e); State(st'.vars[x := v], st'.trace)
    case Do(id) => State(st.vars, st.trace + [Statement(id)])
    case IfEq(e, lx, t, f) =>
      var (v, st') := Eval(w, st, e);
      if w.value(lx) == v then ExecAll(w, st', t) else ExecAll(w, st', f)
  }

  function ExecAll(w: World, st: State, ss: seq<Stmt>): State
    decreases ss, 1
  {
    if ss == [] then st else ExecAll(w, Exec(w, st, ss[0]), ss[1..])
  }

  lemma {:induction false} BodyRuns(w: World, st: State, b: seq<int>)
    ensures ExecAll(w, st, Body(b)) == State(st.vars, st.trace + Events(b))
    decreases |b|
  {
    if b == [] {
      assert st.trace + Events(b) == st.trace;
    } else {
      assert Body(b)[1..] == Body(b[1..]);
      var next := State(st.vars, st.trace + [Statement(b[0])]);
      BodyRuns(w, next, b[1..]);
      assert Events(b) == [Statement(b[0])] + Events(b[1..]);
      assert next.trace + Events(b[1..]) == st.trace + Events(b);
    }
  }

  // The literal a pattern is compared by stands for the pattern's value.
  lemma LiteralStands(w: World, a: Arm, v: int)
    requires ReadsCases(w)
    ensures PatOf(w, a.toks).Literal? <==> PatValue(w, a.toks).Some?
    ensures PatOf(w, a.toks).Literal? ==> (w.value(PatOf(w, a.toks).lexeme) == v <==> Matches(w, a, v))
  {
  }

  lemma {:induction false} ChainRuns(w: World, tmp: string, arms: seq<Arm>, default: seq<int>, st: State)
    requires ReadsCases(w) && tmp in st.vars
    ensures ExecAll(w, st, Chain(w, tmp, arms, Body(default))) ==
            State(st.vars, st.trace + Events(match FirstMatch(w, arms, st.vars[tmp]) case Some(i) => arms[i].body case None => default))
    decreases |arms|
  {
    if arms == [] {
      BodyRuns(w, st, default);
    } else {
      hide PatOf, PatValue, ReadsCases;
      ChainRuns(w, tmp, arms[1..], default, st);
      BodyRuns(w, st, arms[0].body);
      LiteralStands(w, arms[0], st.vars[tmp]);
      var c := Chain(w, tmp, arms, Body(default));
      if PatOf(w, arms[0].toks).Literal? {
        assert c[1..] == [];
        assert ExecAll(w, st, c) == Exec(w, st, c[0]);
      }
    }
  }

  // Some arm has a literal or a known case.
  predicate Recognised(w: World, arms: seq<Arm>) { exists i :: 0 <= i < |arms| && PatOf(w, arms[i].toks).Literal? }

  lemma {:induction false} ChainIsOne(w: World, tmp: string, arms: seq<Arm>, default: seq<Stmt>)
    ensures if Recognised(w, arms) then |Chain(w, tmp, arms, default)| == 1 else Chain(w, tmp, arms, default) == default
    decreases |arms|
  {
    if arms != [] {
      ChainIsOne(w, tmp, arms[1..], default);
      if PatOf(w, arms[0].toks).Literal? {
        assert Recognised(w, arms);
      } else if Recognised(w, arms[1..]) {
        var i :| 0 <= i < |arms[1..]| && PatOf(w, arms[1..][i].toks).Literal?;
        assert PatOf(w, arms[i + 1].toks).Literal?;
      }
    }
  }

  // The state behind the binding.
  function Bound(w: World, tmp: string, st: State): State {
    var v := w.scrutinee(st.trace);
    State(st.vars[tmp := v], st.trace + [Scrutinee(v)])
  }

  lemma BlockRuns(w: World, tmp: string, arms: seq<Arm>, st: State)
    ensures var c := Chain(w, tmp, arms, Body(DefaultBody(w, arms)));
            ExecAll(w, st, Desugared(w, tmp, arms)) == ExecAll(w, Bound(w, tmp, st), if c == [] then [] else [c[0]])
  {
    var b := Desugared(w, tmp, arms);
    var c := Chain(w, tmp, arms, Body(DefaultBody(w, arms)));
    assert b[1..] == if c == [] then [] else [c[0]];
    assert Exec(w, st, b[0]) == Bound(w, tmp, st);
  }

  ghost predicate RunsAsMatch(w: World, tmp: string, arms: seq<Arm>, st: State) {
    ExecAll(w, st, Desugared(w, tmp, arms)).trace == MatchTrace(w, arms, st.trace)
  }

  // In every state the block does what the match means, the scrutinee's evaluation included, if and only if some arm
  // besides the wildcard is recognised, or the wildcard's body has at most one statement.
  lemma MatchExact(w: World, tmp: string, arms: seq<Arm>)
    requires ReadsCases(w)
    ensures (forall st :: RunsAsMatch(w, tmp, arms, st)) <==> Recognised(w, arms) || |DefaultBody(w, arms)| <= 1
  {
    var d := DefaultBody(w, arms);
    var c := Chain(w, tmp, arms, Body(d));
    ChainIsOne(w, tmp, arms, Body(d));
    if Recognised(w, arms) || |d| <= 1 {
      forall st
        ensures RunsAsMatch(w, tmp, arms, st)
      {
        BlockRuns(w, tmp, arms, st);
        ChainRuns(w, tmp, arms, d, Bound(w, tmp, st));
        if |c| == 1 {
          assert [c[0]] == c;
        }
      }
    } else {
      var st := State(map[], []);
      LoneWildcard(w, tmp, arms, st);
      assert !RunsAsMatch(w, tmp, arms, st);
    }
  }

  // A match with nothing but a wildcard runs only the first statement of its body.
  lemma LoneWildcard(w: World, tmp: string, arms: seq<Arm>, st: State)
    requires ReadsCases(w) && !Recognised(w, arms) && |DefaultBody(w, arms)| > 1
    ensures ExecAll(w, st, Desugared(w, tmp, arms)).trace ==
            st.trace + [Scrutinee(w.scrutinee(st.trace))] + Events([DefaultBody(w, arms)[0]])
    ensures !RunsAsMatch(w, tmp, arms, st)
  {
    var d := DefaultBody(w, arms);
    var v := w.scrutinee(st.trace);
    ChainIsOne(w, tmp, arms, Body(d));
    BlockRuns(w, tmp, arms, st);
    BodyRuns(w, Bound(w, tmp, st), [d[0]]);
    assert [Body(d)[0]] == Body([d[0]]);
    NothingMatches(w, arms, v);
    assert |MatchTrace(w, arms, st.trace)| == |st.trace| + 1 + |d|;
  }

  lemma NothingMatches(w: World, arms: seq<Arm>, v: int)
    requires ReadsCases(w) && !Recognised(w, arms)
    ensures Chosen(w, arms, v) == DefaultBody(w, arms)
  {
    if FirstMatch(w, arms, v).Some? {
      LiteralStands(w, arms[FirstMatch(w, arms, v).value], v);
    }
  }

  // Whatever the arms are, the block evaluates the scrutinee once, before everything else, and binds its value; what
  // follows are body statements only.
  lemma ScrutineeOnce(w: World, tmp: string, arms: seq<Arm>, st: State)
    requires ReadsCases(w)
    ensures var r := ExecAll(w, st, Desugared(w, tmp, arms));
            && r.vars == st.vars[tmp := w.scrutinee(st.trace)]
            && exists ids :: r.trace == st.trace + [Scrutinee(w.scrutinee(st.trace))] + Events(ids)
  {
    var d := DefaultBody(w, arms);
    var c := Chain(w, tmp, arms, Body(d));
    var b := Bound(w, tmp, st);
    BlockRuns(w, tmp, arms, st);
    ChainIsOne(w, tmp, arms, Body(d));
    if Recognised(w, arms) || |d| <= 1 {
      ChainRuns(w, tmp, arms, d, b);
      if |c| == 1 {
        assert [c[0]] == c;
      }
    } else {
      BodyRuns(w, b, [d[0]]);
      assert [Body(d)[0]] == Body([d[0]]);
    }
  }
}

// The check that a syntax tree loses nothing: walk its leaves in order, copy each and the gap before it, and compare
// with the source.
module RoundTripTree {
  import opened Bytes
  import opened Lexing

  // A leaf is a token's place in the source.
  datatype Tree = Leaf(offset: nat, length: nat) | Node(children: seq<Tree>)

  // What has been written and how far the source has been used; None if a leaf lies before that.
  function Emit(t: Tree, src: string, out: string, pos: nat): (r: Option<(string, nat)>)
    ensures r.Some? ==> pos <= r.value.1 <= |src| || r.value.1 == pos
    decreases t, 1
  {
    match t
    case Leaf(off, len) =>
      if off < pos || off + len > |src| then None else Some((out + src[pos..off] + src[off..off + len], off + len))
    case Node(cs) => EmitAll(cs, src, out, pos)
  }

  function EmitAll(cs: seq<Tree>, src: string, out: string, pos: nat): (r: Option<(string, nat)>)
    ensures r.Some? ==> pos <= r.value.1 <= |src| || r.value.1 == pos
    decreases cs, 0
  {
    if cs == [] then Some((out, pos))
    else match Emit(cs[0], src, out, pos) case None => None case Some(p) => EmitAll(cs[1..], src, p.0, p.1)
  }

  method EmitNode(t: Tree, src: string, out: string, pos: nat) returns (ok: bool, out': string, pos': nat)
    ensures Emit(t, src, out, pos) == if ok then Some((out', pos')) else None
    decreases t
  {
    match t
    case Leaf(off, len) =>
      if off < pos || off + len > |src| {
        return false, out, pos;
      }
      return true, out + src[pos..off] + src[off..off + len], off + len;
    case Node(cs) =>
      ok, out', pos' := true, out, pos;
      assert cs[0..] == cs;
      var i := 0;
      while i < |cs|
        invariant 0 <= i <= |cs| && ok && EmitAll(cs, src, out, pos) == EmitAll(cs[i..], src, out', pos')
      {
        assert cs[i..][0] == cs[i] && cs[i..][1..] == cs[i + 1..];
        ok, out', pos' := EmitNode(cs[i], src, out', pos');
        if !ok {
          return;
        }
        i := i + 1;
      }
      assert cs[|cs|..] == [];
  }

  // What the walk writes and the rest of the source behind it.
  function Rebuilt(t: Tree, src: string): Option<string> {
    match Emit(t, src, "", 0) case None => None case Some(p) => if p.1 <= |src| then Some(p.0 + src[p.1..]) else None
  }

  // The walk, the rest of the source, and the comparison.
  method RoundTrip(t: Tree, src: string) returns (ok: bool)
    ensures ok <==> Rebuilt(t, src) == Some(src)
    ensures ok <==> InOrder(Leaves(t), 0, |src|)
  {
    var good, out, pos := EmitNode(t, src, "", 0);
    WalkExact(t, src, "", 0);
    if !good {
      return false;
    }
    out := out + src[pos..];
    return out == src;
  }

  // ---- what the walk checks ----

  function Leaves(t: Tree): seq<(nat, nat)>
    decreases t, 1
  {
    match t case Leaf(off, len) => [(off, len)] case Node(cs) => LeavesAll(cs)
  }

  function LeavesAll(cs: seq<Tree>): seq<(nat, nat)>
    decreases cs, 0
  {
    if cs == [] then [] else Leaves(cs[0]) + LeavesAll(cs[1..])
  }

  // Leaves one after another, inside the source.
  predicate InOrder(ls: seq<(nat, nat)>, from: nat, n: nat)
    decreases |ls|
  {
    ls == [] || (from <= ls[0].0 && ls[0].0 + ls[0].1 <= n && InOrder(ls[1..], ls[0].0 + ls[0].1, n))
  }

  function Reach(ls: seq<(nat, nat)>, from: nat): nat { if ls == [] then from else ls[|ls| - 1].0 + ls[|ls| - 1].1 }

  lemma {:induction false} OrderSplit(a: seq<(nat, nat)>, b: seq<(nat, nat)>, from: nat, n: nat)
    ensures InOrder(a + b, from, n) <==> InOrder(a, from, n) && InOrder(b, Reach(a, from), n)
    ensures Reach(a + b, from) == Reach(b, Reach(a, from))
    decreases |a|
  {
    if a == [] {
      assert a + b == b;
    } else {
      assert (a + b)[0] == a[0] && (a + b)[1..] == a[1..] + b;
      OrderSplit(a[1..], b, a[0].0 + a[0].1, n);
    }
  }

  // For every tree: the walk succeeds if and only if the leaves are in order inside the source, and then what it
  // writes is exactly the source up to the end of the last leaf.
  lemma {:induction false} WalkExact(t: Tree, src: string, out: string, pos: nat)
    requires pos <= |src| && out == src[..pos]
    ensures Emit(t, src, out, pos).Some? <==> InOrder(Leaves(t), pos, |src|)
    ensures Emit(t, src, out, pos).Some? ==>
              Emit(t, src, out, pos).value.1 == Reach(Leaves(t), pos) <= |src|
              && Emit(t, src, out, pos).value.0 == src[..Reach(Leaves(t), pos)]
    decreases t, 1
  {
    match t
    case Leaf(off, len) =>
      if pos <= off && off + len <= |src| {
        assert src[..pos] + src[pos..off] + src[off..off + len] == src[..off + len];
      }
    case Node(cs) => WalkAllExact(cs, src, out, pos);
  }

  lemma {:induction false} WalkAllExact(cs: seq<Tree>, src: string, out: string, pos: nat)
    requires pos <= |src| && out == src[..pos]
    ensures EmitAll(cs, src, out, pos).Some? <==> InOrder(LeavesAll(cs), pos, |src|)
    ensures EmitAll(cs, src, out, pos).Some? ==>
              EmitAll(cs, src, out, pos).value.1 == Reach(LeavesAll(cs), pos) <= |src|
              && EmitAll(cs, src, out, pos).value.0 == src[..Reach(LeavesAll(cs), pos)]
    decreases cs, 0
  {
    if cs != [] {
      WalkExact(cs[0], src, out, pos);
      OrderSplit(Leaves(cs[0]), LeavesAll(cs[1..]), pos, |src|);
      match Emit(cs[0], src, out, pos)
      case Some(p) => WalkAllExact(cs[1..], src, p.0, p.1);
      case None =>
    }
  }

  // The source is rebuilt exactly from the trees whose leaves are in order inside it.
  lemma RebuiltExact(t: Tree, src: string)
    ensures Rebuilt(t, src) == Some(src) <==> InOrder(Leaves(t), 0, |src|)
    ensures Rebuilt(t, src).Some? ==> Rebuilt(t, src) == Some(src)
  {
    WalkExact(t, src, "", 0);
    hide Emit, Leaves, InOrder;
    if Emit(t, src, "", 0).Some? {
      var p := Reach(Leaves(t), 0);
      assert src[..p] + src[p..] == src;
    }
  }

  // From a tree over the lexer's tokens, all of them in order, the source is rebuilt.
  lemma TokensPass(t: Tree, src: string)
    requires Leaves(t) == LeavesOf(Tokens(src, 0))
    ensures Rebuilt(t, src) == Some(src)
  {
    TokensStream(src, 0);
    StreamInOrder(src, 0, Tokens(src, 0));
    RebuiltExact(t, src);
  }

  // The places of all tokens but the end of input.
  function LeavesOf(toks: seq<Token>): seq<(nat, nat)> {
    if |toks| <= 1 then [] else [(toks[0].start, toks[0].length)] + LeavesOf(toks[1..])
  }

  lemma {:induction false} StreamInOrder(s: string, from: nat, toks: seq<Token>)
    requires Stream(s, from, toks)
    ensures InOrder(LeavesOf(toks), from, |s|)
    decreases |toks|
  {
    hide Line, Column;
    if |toks| > 1 {
      StreamInOrder(s, End(toks[0]), toks[1..]);
      assert LeavesOf(toks)[1..] == LeavesOf(toks[1..]);
    }
  }

  // Two trees, the second without one of the first one's leaves: if the source is rebuilt from the first it is from the
  // second, the gap being copied from the source.
  lemma LostLeafPasses(t: Tree, u: Tree, a: seq<(nat, nat)>, x: (nat, nat), b: seq<(nat, nat)>, src: string)
    requires Leaves(t) == a + [x] + b && Leaves(u) == a + b && Rebuilt(t, src) == Some(src)
    ensures Rebuilt(u, src) == Some(src)
  {
    var n := |src|;
    RebuiltExact(t, src);
    RebuiltExact(u, src);
    OrderSplit(a + [x], b, 0, n);
    OrderSplit(a, [x], 0, n);
    OrderSplit(a, b, 0, n);
    Earlier(b, Reach(a, 0), x.0 + x.1, n);
  }

  lemma Earlier(ls: seq<(nat, nat)>, a: nat, b: nat, n: nat)
    requires a <= b && InOrder(ls, b, n)
    ensures InOrder(ls, a, n)
  {
  }
}

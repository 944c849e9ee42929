// The parallel reduce of an integer column: chunks folded by threads, their results combined in order, against the
// left fold of the whole column.
module ParReduce {
  import opened Bytes

  datatype Width = W32 | W64
  datatype RedOp = RAdd | RMul | RMin | RMax

  const MAX_THREADS: nat := 16
  const MIN_PER_THREAD: nat := 16384

  function Half(w: Width): int { if w == W32 then 0x8000_0000 else 0x8000_0000_0000_0000 }

  predicate InRange(w: Width, v: int) { -Half(w) <= v < Half(w) }

  // Two's complement reading of v.
  function WrapTo(w: Width, v: int): (r: int)
    ensures InRange(w, r)
  {
    var u := v % (2 * Half(w));
    if u >= Half(w) then u - 2 * Half(w) else u
  }

  function Identity(w: Width, op: RedOp): (r: int)
    ensures InRange(w, r)
  {
    match op case RAdd => 0 case RMul => 1 case RMin => Half(w) - 1 case RMax => -Half(w)
  }

  function Comb(w: Width, op: RedOp, a: int, b: int): int {
    match op
    case RAdd => WrapTo(w, a + b)
    case RMul => WrapTo(w, a * b)
    case RMin => if b < a then b else a
    case RMax => if b > a then b else a
  }

  // ---- the monoid laws ----

  lemma WrapIs(w: Width, v: int)
    ensures exists q :: v == WrapTo(w, v) + q * (2 * Half(w))
  {
    var m := 2 * Half(w);
    var q := v / m;
    assert v == m * q + v % m;
    if v % m >= Half(w) {
      assert v == WrapTo(w, v) + (q + 1) * m;
    } else {
      assert v == WrapTo(w, v) + q * m;
    }
  }

  // The one number of the width's range that differs by a multiple of 2^32, or 2^64.
  lemma WrapExact(w: Width, v: int, x: int)
    requires if w == W32 then -0x8000_0000 <= x < 0x8000_0000 else -0x8000_0000_0000_0000 <= x < 0x8000_0000_0000_0000
    ensures WrapTo(w, v) == x <==> (v - x) % (if w == W32 then 0x1_0000_0000 else 0x1_0000_0000_0000_0000) == 0
  {
  }

  // Numbers that differ by a multiple of the modulus wrap to the same value.
  lemma WrapCongruent(w: Width, a: int, b: int, q: int)
    requires a == b + q * (2 * Half(w))
    ensures WrapTo(w, a) == WrapTo(w, b)
  {
    var m := 2 * Half(w);
    ModShift(b, q, m);
  }

  lemma ModShift(b: int, q: int, m: int)
    requires m > 0
    ensures (b + q * m) % m == b % m
  {
    var r := b % m;
    assert b == m * (b / m) + r;
    assert b + q * m == m * (b / m + q) + r by { Factor(m, b / m, q); }
    ModUnique(b + q * m, m, b / m + q, r);
  }

  lemma Factor(m: int, a: int, b: int)
    ensures m * (a + b) == m * a + b * m
  {
  }

  lemma AddAssoc(w: Width, a: int, b: int, c: int)
    ensures WrapTo(w, WrapTo(w, a + b) + c) == WrapTo(w, a + WrapTo(w, b + c))
  {
    var m := 2 * Half(w);
    WrapIs(w, a + b);
    WrapIs(w, b + c);
    var p :| a + b == WrapTo(w, a + b) + p * m;
    var q :| b + c == WrapTo(w, b + c) + q * m;
    WrapCongruent(w, a + b + c, WrapTo(w, a + b) + c, p);
    WrapCongruent(w, a + b + c, a + WrapTo(w, b + c), q);
  }

  lemma MulAssoc(w: Width, a: int, b: int, c: int)
    ensures WrapTo(w, WrapTo(w, a * b) * c) == WrapTo(w, a * WrapTo(w, b * c))
  {
    var m := 2 * Half(w);
    WrapIs(w, a * b);
    WrapIs(w, b * c);
    var p :| a * b == WrapTo(w, a * b) + p * m;
    var q :| b * c == WrapTo(w, b * c) + q * m;
    Times(a * b, WrapTo(w, a * b), p, m, c);
    Times(b * c, WrapTo(w, b * c), q, m, a);
    assert (a * b) * c == a * (b * c) by { Rearrange(a, b, c); }
    WrapCongruent(w, (a * b) * c, WrapTo(w, a * b) * c, p * c);
    WrapCongruent(w, (b * c) * a, WrapTo(w, b * c) * a, q * a);
    Swap(b * c, a);
    Swap(WrapTo(w, b * c), a);
  }

  lemma Times(x: int, y: int, p: int, m: int, c: int)
    requires x == y + p * m
    ensures x * c == y * c + (p * c) * m
  {
    Rearrange(p, m, c);
    Rearrange(p, c, m);
    Swap(m, c);
    assert (y + p * m) * c == y * c + (p * m) * c;
  }

  lemma Rearrange(a: int, b: int, c: int)
    ensures (a * b) * c == a * (b * c)
  {
  }

  lemma Swap(a: int, b: int)
    ensures a * b == b * a
  {
  }

  lemma Assoc(w: Width, op: RedOp, a: int, b: int, c: int)
    ensures Comb(w, op, Comb(w, op, a, b), c) == Comb(w, op, a, Comb(w, op, b, c))
  {
    hide WrapTo;
    match op
    case RAdd => AddAssoc(w, a, b, c);
    case RMul => MulAssoc(w, a, b, c);
    case _ =>
  }

  lemma WrapSelf(w: Width, v: int)
    requires InRange(w, v)
    ensures WrapTo(w, v) == v
  {
    if v < 0 {
      ModUnique(v, 2 * Half(w), -1, v + 2 * Half(w));
    }
  }

  lemma Neutral(w: Width, op: RedOp, a: int)
    requires InRange(w, a)
    ensures Comb(w, op, a, Identity(w, op)) == a && Comb(w, op, Identity(w, op), a) == a
  {
    WrapSelf(w, a);
  }

  lemma Closed(w: Width, op: RedOp, a: int, b: int)
    requires InRange(w, a) && InRange(w, b)
    ensures InRange(w, Comb(w, op, a, b))
  {
  }

  // ---- folds ----

  predicate Column(w: Width, col: seq<int>) { forall i :: 0 <= i < |col| ==> InRange(w, col[i]) }

  // The left fold of col[lo..hi] from the identity.
  function Fold(w: Width, op: RedOp, col: seq<int>, lo: nat, hi: nat): int
    requires lo <= hi <= |col|
    decreases hi - lo
  {
    if lo == hi then Identity(w, op) else Comb(w, op, Fold(w, op, col, lo, hi - 1), col[hi - 1])
  }

  lemma {:induction false} FoldInRange(w: Width, op: RedOp, col: seq<int>, lo: nat, hi: nat)
    requires lo <= hi <= |col| && Column(w, col)
    ensures InRange(w, Fold(w, op, col, lo, hi))
    decreases hi - lo
  {
    if lo < hi {
      FoldInRange(w, op, col, lo, hi - 1);
      Closed(w, op, Fold(w, op, col, lo, hi - 1), col[hi - 1]);
    }
  }

  // ---- what a fold is ----

  function Sum(col: seq<int>, lo: nat, hi: nat): int
    requires lo <= hi <= |col|
    decreases hi - lo
  {
    if lo == hi then 0 else col[lo] + Sum(col, lo + 1, hi)
  }

  function Product(col: seq<int>, lo: nat, hi: nat): int
    requires lo <= hi <= |col|
    decreases hi - lo
  {
    if lo == hi then 1 else col[lo] * Product(col, lo + 1, hi)
  }

  lemma {:induction false} SumLast(col: seq<int>, lo: nat, hi: nat)
    requires lo < hi <= |col|
    ensures Sum(col, lo, hi) == Sum(col, lo, hi - 1) + col[hi - 1]
    decreases hi - lo
  {
    if lo + 1 < hi {
      SumLast(col, lo + 1, hi);
    }
  }

  lemma {:induction false} ProductLast(col: seq<int>, lo: nat, hi: nat)
    requires lo < hi <= |col|
    ensures Product(col, lo, hi) == Product(col, lo, hi - 1) * col[hi - 1]
    decreases hi - lo
  {
    if lo + 1 < hi {
      ProductLast(col, lo + 1, hi);
      Rearrange(col[lo], Product(col, lo + 1, hi - 1), col[hi - 1]);
    }
  }

  // For every column: the fold by addition is the sum, taken modulo 2^32 or 2^64 into the signed range.
  lemma {:induction false} FoldIsSum(w: Width, col: seq<int>, lo: nat, hi: nat)
    requires lo <= hi <= |col|
    ensures Fold(w, RAdd, col, lo, hi) == WrapTo(w, Sum(col, lo, hi))
    decreases hi - lo
  {
    hide WrapTo;
    if lo < hi {
      FoldIsSum(w, col, lo, hi - 1);
      SumLast(col, lo, hi);
      var s := Sum(col, lo, hi - 1);
      WrapIs(w, s);
      var q :| s == WrapTo(w, s) + q * (2 * Half(w));
      WrapCongruent(w, s + col[hi - 1], WrapTo(w, s) + col[hi - 1], q);
    } else {
      WrapSelf(w, 0);
    }
  }

  lemma {:induction false} FoldIsProduct(w: Width, col: seq<int>, lo: nat, hi: nat)
    requires lo <= hi <= |col|
    ensures Fold(w, RMul, col, lo, hi) == WrapTo(w, Product(col, lo, hi))
    decreases hi - lo
  {
    hide WrapTo;
    if lo < hi {
      FoldIsProduct(w, col, lo, hi - 1);
      ProductLast(col, lo, hi);
      var s, x := Product(col, lo, hi - 1), col[hi - 1];
      WrapIs(w, s);
      var q :| s == WrapTo(w, s) + q * (2 * Half(w));
      Times(s, WrapTo(w, s), q, 2 * Half(w), x);
      WrapCongruent(w, s * x, WrapTo(w, s) * x, q * x);
    } else {
      WrapSelf(w, 1);
    }
  }

  // For every column: the fold by min is no more than any of its numbers and one of them, or the largest number if there
  // is none.
  lemma {:induction false} FoldIsMinimum(w: Width, col: seq<int>, lo: nat, hi: nat)
    requires lo <= hi <= |col| && Column(w, col)
    ensures forall i :: lo <= i < hi ==> Fold(w, RMin, col, lo, hi) <= col[i]
    ensures if lo == hi then forall x :: InRange(w, x) ==> x <= Fold(w, RMin, col, lo, hi)
            else exists i :: lo <= i < hi && Fold(w, RMin, col, lo, hi) == col[i]
    decreases hi - lo
  {
    if lo < hi {
      FoldIsMinimum(w, col, lo, hi - 1);
      FoldInRange(w, RMin, col, lo, hi - 1);
    }
  }

  lemma {:induction false} FoldIsMaximum(w: Width, col: seq<int>, lo: nat, hi: nat)
    requires lo <= hi <= |col| && Column(w, col)
    ensures forall i :: lo <= i < hi ==> col[i] <= Fold(w, RMax, col, lo, hi)
    ensures if lo == hi then forall x :: InRange(w, x) ==> Fold(w, RMax, col, lo, hi) <= x
            else exists i :: lo <= i < hi && Fold(w, RMax, col, lo, hi) == col[i]
    decreases hi - lo
  {
    if lo < hi {
      FoldIsMaximum(w, col, lo, hi - 1);
      FoldInRange(w, RMax, col, lo, hi - 1);
    }
  }

  // Folding two adjacent ranges and combining the results folds their union.
  lemma {:induction false} FoldSplit(w: Width, op: RedOp, col: seq<int>, lo: nat, mid: nat, hi: nat)
    requires lo <= mid <= hi <= |col| && Column(w, col)
    ensures Comb(w, op, Fold(w, op, col, lo, mid), Fold(w, op, col, mid, hi)) == Fold(w, op, col, lo, hi)
    decreases hi - mid
  {
    hide Comb, Identity;
    FoldInRange(w, op, col, lo, mid);
    if mid == hi {
      Neutral(w, op, Fold(w, op, col, lo, mid));
    } else {
      FoldSplit(w, op, col, lo, mid, hi - 1);
      Assoc(w, op, Fold(w, op, col, lo, mid), Fold(w, op, col, mid, hi - 1), col[hi - 1]);
    }
  }

  // ---- chunks ----

  function Lo(n: nat, k: nat, t: nat): nat
    requires k > 0
  {
    t * (n / k)
  }

  function Hi(n: nat, k: nat, t: nat): nat
    requires k > 0
  {
    if t + 1 == k then n else (t + 1) * (n / k)
  }

  // The chunks follow one another from 0 to n.
  lemma ChunksPartition(n: nat, k: nat, t: nat)
    requires t < k
    ensures Lo(n, k, 0) == 0 && Hi(n, k, k - 1) == n
    ensures Lo(n, k, t) <= Hi(n, k, t) <= n
    ensures t + 1 < k ==> Hi(n, k, t) == Lo(n, k, t + 1)
  {
    var c := n / k;
    assert k * c <= n;
    Monotone(t, k, c);
    Monotone(t, t + 1, c);
    Monotone(t + 1, k, c);
  }

  // All chunks are of one size; the last one has what is left over as well, less than one element per chunk.
  lemma ChunksEven(n: nat, k: nat, t: nat)
    requires t < k
    ensures t + 1 < k ==> Hi(n, k, t) - Lo(n, k, t) == n / k
    ensures var last := Hi(n, k, k - 1) - Lo(n, k, k - 1); n / k <= last < n / k + k
  {
    var c := n / k;
    assert n == k * c + n % k;
    assert (k - 1) * c == k * c - c && (t + 1) * c == t * c + c;
  }

  lemma Monotone(a: nat, b: nat, c: nat)
    requires a <= b
    ensures a * c <= b * c
  {
    assert b * c - a * c == (b - a) * c;
  }

  // The results of the first t chunks, combined from chunk 0 upward.
  function Combined(w: Width, op: RedOp, outs: seq<int>, t: nat): int
    requires 0 < t <= |outs|
  {
    if t == 1 then outs[0] else Comb(w, op, Combined(w, op, outs, t - 1), outs[t - 1])
  }

  lemma {:induction false} CombinedIsFold(w: Width, op: RedOp, col: seq<int>, outs: seq<int>, k: nat, t: nat)
    requires 0 < t <= k == |outs| && Column(w, col)
    requires forall i :: 0 <= i < k ==> Lo(|col|, k, i) <= Hi(|col|, k, i) <= |col| && outs[i] == Fold(w, op, col, Lo(|col|, k, i), Hi(|col|, k, i))
    ensures Hi(|col|, k, t - 1) <= |col| && Combined(w, op, outs, t) == Fold(w, op, col, 0, Hi(|col|, k, t - 1))
    decreases t
  {
    hide Comb, Fold, Lo, Hi;
    var n := |col|;
    ChunksPartition(n, k, t - 1);
    if t > 1 {
      CombinedIsFold(w, op, col, outs, k, t - 1);
      ChunksPartition(n, k, t - 2);
      FoldSplit(w, op, col, 0, Lo(n, k, t - 1), Hi(n, k, t - 1));
    }
  }

  // ---- the threads ----

  datatype Task = Idle | Running(i: nat, acc: int) | Out(v: int)

  // `next` chunks have been handed out; `created` says which of them got a thread.
  datatype State = State(next: nat, created: seq<bool>, tasks: seq<Task>)

  // The caller hands out the next chunk, to a thread or, if none could be created, to itself; or a thread moves.
  datatype Action = Spawn(ok: bool) | Work(t: nat)

  datatype Job = Job(w: Width, op: RedOp, col: seq<int>, k: nat)

  predicate JobOk(j: Job) { j.k > 0 && Column(j.w, j.col) }

  function JLo(j: Job, t: nat): nat
    requires JobOk(j)
  {
    Lo(|j.col|, j.k, t)
  }

  function JHi(j: Job, t: nat): nat
    requires JobOk(j)
  {
    Hi(|j.col|, j.k, t)
  }

  function Begin(j: Job): State { State(0, [], seq(j.k, i => Idle)) }

  function Act(j: Job, s: State, a: Action): Option<State>
    requires JobOk(j)
  {
    match a
    case Spawn(ok) =>
      if s.next >= j.k || s.next >= |s.tasks| then None
      else
        var t := s.next;
        if !(JLo(j, t) <= JHi(j, t) <= |j.col|) then None
        else
          var task := if ok then Running(JLo(j, t), Identity(j.w, j.op)) else Out(Fold(j.w, j.op, j.col, JLo(j, t), JHi(j, t)));
          Some(State(t + 1, s.created + [ok], s.tasks[t := task]))
    case Work(t) =>
      if t >= |s.tasks| || t >= j.k || !s.tasks[t].Running? then None
      else
        var r := s.tasks[t];
        if r.i >= JHi(j, t) then Some(s.(tasks := s.tasks[t := Out(r.acc)]))
        else if r.i >= |j.col| then None
        else Some(s.(tasks := s.tasks[t := Running(r.i + 1, Comb(j.w, j.op, r.acc, j.col[r.i]))]))
  }

  function Run(j: Job, s: State, actions: seq<Action>): Option<State>
    requires JobOk(j)
    decreases |actions|
  {
    if actions == [] then Some(s)
    else match Act(j, s, actions[0]) case None => None case Some(u) => Run(j, u, actions[1..])
  }

  function Count(bs: seq<bool>): nat {
    if bs == [] then 0 else (if bs[|bs| - 1] then 1 else 0) + Count(bs[..|bs| - 1])
  }

  // The caller joins the threads 0 .. spawned - 1, whichever they are.
  predicate Joined(j: Job, s: State) {
    s.next == j.k == |s.tasks| && |s.created| == j.k
    && forall t :: 0 <= t < j.k && t < Count(s.created) && s.created[t] ==> s.tasks[t].Out?
  }

  // Threads failed to start only after the last one that did.
  predicate FailuresLast(created: seq<bool>) {
    forall a, b :: 0 <= a < b < |created| && created[b] ==> created[a]
  }

  lemma {:induction false} CountBound(bs: seq<bool>)
    ensures Count(bs) <= |bs|
    decreases |bs|
  {
    if bs != [] {
      CountBound(bs[..|bs| - 1]);
    }
  }

  lemma {:induction false} CountAll(bs: seq<bool>)
    ensures Count(bs) == |bs| <==> forall i :: 0 <= i < |bs| ==> bs[i]
    decreases |bs|
  {
    if bs != [] {
      var p := bs[..|bs| - 1];
      CountAll(p);
      CountBound(p);
      assert forall i :: 0 <= i < |p| ==> p[i] == bs[i];
      if Count(bs) == |bs| {
        assert forall i :: 0 <= i < |bs| - 1 ==> bs[i] == p[i];
      }
    }
  }

  // The join loop reaches every thread that was created if and only if the failures come last.
  lemma {:induction false} JoinsReachAll(bs: seq<bool>)
    ensures (forall t :: 0 <= t < |bs| && bs[t] ==> t < Count(bs)) <==> FailuresLast(bs)
    decreases |bs|
  {
    if bs != [] {
      var n := |bs| - 1;
      var p := bs[..n];
      JoinsReachAll(p);
      CountAll(p);
      CountBound(p);
      assert forall i :: 0 <= i < n ==> p[i] == bs[i];
      if bs[n] {
        if FailuresLast(bs) {
          assert forall a :: 0 <= a < n ==> bs[a];
          assert forall i :: 0 <= i < |p| ==> p[i];
        }
        if forall t :: 0 <= t < |bs| && bs[t] ==> t < Count(bs) {
          assert n < Count(bs);
          assert Count(p) == |p|;
        }
      } else {
        if FailuresLast(p) {
          assert FailuresLast(bs);
        }
        if FailuresLast(bs) {
          assert FailuresLast(p);
        }
      }
    }
  }

  // ---- every schedule ----

  predicate TaskOk(j: Job, s: State, t: nat)
    requires JobOk(j) && t < |s.tasks| && t < |s.created|
  {
    && JLo(j, t) <= JHi(j, t) <= |j.col|
    && match s.tasks[t]
       case Idle => false
       case Running(i, acc) => s.created[t] && JLo(j, t) <= i <= JHi(j, t) && acc == Fold(j.w, j.op, j.col, JLo(j, t), i)
       case Out(v) => v == Fold(j.w, j.op, j.col, JLo(j, t), JHi(j, t))
  }

  // Every chunk handed out is folded as far as its thread has come.
  predicate Sound(j: Job, s: State)
    requires JobOk(j)
  {
    && |s.tasks| == j.k && s.next <= j.k && |s.created| == s.next
    && (forall t :: 0 <= t < s.next ==> TaskOk(j, s, t))
    && (forall t :: s.next <= t < j.k ==> s.tasks[t] == Idle)
  }

  lemma ActKeeps(j: Job, s: State, a: Action)
    requires JobOk(j) && Sound(j, s) && Act(j, s, a).Some?
    ensures Sound(j, Act(j, s, a).value)
  {
    var u := Act(j, s, a).value;
    forall t | 0 <= t < u.next
      ensures TaskOk(j, u, t)
    {
      assert t < s.next ==> TaskOk(j, s, t);
    }
  }

  lemma {:induction false} RunKeeps(j: Job, s: State, actions: seq<Action>)
    requires JobOk(j) && Sound(j, s) && Run(j, s, actions).Some?
    ensures Sound(j, Run(j, s, actions).value)
    decreases |actions|
  {
    hide Sound, Act;
    if actions != [] {
      ActKeeps(j, s, actions[0]);
      RunKeeps(j, Act(j, s, actions[0]).value, actions[1..]);
    }
  }

  // What the caller finds in the threads' slots; `junk` is what was in one before.
  function Outs(s: State, junk: int): (r: seq<int>)
    ensures |r| == |s.tasks|
  {
    seq(|s.tasks|, t requires 0 <= t < |s.tasks| => if s.tasks[t].Out? then s.tasks[t].v else junk)
  }

  // For every column, operator, number of chunks, pattern of thread failures at the end and interleaving: once the
  // joins are through, the combined result is the left fold of the whole column.
  lemma ReduceIsFold(j: Job, actions: seq<Action>, junk: int)
    requires JobOk(j) && Run(j, Begin(j), actions).Some?
    requires var s := Run(j, Begin(j), actions).value; Joined(j, s) && FailuresLast(s.created)
    ensures var s := Run(j, Begin(j), actions).value;
            && |s.tasks| == j.k && (forall t :: 0 <= t < j.k ==> s.tasks[t].Out?)
            && Combined(j.w, j.op, Outs(s, junk), j.k) == Fold(j.w, j.op, j.col, 0, |j.col|)
  {
    hide Run, Sound, Joined, FailuresLast;
    assert Sound(j, Begin(j)) by { BeginSound(j); }
    RunKeeps(j, Begin(j), actions);
    JoinedIsFold(j, Run(j, Begin(j), actions).value, junk);
  }

  lemma BeginSound(j: Job)
    requires JobOk(j)
    ensures Sound(j, Begin(j))
  {
  }

  lemma JoinedIsFold(j: Job, s: State, junk: int)
    requires JobOk(j) && Sound(j, s) && Joined(j, s) && FailuresLast(s.created)
    ensures |s.tasks| == j.k && forall t :: 0 <= t < j.k ==> s.tasks[t].Out?
    ensures Combined(j.w, j.op, Outs(s, junk), j.k) == Fold(j.w, j.op, j.col, 0, |j.col|)
  {
    hide Comb, Fold, Lo, Hi, Combined, Count;
    JoinsReachAll(s.created);
    forall t | 0 <= t < j.k
      ensures s.tasks[t].Out? && Lo(|j.col|, j.k, t) <= Hi(|j.col|, j.k, t) <= |j.col|
      ensures Outs(s, junk)[t] == Fold(j.w, j.op, j.col, Lo(|j.col|, j.k, t), Hi(|j.col|, j.k, t))
    {
      assert TaskOk(j, s, t);
    }
    CombinedIsFold(j.w, j.op, j.col, Outs(s, junk), j.k, j.k);
    ChunksPartition(|j.col|, j.k, j.k - 1);
  }

  // ---- a failure before the last thread ----

  lemma {:induction false} RunAppend(j: Job, s: State, a: seq<Action>, b: seq<Action>)
    requires JobOk(j)
    ensures Run(j, s, a + b) == (match Run(j, s, a) case None => None case Some(u) => Run(j, u, b))
    decreases |a|
  {
    hide Act;
    if a == [] {
      assert a + b == b;
    } else {
      assert (a + b)[0] == a[0] && (a + b)[1..] == a[1..] + b;
      if Act(j, s, a[0]).Some? {
        RunAppend(j, Act(j, s, a[0]).value, a[1..], b);
      }
    }
  }

  function ChunkFold(j: Job, t: nat): int
    requires JobOk(j) && t < j.k
  {
    ChunksPartition(|j.col|, j.k, t);
    Fold(j.w, j.op, j.col, JLo(j, t), JHi(j, t))
  }

  // A chunk as it is handed out.
  function Handed(j: Job, t: nat, ok: bool): Task
    requires JobOk(j) && t < j.k
  {
    if ok then Running(JLo(j, t), Identity(j.w, j.op)) else Out(ChunkFold(j, t))
  }

  // All chunks handed out and no thread has moved.
  function Waiting(j: Job, bs: seq<bool>): State
    requires JobOk(j) && |bs| == j.k
  {
    State(j.k, bs, seq(j.k, t requires 0 <= t < j.k => Handed(j, t, bs[t])))
  }

  // The first m chunks handed out.
  function Spawned(j: Job, bs: seq<bool>, m: nat): seq<Task>
    requires JobOk(j) && |bs| == j.k
  {
    seq(j.k, t requires 0 <= t < j.k => if t < m then Handed(j, t, bs[t]) else Idle)
  }

  // Of the first m chunks all but one finished.
  function Worked(j: Job, bs: seq<bool>, late: nat, m: nat): seq<Task>
    requires JobOk(j) && |bs| == j.k
  {
    seq(j.k, t requires 0 <= t < j.k => if t < m && t != late then Out(ChunkFold(j, t)) else Handed(j, t, bs[t]))
  }

  lemma {:induction false} SpawnAll(j: Job, bs: seq<bool>, m: nat) returns (acts: seq<Action>)
    requires JobOk(j) && |bs| == j.k && m <= j.k
    ensures Run(j, Begin(j), acts) == Some(State(m, bs[..m], Spawned(j, bs, m)))
    decreases m
  {
    if m == 0 {
      acts := [];
      assert Begin(j).tasks == Spawned(j, bs, 0) && bs[..0] == [];
    } else {
      var front := SpawnAll(j, bs, m - 1);
      var u := Run(j, Begin(j), front).value;
      var a := Spawn(bs[m - 1]);
      acts := front + [a];
      RunAppend(j, Begin(j), front, [a]);
      ChunksPartition(|j.col|, j.k, m - 1);
      assert [a][1..] == [];
      var w := Act(j, u, a).value;
      assert Run(j, u, [a]) == Run(j, w, []) == Some(w);
      assert bs[..m] == bs[..m - 1] + [bs[m - 1]];
      assert w.tasks == Spawned(j, bs, m);
    }
  }

  // One thread runs to its end.
  lemma {:induction false} FinishThread(j: Job, s: State, t: nat, i: nat, acc: int) returns (acts: seq<Action>)
    requires JobOk(j) && t < j.k && t < |s.tasks| && s.tasks[t] == Running(i, acc) && JLo(j, t) <= i <= JHi(j, t) <= |j.col|
    requires acc == Fold(j.w, j.op, j.col, JLo(j, t), i)
    ensures Run(j, s, acts) == Some(s.(tasks := s.tasks[t := Out(ChunkFold(j, t))]))
    decreases |j.col| - i
  {
    hide Comb, Lo, Hi;
    var a := Work(t);
    var u := Act(j, s, a).value;
    if i >= JHi(j, t) {
      acts := [a];
      assert [a][1..] == [] && Run(j, u, []) == Some(u);
    } else {
      var rest := FinishThread(j, u, t, i + 1, Comb(j.w, j.op, acc, j.col[i]));
      acts := [a] + rest;
      assert acts[0] == a && acts[1..] == rest;
      assert u.tasks[t := Out(ChunkFold(j, t))] == s.tasks[t := Out(ChunkFold(j, t))];
    }
  }

  // Every thread but one runs to its end.
  lemma {:induction false} FinishBut(j: Job, bs: seq<bool>, late: nat, m: nat) returns (acts: seq<Action>)
    requires JobOk(j) && |bs| == j.k && late < j.k && m <= j.k
    ensures Run(j, Waiting(j, bs), acts) == Some(Waiting(j, bs).(tasks := Worked(j, bs, late, m)))
    decreases m
  {
    hide Act, Fold, ChunkFold;
    if m == 0 {
      acts := [];
      assert Waiting(j, bs).tasks == Worked(j, bs, late, 0);
    } else {
      var t := m - 1;
      var front := FinishBut(j, bs, late, t);
      var u := Run(j, Waiting(j, bs), front).value;
      var goal := Worked(j, bs, late, m);
      if t == late || !bs[t] {
        acts := front;
        assert u.tasks == goal;
      } else {
        ChunksPartition(|j.col|, j.k, t);
        var more := FinishThread(j, u, t, JLo(j, t), Identity(j.w, j.op)) by { FoldEmpty(j, JLo(j, t)); }
        acts := front + more;
        RunAppend(j, Waiting(j, bs), front, more);
        assert u.tasks[t := Out(ChunkFold(j, t))] == goal;
      }
    }
  }

  lemma FoldEmpty(j: Job, i: nat)
    requires i <= |j.col|
    ensures Fold(j.w, j.op, j.col, i, i) == Identity(j.w, j.op)
  {
  }

  // A column of identities.
  function Neutrals(w: Width, op: RedOp, n: nat): seq<int> { seq(n, i => Identity(w, op)) }

  lemma {:induction false} NeutralFold(w: Width, op: RedOp, n: nat, lo: nat, hi: nat)
    requires lo <= hi <= n
    ensures Fold(w, op, Neutrals(w, op, n), lo, hi) == Identity(w, op)
    decreases hi - lo
  {
    if lo < hi {
      NeutralFold(w, op, n, lo, hi - 1);
      Neutral(w, op, Identity(w, op));
    }
  }

  lemma {:induction false} JunkCombined(w: Width, op: RedOp, outs: seq<int>, late: nat, junk: int, m: nat)
    requires InRange(w, junk) && 0 < m <= |outs| && late < |outs| && outs[late] == junk
    requires forall t :: 0 <= t < |outs| && t != late ==> outs[t] == Identity(w, op)
    ensures Combined(w, op, outs, m) == if late < m then junk else Identity(w, op)
    decreases m
  {
    hide Comb, Identity;
    Neutral(w, op, junk);
    Neutral(w, op, Identity(w, op));
    if m > 1 {
      JunkCombined(w, op, outs, late, junk, m - 1);
    }
  }

  // Whatever the column of that length, the interleaving and what was in the slots: with these thread failures the result
  // is the left fold.
  ghost predicate ResultRight(j: Job, actions: seq<Action>, junk: int, bs: seq<bool>)
    requires JobOk(j)
  {
    var r := Run(j, Begin(j), actions);
    r.Some? && Joined(j, r.value) && r.value.created == bs ==>
      Combined(j.w, j.op, Outs(r.value, junk), j.k) == Fold(j.w, j.op, j.col, 0, |j.col|)
  }

  ghost predicate AlwaysFold(w: Width, op: RedOp, n: nat, bs: seq<bool>)
    requires |bs| > 0
  {
    forall col, actions, junk :: |col| == n && Column(w, col) && InRange(w, junk) ==>
      ResultRight(Job(w, op, col, |bs|), actions, junk, bs)
  }

  // A schedule on which the joins pass by a running thread, and the result is what was in its slot.
  lemma LateThread(w: Width, op: RedOp, n: nat, bs: seq<bool>, late: nat, junk: int) returns (acts: seq<Action>)
    requires late < |bs| && bs[late] && late >= Count(bs) && InRange(w, junk) && junk != Identity(w, op)
    ensures JobOk(Job(w, op, Neutrals(w, op, n), |bs|))
    ensures !ResultRight(Job(w, op, Neutrals(w, op, n), |bs|), acts, junk, bs)
  {
    hide Act, Comb, Identity, Count, Run;
    var j := Job(w, op, Neutrals(w, op, n), |bs|);
    var k := j.k;
    var spawns := SpawnAll(j, bs, k);
    assert bs[..k] == bs;
    assert Run(j, Begin(j), spawns) == Some(Waiting(j, bs)) by {
      assert Spawned(j, bs, k) == Waiting(j, bs).tasks;
    }
    var works := FinishBut(j, bs, late, k);
    acts := spawns + works;
    RunAppend(j, Begin(j), spawns, works);
    var s := Run(j, Begin(j), acts).value;
    forall t | 0 <= t < k && t != late
      ensures s.tasks[t] == Out(Identity(w, op))
    {
      ChunksPartition(n, k, t);
      NeutralFold(w, op, n, JLo(j, t), JHi(j, t));
    }
    assert s.tasks[late].Running?;
    assert Joined(j, s);
    JunkCombined(w, op, Outs(s, junk), late, junk, k);
    NeutralFold(w, op, n, 0, n);
  }

  // For every operator, column length and pattern of thread failures: the result is the left fold of the column, for every
  // column of that length, every interleaving and whatever was in the slots, if and only if the failures come last.
  lemma FailuresExact(w: Width, op: RedOp, n: nat, bs: seq<bool>)
    requires |bs| > 0
    ensures AlwaysFold(w, op, n, bs) <==> FailuresLast(bs)
  {
    hide Run, Joined, Combined, Fold, Identity, Outs;
    if FailuresLast(bs) {
      forall col, actions, junk | |col| == n && Column(w, col) && InRange(w, junk)
        ensures ResultRight(Job(w, op, col, |bs|), actions, junk, bs)
      {
        var j := Job(w, op, col, |bs|);
        var r := Run(j, Begin(j), actions);
        if r.Some? && Joined(j, r.value) && r.value.created == bs {
          ReduceIsFold(j, actions, junk);
        }
      }
    } else {
      JoinsReachAll(bs);
      var late :| 0 <= late < |bs| && bs[late] && late >= Count(bs);
      var junk := if Identity(w, op) == 0 then 1 else 0;
      var acts := LateThread(w, op, n, bs, late, junk);
      assert |Neutrals(w, op, n)| == n;
    }
  }

  // With two chunks and only the first thread failing, the joins are through while the second still runs.
  lemma LateFailureIsNotJoined(j: Job)
    requires JobOk(j) && j.k == 2
    ensures var r := Run(j, Begin(j), [Spawn(false), Spawn(true)]);
            r.Some? && Joined(j, r.value) && r.value.tasks[1].Running? && !FailuresLast(r.value.created)
  {
    hide Comb, Fold, Lo, Hi;
    var acts := [Spawn(false), Spawn(true)];
    ChunksPartition(|j.col|, 2, 0);
    ChunksPartition(|j.col|, 2, 1);
    var s0 := Begin(j);
    assert s0.tasks == [Idle, Idle];
    var f := Fold(j.w, j.op, j.col, JLo(j, 0), JHi(j, 0));
    var s1 := State(1, [false], [Out(f), Idle]);
    assert [] + [false] == [false] && [Idle, Idle][0 := Out(f)] == [Out(f), Idle];
    assert Act(j, s0, acts[0]) == Some(s1);
    var s2 := State(2, [false, true], [Out(f), Running(JLo(j, 1), Identity(j.w, j.op))]);
    assert [false] + [true] == [false, true];
    assert [Out(f), Idle][1 := s2.tasks[1]] == s2.tasks;
    assert Act(j, s1, acts[1]) == Some(s2);
    assert acts[1..] == [acts[1]] && acts[1..][1..] == [];
    assert Run(j, s2, []) == Some(s2);
    assert Run(j, s1, acts[1..]) == Some(s2);
    CountFalseTrue(s2.created);
  }

  lemma CountFalseTrue(bs: seq<bool>)
    requires bs == [false, true]
    ensures Count(bs) == 1
  {
    assert bs[..1] == [false] && [false][..0] == [];
    assert Count([false]) == 0;
  }

  // ---- the code ----

  method FoldRange(w: Width, op: RedOp, col: seq<int>, lo: nat, hi: nat) returns (acc: int)
    requires lo <= hi <= |col|
    ensures acc == Fold(w, op, col, lo, hi)
  {
    acc := Identity(w, op);
    for i := lo to hi
      invariant acc == Fold(w, op, col, lo, i)
    {
      acc := Comb(w, op, acc, col[i]);
    }
  }

  // At most one thread a processor, sixteen in all, and a minimum of work each.
  method ThreadCount(n: nat, processors: int) returns (k: nat)
    ensures 1 <= k <= MAX_THREADS
    ensures n < 2 * MIN_PER_THREAD ==> k == 1
    ensures k > 1 ==> k <= processors && k * 16384 <= n
    ensures k < 16 && k < processors ==> n < (k + 1) * 16384
  {
    var ncpu := if processors < 1 then 1 else if processors > MAX_THREADS then MAX_THREADS else processors;
    var byWork := n / MIN_PER_THREAD;
    if byWork < 1 {
      byWork := 1;
    }
    k := if byWork < ncpu then byWork else ncpu;
  }

  // The whole reduce, with any outcome of the thread creations; what each thread leaves is what a fold of its chunk
  // leaves, whenever it runs.
  method Reduce(w: Width, op: RedOp, col: seq<int>, processors: int) returns (r: int)
    requires Column(w, col)
    ensures r == Fold(w, op, col, 0, |col|)
  {
    if |col| == 0 {
      return Identity(w, op);
    }
    var n := |col|;
    var k := ThreadCount(n, processors);
    if k <= 1 {
      r := FoldRange(w, op, col, 0, n);
      return;
    }
    var outs := new int[k];
    var chunk := n / k;
    for t := 0 to k
      invariant forall i :: 0 <= i < t ==> Lo(n, k, i) <= Hi(n, k, i) <= n && outs[i] == Fold(w, op, col, Lo(n, k, i), Hi(n, k, i))
    {
      ChunksPartition(n, k, t);
      var lo, hi := t * chunk, if t == k - 1 then n else (t + 1) * chunk;
      outs[t] := FoldRange(w, op, col, lo, hi);
    }
    r := outs[0];
    for t := 1 to k
      invariant r == Combined(w, op, outs[..], t)
    {
      r := Comb(w, op, r, outs[t]);
    }
    CombinedIsFold(w, op, col, outs[..], k, k);
    ChunksPartition(n, k, k - 1);
  }
}

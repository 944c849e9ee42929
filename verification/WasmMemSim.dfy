// How generated stores change the linear memory: one array element, or one argument slot, and nothing else.
module WasmMemSim {
  import opened Bytes
  import opened WasmInstr
  import opened Values
  import opened Hir
  import opened WasmGen
  import opened HirSem
  import opened Fragment
  import opened WasmTables
  import opened WasmExec
  import opened WasmExprSim

  // Memory not yet given to an array is still zero.
  ghost predicate FreeZero(cursor: int, mem: Mem) { forall p :: 0 <= p < |mem| && cursor <= p ==> mem[p] == 0 }

  // The string pool holds the program's strings, below the arrays.
  ghost predicate PoolOk(strings: seq<byte>, mem: Mem) {
    && |mem| == MEM_BYTES && |strings| <= ARRAYS_BASE - STRINGS_BASE
    && mem[STRINGS_BASE..STRINGS_BASE + |strings|] == strings
  }

  // The machine state that corresponds to a source state at a point of the program.
  ghost predicate Rel(env: Env, m: Machine, types: Types, ctx: Ctx, g: Gen, gF: Gen, st: State, c: Cfg) {
    && Ready(env, m, types, ctx, g, gF, st, c)
    && c.trace == st.trace && FreeZero(g.cursor, c.mem) && PoolOk(gF.strings, c.mem)
  }

  // What the machine did against what the source did.
  ghost predicate Sim(env: Env, m: Machine, types: Types, ctx: Ctx, g: Gen, gF: Gen, r: Res, er: ExecRes) {
    match er
    case Done(st) => r.Next? && r.stack == [] && Rel(env, m, types, ctx, g, gF, st, r.c)
    case Abort(trace) => r == Trapped(trace)
    case Timeout => r == OutOfFuel
    case Wild => true
  }

  // ---- disjointness ----

  lemma ElementsApart(g: Gen, a: Arr, k: int, b: Arr, j: int)
    requires LayoutOk(g) && g.cursor <= MEM_BYTES && a in g.arrays && b in g.arrays
    requires 0 <= k < a.total && 0 <= j < b.total && (a.name != b.name || (a == b && k != j))
    ensures var p, q := At(a, k), At(b, j); p + a.size <= q || q + b.size <= p
  {
    hide LayoutOk, At, End;
    ElementAddress(g, a, k);
    ElementAddress(g, b, j);
    if a == b {
      if k < j {
        NextElement(a, k, j);
      } else {
        NextElement(a, j, k);
      }
    } else {
      ArraysApart(g, a, b);
    }
  }

  lemma NextElement(a: Arr, k: int, j: int)
    requires k < j && a.size >= 0
    ensures At(a, k) + a.size <= At(a, j)
  {
    Scaled(k, j, a.size);
  }

  lemma ArraysApart(g: Gen, a: Arr, b: Arr)
    requires LayoutOk(g) && a in g.arrays && b in g.arrays && a != b
    ensures End(a) <= b.base || End(b) <= a.base
  {
    hide End;
    var i :| 0 <= i < |g.arrays| && g.arrays[i] == a;
    var j :| 0 <= j < |g.arrays| && g.arrays[j] == b;
    if i < j {
      assert End(g.arrays[i]) <= g.arrays[j].base;
    } else {
      assert End(g.arrays[j]) <= g.arrays[i].base;
    }
  }

  // An element read at p bytes away from the written range is unchanged.
  lemma ElemUntouched(a: Arr, t: ATy, mem: Mem, k: int, v: Val, p: int, b: seq<byte>)
    requires Matches(a, t) && ElemIs(a, mem, k, v) && InMem(mem, p, |b|)
    requires var q := At(a, k); p + |b| <= q || q + a.size <= p
    ensures ElemIs(a, Write(mem, p, b), k, v)
  {
    LoadWidth(a, t);
    ReadElsewhere(mem, p, b, At(a, k), a.size);
  }

  // ---- storing an element and reading it back ----

  lemma WidthPowers()
    ensures Pow256(1) == Pow2(8) == 256
    ensures Pow256(2) == Pow2(16) == 65536
    ensures Pow256(4) == Pow2(32) == U32_LIMIT
  {
    assert Pow256(1) == 256;
    assert Pow256(2) == 256 * Pow256(1);
    assert Pow256(3) == 256 * Pow256(2);
    assert Pow256(4) == 256 * Pow256(3);
    assert Pow2(4) == 16;
    Pow2Add(4, 4);
    Pow2Add(8, 8);
    Pow2Add(16, 16);
  }

  // The value of a type that the source stores, as the target's store instruction receives it.
  function Converted(h: Host, a: Arr, v: Val): Val { if a.wt == F64 then VF(ToFloat(h, v)) else v }

  lemma StoreLoad(h: Host, a: Arr, t: ATy, v: Val, vt: STy)
    requires Matches(a, t) && HasTy(v, vt) && Storable(t.elem, vt)
    ensures HasElem(Stored(h, t.elem, v), t.elem)
    ensures var b := StoreBytes(StoreOf(a).sop, Converted(h, a, v));
            && b.Some? && |b.value| == a.size == LoadSize(LoadOf(a).lop)
            && LoadValue(LoadOf(a).lop, b.value) == Stored(h, t.elem, v)
  {
    LoadWidth(a, t);
    match t.elem
    case EFloat =>
    case _ =>
      IntStoreLoad(a, t, v.i);
      NarrowIsStable(t.elem, v.i);
  }

  lemma IntStoreLoad(a: Arr, t: ATy, v: int)
    requires Matches(a, t) && !t.elem.EFloat? && InI32(v)
    requires t.elem.EBool? ==> v == 0 || v == 1
    ensures var b := StoreBytes(StoreOf(a).sop, VI(v));
            && b == Some(LeBytes(v, a.size)) && a.size == LoadSize(LoadOf(a).lop)
            && LoadValue(LoadOf(a).lop, LeBytes(v, a.size)) == VI(Narrow(t.elem, v))
  {
    hide Pow2, Pow256, LeBytes, LeValue, ToSigned;
    LoadWidth(a, t);
    WidthPowers();
    LeRoundTrip(v, a.size);
    if a.size == 4 {
      SignedResidue(v, U32_LIMIT);
      assert Narrow(t.elem, v) == v by {
        if t.elem.EInt? {
          NarrowIsStable(t.elem, v);
        }
      }
    }
  }

  // Reading a residue as a signed number keeps the residue.
  lemma SignedResidue(v: int, p: int)
    requires p == 256 || p == 65536 || p == U32_LIMIT
    ensures var s := ToSigned(v % p, p); s % p == v % p && -p <= 2 * s < p
    ensures -p <= 2 * v < p ==> ToSigned(v % p, p) == v
  {
    var u := v % p;
    if 2 * u >= p {
      ModUnique(u - p, p, -1, u);
    }
    if -p <= 2 * v < p && v < 0 {
      ModUnique(v, p, -1, v + p);
    }
  }

  lemma NarrowIsStable(e: ETy, v: int)
    requires ElemOk(e) && InI32(v)
    ensures InI32(Narrow(e, v)) && Narrow(e, Narrow(e, v)) == Narrow(e, v)
    ensures e.EInt? && e.width == 32 ==> Narrow(e, v) == v
  {
    hide Pow2, ToSigned;
    WidthPowers();
    if e.EInt? && e.isSigned {
      SignedResidue(v, Pow2(e.width));
      SignedResidue(Narrow(e, v), Pow2(e.width));
    }
  }

  // Writing one element keeps every other element, the pool and the free memory, and sets this one.
  lemma WriteElement(gF: Gen, cursor: int, a: Arr, t: ATy, vals: seq<Val>, mem: Mem, k: int, b: seq<byte>, v: Val)
    requires LayoutOk(gF) && gF.cursor <= MEM_BYTES && |mem| == MEM_BYTES && a in gF.arrays && Matches(a, t)
    requires ArrHolds(a, vals, mem) && 0 <= k < a.total && |b| == a.size
    requires LoadSize(LoadOf(a).lop) == |b| && LoadValue(LoadOf(a).lop, b) == v
    ensures InMem(mem, At(a, k), |b|)
    ensures ArrHolds(a, vals[k := v], Write(mem, At(a, k), b))
  {
    ElementAddress(gF, a, k);
    var p := At(a, k);
    var mem' := Write(mem, p, b);
    var vals' := vals[k := v];
    ReadWritten(mem, p, b);
    forall j | 0 <= j < |vals'|
      ensures ElemIs(a, mem', j, vals'[j])
    {
      if j != k {
        ElementsApart(gF, a, k, a, j);
        ElemUntouched(a, t, mem, j, vals[j], p, b);
      }
    }
  }

  lemma OtherArraysHold(gF: Gen, a: Arr, k: int, size: nat, b: Arr, t: ATy, vals: seq<Val>, mem: Mem, data: seq<byte>)
    requires LayoutOk(gF) && gF.cursor <= MEM_BYTES && |mem| == MEM_BYTES && a in gF.arrays && b in gF.arrays
    requires a.name != b.name && Matches(b, t) && ArrHolds(b, vals, mem) && 0 <= k < a.total && |data| == a.size
    requires InMem(mem, At(a, k), |data|)
    ensures ArrHolds(b, vals, Write(mem, At(a, k), data))
  {
    forall j | 0 <= j < |vals|
      ensures ElemIs(b, Write(mem, At(a, k), data), j, vals[j])
    {
      ElementsApart(gF, a, k, b, j);
      ElemUntouched(b, t, mem, j, vals[j], At(a, k), data);
    }
  }

  lemma PoolUntouched(strings: seq<byte>, mem: Mem, p: int, b: seq<byte>)
    requires PoolOk(strings, mem) && InMem(mem, p, |b|)
    requires p >= ARRAYS_BASE || p + |b| <= STRINGS_BASE
    ensures PoolOk(strings, Write(mem, p, b))
  {
    ReadElsewhere(mem, p, b, STRINGS_BASE, |strings|);
  }

  lemma FreeUntouched(cursor: int, mem: Mem, p: int, b: seq<byte>)
    requires FreeZero(cursor, mem) && InMem(mem, p, |b|) && p + |b| <= cursor
    ensures FreeZero(cursor, Write(mem, p, b))
  {
  }

  // The states correspond once the bytes are written at the element's address and the element has the value.
  ghost predicate StoresElement(env: Env, m: Machine, types: Types, ctx: Ctx, g: Gen, gF: Gen, st: State, c: Cfg,
                                name: string, k: int, v: Val)
    requires name in ctx.arrs && name in st.arrs && 0 <= k < |st.arrs[name].vals| && FindArr(g.arrays, name).Some?
  {
    var a := FindArr(g.arrays, name).value;
    var b := StoreBytes(StoreOf(a).sop, Converted(env.host, a, v));
    && b.Some? && InMem(c.mem, At(a, k), |b.value|) && 0 <= At(a, k) < MEM_BYTES
    && Rel(env, m, types, ctx, g, gF, SetElem(st, name, k, Stored(env.host, ctx.arrs[name].elem, v)),
           c.(mem := Write(c.mem, At(a, k), b.value)))
  }

  // The whole state after storing into element k of a visible array.
  lemma ElementStored(env: Env, m: Machine, types: Types, ctx: Ctx, g: Gen, gF: Gen, st: State, c: Cfg,
                      name: string, k: int, v: Val, vt: STy)
    requires Rel(env, m, types, ctx, g, gF, st, c) && name in ctx.arrs
    requires HasTy(v, vt) && Storable(ctx.arrs[name].elem, vt)
    requires FindArr(g.arrays, name).Some? && 0 <= k < FindArr(g.arrays, name).value.total
    ensures name in st.arrs && k < |st.arrs[name].vals|
    ensures StoresElement(env, m, types, ctx, g, gF, st, c, name, k, v)
  {
    hide Rel, Ready, LayoutOk, FreeZero, PoolOk, ArrHolds, ArrValOk, Matches, HasElem, StoreBytes, Converted, FindArr;
    hide At, End, Read, Write, Stored, HasTy, Storable, StOk, CtxOk, Grows, StoresElement;
    RelParts(env, m, types, ctx, g, gF, st, c);
    ArrayReady(env, m, types, ctx, g, gF, st, c, name);
    var a := FindArr(g.arrays, name).value;
    var t := ctx.arrs[name];
    HeldLength(a, st.arrs[name].vals, c.mem);
    StoreLoad(env.host, a, t, v, vt);
    var b := StoreBytes(StoreOf(a).sop, Converted(env.host, a, v)).value;
    var w := Stored(env.host, t.elem, v);
    ElementAddress(gF, a, k);
    ElementAddressIn(g, a, k);
    WriteElement(gF, g.cursor, a, t, st.arrs[name].vals, c.mem, k, b, w);
    PoolUntouched(gF.strings, c.mem, At(a, k), b);
    FreeUntouched(g.cursor, c.mem, At(a, k), b);
    ArraysAfterStore(env, m, types, ctx, g, gF, st, c, name, k, b, w);
    RelWhole(env, m, types, ctx, g, gF, SetElem(st, name, k, w), c.(mem := Write(c.mem, At(a, k), b)));
    StoredIs(env, m, types, ctx, g, gF, st, c, name, k, v);
  }

  lemma HeldLength(a: Arr, vals: seq<Val>, mem: Mem)
    requires ArrHolds(a, vals, mem)
    ensures |vals| == a.total
  {
  }

  lemma StoredIs(env: Env, m: Machine, types: Types, ctx: Ctx, g: Gen, gF: Gen, st: State, c: Cfg,
                 name: string, k: int, v: Val)
    requires name in ctx.arrs && name in st.arrs && 0 <= k < |st.arrs[name].vals| && FindArr(g.arrays, name).Some?
    requires var a := FindArr(g.arrays, name).value;
             var b := StoreBytes(StoreOf(a).sop, Converted(env.host, a, v));
             && b.Some? && InMem(c.mem, At(a, k), |b.value|) && 0 <= At(a, k) < MEM_BYTES
             && Rel(env, m, types, ctx, g, gF, SetElem(st, name, k, Stored(env.host, ctx.arrs[name].elem, v)),
                    c.(mem := Write(c.mem, At(a, k), b.value)))
    ensures StoresElement(env, m, types, ctx, g, gF, st, c, name, k, v)
  {
    hide Rel;
  }

  lemma RelParts(env: Env, m: Machine, types: Types, ctx: Ctx, g: Gen, gF: Gen, st: State, c: Cfg)
    requires Rel(env, m, types, ctx, g, gF, st, c)
    ensures Ready(env, m, types, ctx, g, gF, st, c) && c.trace == st.trace
    ensures FreeZero(g.cursor, c.mem) && PoolOk(gF.strings, c.mem)
    ensures LayoutOk(gF) && LayoutOk(g) && gF.cursor <= MEM_BYTES && |c.mem| == MEM_BYTES
  {
  }

  lemma RelWhole(env: Env, m: Machine, types: Types, ctx: Ctx, g: Gen, gF: Gen, st: State, c: Cfg)
    requires Ready(env, m, types, ctx, g, gF, st, c) && c.trace == st.trace
    requires FreeZero(g.cursor, c.mem) && PoolOk(gF.strings, c.mem)
    ensures Rel(env, m, types, ctx, g, gF, st, c)
  {
  }

  lemma ElementAddressIn(g: Gen, a: Arr, k: int)
    requires LayoutOk(g) && a in g.arrays && 0 <= k < a.total
    ensures At(a, k) + a.size <= g.cursor
  {
    ElementAtEnd(a, k);
  }

  lemma ElementAtEnd(a: Arr, k: int)
    requires k < a.total && a.size >= 0
    ensures At(a, k) + a.size <= End(a)
  {
    Scaled(k, a.total, a.size);
  }

  lemma ArraysAfterStore(env: Env, m: Machine, types: Types, ctx: Ctx, g: Gen, gF: Gen, st: State, c: Cfg,
                         name: string, k: int, b: seq<byte>, w: Val)
    requires Ready(env, m, types, ctx, g, gF, st, c) && name in ctx.arrs && name in st.arrs
    requires FindArr(g.arrays, name).Some? && 0 <= k < FindArr(g.arrays, name).value.total
    requires k < |st.arrs[name].vals| && HasElem(w, ctx.arrs[name].elem)
    requires var a := FindArr(g.arrays, name).value;
             && |b| == a.size && InMem(c.mem, At(a, k), |b|)
             && ArrHolds(a, st.arrs[name].vals[k := w], Write(c.mem, At(a, k), b))
    ensures var a := FindArr(g.arrays, name).value;
            Ready(env, m, types, ctx, g, gF, SetElem(st, name, k, w), c.(mem := Write(c.mem, At(a, k), b)))
  {
    hide At, End, Read, Write;
    StoreKeepsArrays(env, m, types, ctx, g, gF, st, c, name, k, b, w);
    StoreKeepsTyping(ctx, st, name, k, w);
  }

  lemma StoreKeepsTyping(ctx: Ctx, st: State, name: string, k: int, w: Val)
    requires StOk(ctx, st) && name in st.arrs && 0 <= k < |st.arrs[name].vals| && HasElem(w, ctx.arrs[name].elem)
    ensures StOk(ctx, SetElem(st, name, k, w))
  {
    var st' := SetElem(st, name, k, w);
    assert st'.arrs.Keys == st.arrs.Keys;
  }

  lemma OneArrayAfterStore(env: Env, m: Machine, types: Types, ctx: Ctx, g: Gen, gF: Gen, st: State, c: Cfg,
                           name: string, k: int, b: seq<byte>, x: string)
    requires Ready(env, m, types, ctx, g, gF, st, c) && name in ctx.arrs && x in st.arrs && x != name
    requires FindArr(g.arrays, name).Some? && 0 <= k < FindArr(g.arrays, name).value.total
    requires var a := FindArr(g.arrays, name).value; |b| == a.size && InMem(c.mem, At(a, k), |b|)
    ensures FindArr(gF.arrays, x).Some?
    ensures ArrHolds(FindArr(gF.arrays, x).value, st.arrs[x].vals, Write(c.mem, At(FindArr(g.arrays, name).value, k), b))
  {
    hide At, End, Read, Write;
    ArrayReady(env, m, types, ctx, g, gF, st, c, name);
    ArrayReady(env, m, types, ctx, g, gF, st, c, x);
    OtherArraysHold(gF, FindArr(g.arrays, name).value, k, FindArr(g.arrays, name).value.size,
                    FindArr(gF.arrays, x).value, ctx.arrs[x], st.arrs[x].vals, c.mem, b);
  }

  lemma StoreKeepsArrays(env: Env, m: Machine, types: Types, ctx: Ctx, g: Gen, gF: Gen, st: State, c: Cfg,
                         name: string, k: int, b: seq<byte>, w: Val)
    requires Ready(env, m, types, ctx, g, gF, st, c) && name in ctx.arrs && name in st.arrs
    requires FindArr(g.arrays, name).Some? && 0 <= k < FindArr(g.arrays, name).value.total
    requires k < |st.arrs[name].vals|
    requires var a := FindArr(g.arrays, name).value;
             && |b| == a.size && InMem(c.mem, At(a, k), |b|)
             && ArrHolds(a, st.arrs[name].vals[k := w], Write(c.mem, At(a, k), b))
    ensures ArrsRel(gF.arrays, SetElem(st, name, k, w).arrs, Write(c.mem, At(FindArr(g.arrays, name).value, k), b))
  {
    hide At, End, Read, Write, LayoutOk, ArrHolds, StOk, CtxOk;
    var mem' := Write(c.mem, At(FindArr(g.arrays, name).value, k), b);
    var arrs' := SetElem(st, name, k, w).arrs;
    ArrayReady(env, m, types, ctx, g, gF, st, c, name);
    forall x | x in arrs'
      ensures FindArr(gF.arrays, x).Some? && ArrHolds(FindArr(gF.arrays, x).value, arrs'[x].vals, mem')
    {
      if x != name {
        OneArrayAfterStore(env, m, types, ctx, g, gF, st, c, name, k, b, x);
      }
    }
  }

  // A freshly declared array reads as zeros.
  lemma FreshArray(a: Arr, t: ATy, mem: Mem)
    requires Matches(a, t) && FreeZero(a.base, mem) && 0 <= a.base && End(a) <= |mem|
    ensures ArrHolds(a, seq(t.total, i => ZeroOf(t.elem)), mem)
  {
    LoadWidth(a, t);
    var vals := seq(t.total, i => ZeroOf(t.elem));
    forall k | 0 <= k < |vals|
      ensures ElemIs(a, mem, k, vals[k])
    {
      assert (k + 1) * a.size <= a.total * a.size;
      assert (k + 1) * a.size == k * a.size + a.size && k * a.size >= 0;
      ZeroElement(a, t, Read(mem, At(a, k), a.size));
    }
  }

  lemma ZeroElement(a: Arr, t: ATy, b: seq<byte>)
    requires Matches(a, t) && |b| == a.size && (forall i :: 0 <= i < |b| ==> b[i] == 0)
    ensures LoadSize(LoadOf(a).lop) == |b| && LoadValue(LoadOf(a).lop, b) == ZeroOf(t.elem)
  {
    LoadWidth(a, t);
    if t.elem.EFloat? {
      assert b == ZERO_BITS;
    } else {
      ZeroBytes(b);
    }
  }

  lemma {:induction false} ZeroBytes(b: seq<byte>)
    requires forall i :: 0 <= i < |b| ==> b[i] == 0
    ensures LeValue(b) == 0
    decreases b
  {
    if b != [] {
      ZeroBytes(b[1..]);
    }
  }

  // ---- argument slots ----

  predicate InSlots(p: int, n: nat) { ARGS_BASE <= p && p + n <= STRINGS_BASE }

  lemma SlotWritten(env: Env, m: Machine, types: Types, ctx: Ctx, g: Gen, gF: Gen, st: State, c: Cfg, p: int, b: seq<byte>)
    requires Rel(env, m, types, ctx, g, gF, st, c) && InSlots(p, |b|)
    ensures InMem(c.mem, p, |b|)
    ensures Rel(env, m, types, ctx, g, gF, st, c.(mem := Write(c.mem, p, b)))
  {
    PoolUntouched(gF.strings, c.mem, p, b);
    FreeBelow(g.cursor, c.mem, p, b);
    forall x | x in st.arrs
      ensures FindArr(gF.arrays, x).Some? && ArrHolds(FindArr(gF.arrays, x).value, st.arrs[x].vals, Write(c.mem, p, b))
    {
      ArrayReady(env, m, types, ctx, g, gF, st, c, x);
      SlotsBelowArrays(gF, FindArr(gF.arrays, x).value, ctx.arrs[x], st.arrs[x].vals, c.mem, p, b);
    }
  }

  lemma FreeBelow(cursor: int, mem: Mem, p: int, b: seq<byte>)
    requires FreeZero(cursor, mem) && InMem(mem, p, |b|) && p + |b| <= ARRAYS_BASE <= cursor
    ensures FreeZero(cursor, Write(mem, p, b))
  {
  }

  lemma SlotsBelowArrays(gF: Gen, a: Arr, t: ATy, vals: seq<Val>, mem: Mem, p: int, b: seq<byte>)
    requires LayoutOk(gF) && gF.cursor <= MEM_BYTES && a in gF.arrays && Matches(a, t) && ArrHolds(a, vals, mem)
    requires InMem(mem, p, |b|) && p + |b| <= ARRAYS_BASE
    ensures ArrHolds(a, vals, Write(mem, p, b))
  {
    forall k | 0 <= k < |vals|
      ensures ElemIs(a, Write(mem, p, b), k, vals[k])
    {
      ElementAddress(gF, a, k);
      ElemUntouched(a, t, mem, k, vals[k], p, b);
    }
  }
}

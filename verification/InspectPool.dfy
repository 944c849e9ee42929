// A pool as the inspector sees it: where in memory its bookkeeping and its cells are, which slots are live, what a
// row's bytes are, and what a poke may write.
module InspectPool {
  import opened Bytes
  import opened Values

  type Mem = seq<byte>

  predicate InMem(mem: Mem, a: int, n: nat) { 0 <= a && a + n <= |mem| }

  function Read(mem: Mem, a: int, n: nat): (r: seq<byte>)
    ensures |r| == n
  {
    if InMem(mem, a, n) then mem[a..a + n] else seq(n, i => 0)
  }

  function Write(mem: Mem, a: int, b: seq<byte>): (r: Mem)
    requires InMem(mem, a, |b|)
    ensures |r| == |mem|
  {
    mem[..a] + b + mem[a + |b|..]
  }

  // A pointer, and a signed 64-bit number.
  function Word(mem: Mem, a: int): nat { LeValue(Read(mem, a, 8)) }
  function Long(mem: Mem, a: int): int { ToSigned(Word(mem, a), Pow256(8)) }

  // ---- registered pools ----

  datatype Tag = I8 | I16 | I32 | I64 | I128 | U8 | U16 | U32 | U64 | U128 | F32 | CharTag | HandleTag | OpaqueTag

  datatype Field = Field(name: string, tag: Tag, isColumn: bool, offset: nat, ecount: nat, esize: nat)

  // The base of a static pool is its struct; that of a dynamic one holds a pointer to it.
  datatype Pool = Pool(name: string, base: nat, isDynamic: bool, capacity: int, fields: seq<Field>, countOff: nat,
                       freeListOff: nat, freeCountOff: nat, genOff: nat, capOff: nat)

  // ---- bookkeeping ----

  function Struct(p: Pool, mem: Mem): nat { if p.isDynamic then Word(mem, p.base) else p.base }
  function Count(p: Pool, mem: Mem): int { Long(mem, Struct(p, mem) + p.countOff) }
  function FreeCount(p: Pool, mem: Mem): int { Long(mem, Struct(p, mem) + p.freeCountOff) }
  function Capacity(p: Pool, mem: Mem): int {
    if p.isDynamic then Long(mem, Struct(p, mem) + p.capOff) else p.capacity
  }

  // Arrays are inline in a static pool and behind a pointer in a dynamic one; 0 is the null pointer.
  function Target(p: Pool, mem: Mem, off: nat): nat {
    if p.isDynamic then Word(mem, Struct(p, mem) + off) else Struct(p, mem) + off
  }
  function FreeList(p: Pool, mem: Mem): nat { Target(p, mem, p.freeListOff) }
  function Gens(p: Pool, mem: Mem): nat { Target(p, mem, p.genOff) }

  predicate IsNull(p: Pool, a: nat) { p.isDynamic && a == 0 }

  // Freed slots are the entries 1 to free_count - 1 of the free list.
  predicate SlotIsFree(p: Pool, mem: Mem, slot: int) {
    !IsNull(p, FreeList(p, mem)) && exists i :: 1 <= i < FreeCount(p, mem) && FreeEntry(p, mem, i) == slot
  }

  function FreeEntry(p: Pool, mem: Mem, i: int): int { Long(mem, FreeList(p, mem) + i * 8) }

  function GenOf(p: Pool, mem: Mem, slot: int): int {
    if IsNull(p, Gens(p, mem)) then 0 else ToSigned(LeValue(Read(mem, Gens(p, mem) + slot * 4, 4)), Pow256(4))
  }

  // The live slots of [0, n), in order.
  function Live(p: Pool, mem: Mem, n: nat): seq<nat> {
    if n == 0 then [] else Live(p, mem, n - 1) + if SlotIsFree(p, mem, n - 1) then [] else [n - 1]
  }

  // ---- cells ----

  function FieldBase(p: Pool, mem: Mem, f: Field): nat {
    if f.isColumn then Target(p, mem, f.offset) else Struct(p, mem) + f.offset
  }

  function Flat(f: Field, slot: int, sub: int): int { slot * f.ecount + sub }

  // The address of sub-element `sub` of a column's row; None without storage.
  function CellAddr(p: Pool, mem: Mem, f: Field, slot: int, sub: int): Option<int> {
    if f.isColumn && IsNull(p, FieldBase(p, mem, f)) then None
    else Some(FieldBase(p, mem, f) + (if f.isColumn then Flat(f, slot, sub) else sub) * f.esize)
  }

  function Cell(p: Pool, mem: Mem, f: Field, slot: int, sub: int): seq<byte> {
    match CellAddr(p, mem, f, slot, sub) case None => seq(f.esize, i => 0) case Some(a) => Read(mem, a, f.esize)
  }

  // ---- a poke ----

  function HexNibble(c: char): (r: Option<nat>)
    ensures r.Some? ==> r.value < 16
  {
    if '0' <= c <= '9' then Some(c as int - '0' as int)
    else if 'a' <= c <= 'f' then Some(c as int - 'a' as int + 10)
    else if 'A' <= c <= 'F' then Some(c as int - 'A' as int + 10)
    else None
  }

  function HexBytes(s: string): (r: Option<seq<byte>>)
    requires |s| % 2 == 0
    ensures r.Some? ==> |r.value| == |s| / 2
  {
    if s == [] then Some([])
    else match (HexNibble(s[0]), HexNibble(s[1]))
      case (Some(h), Some(l)) => (match HexBytes(s[2..]) case None => None case Some(r) => Some([16 * h + l] + r))
      case _ => None
  }

  // Each stands for the words behind ERR in the reply.
  datatype Reason =
    | NotAllocated | BadField | ReadonlyField | SubOob | Width | BadHex | SlotOob | DeadSlot | StaleGen | NoCell

  datatype Reply = Ok | Err(reason: Reason)

  datatype PokeReq = PokeReq(slot: int, gen: int, field: int, sub: int, hex: string) {
    // The slot a cell is named by; a pool-wide value has none.
    function slotOr(f: Field): int { if f.isColumn then slot else 0 }
  }

  // What the request comes to: an error, or bytes to be written at an address.
  datatype Plan = Refuse(reason: Reason) | Store(at: int, bytes: seq<byte>)

  function PlanPoke(p: Pool, mem: Mem, r: PokeReq): Plan {
    if p.isDynamic && Struct(p, mem) == 0 then Refuse(NotAllocated)
    else if r.field < 0 || r.field >= |p.fields| then Refuse(BadField)
    else
      var f := p.fields[r.field];
      if f.tag == HandleTag || f.tag == OpaqueTag then Refuse(ReadonlyField)
      else if r.sub < 0 || r.sub >= f.ecount then Refuse(SubOob)
      else if |r.hex| % 2 != 0 || |r.hex| / 2 != f.esize || f.esize > 16 then Refuse(Width)
      else match HexBytes(r.hex)
        case None => Refuse(BadHex)
        case Some(b) =>
          if f.isColumn && (r.slot < 0 || r.slot >= Capacity(p, mem) || r.slot >= Count(p, mem)) then Refuse(SlotOob)
          else if f.isColumn && SlotIsFree(p, mem, r.slot) then Refuse(DeadSlot)
          else if f.isColumn && !IsNull(p, Gens(p, mem)) && GenOf(p, mem, r.slot) != r.gen then Refuse(StaleGen)
          else match CellAddr(p, mem, f, r.slot, r.sub)
            case None => Refuse(NoCell)
            case Some(a) => Store(a, b)
  }

  // ---- the checks of a poke, each for itself ----

  predicate Allocated(p: Pool, mem: Mem) { p.isDynamic ==> Struct(p, mem) != 0 }

  predicate FieldNamed(p: Pool, r: PokeReq) { 0 <= r.field < |p.fields| }

  function Named(p: Pool, r: PokeReq): Field
    requires FieldNamed(p, r)
  {
    p.fields[r.field]
  }

  // Neither a handle nor a pointer of C's.
  predicate Editable(f: Field) { !f.tag.HandleTag? && !f.tag.OpaqueTag? }

  predicate SubThere(f: Field, r: PokeReq) { 0 <= r.sub && r.sub < f.ecount }

  // Two digits for each byte of one element, of sixteen bytes at most.
  predicate Wide(f: Field, r: PokeReq) { |r.hex| == 2 * f.esize && f.esize <= 16 }

  predicate HexChar(c: char) { '0' <= c <= '9' || 'a' <= c <= 'f' || 'A' <= c <= 'F' }

  predicate AllHex(s: string) { forall i :: 0 <= i < |s| ==> HexChar(s[i]) }

  predicate SlotThere(p: Pool, mem: Mem, r: PokeReq) { 0 <= r.slot && r.slot < Capacity(p, mem) && r.slot < Count(p, mem) }

  // No entry of the free list from the second on names the slot.
  predicate SlotLive(p: Pool, mem: Mem, slot: int) {
    IsNull(p, FreeList(p, mem)) || forall i :: 1 <= i < FreeCount(p, mem) ==> FreeEntry(p, mem, i) != slot
  }

  predicate GenRight(p: Pool, mem: Mem, r: PokeReq) { IsNull(p, Gens(p, mem)) || GenOf(p, mem, r.slot) == r.gen }

  predicate Stored(p: Pool, mem: Mem, f: Field) { p.isDynamic && f.isColumn ==> Word(mem, Struct(p, mem) + f.offset) != 0 }

  // What the request must be for its cell to be written; slot, generation and storage matter to columns only.
  predicate FieldFine(p: Pool, mem: Mem, r: PokeReq) {
    && Allocated(p, mem) && FieldNamed(p, r) && Editable(Named(p, r)) && SubThere(Named(p, r), r)
    && Wide(Named(p, r), r) && AllHex(r.hex)
  }

  predicate SlotFine(p: Pool, mem: Mem, r: PokeReq)
    requires FieldNamed(p, r)
  {
    Named(p, r).isColumn ==> SlotThere(p, mem, r) && SlotLive(p, mem, r.slot) && GenRight(p, mem, r)
  }

  predicate Pokeable(p: Pool, mem: Mem, r: PokeReq) {
    FieldFine(p, mem, r) && SlotFine(p, mem, r) && Stored(p, mem, Named(p, r))
  }

  // The reply is the first check that fails, or OK.
  ghost predicate Answers(p: Pool, mem: Mem, r: PokeReq, reply: Reply) {
    && (reply == Err(NotAllocated) <==> !Allocated(p, mem))
    && (reply == Err(BadField) <==> Allocated(p, mem) && !FieldNamed(p, r))
    && (reply == Err(ReadonlyField) <==> Allocated(p, mem) && FieldNamed(p, r) && !Editable(Named(p, r)))
    && (reply == Err(SubOob) <==>
          Allocated(p, mem) && FieldNamed(p, r) && Editable(Named(p, r)) && !SubThere(Named(p, r), r))
    && (reply == Err(Width) <==>
          Allocated(p, mem) && FieldNamed(p, r) && Editable(Named(p, r)) && SubThere(Named(p, r), r) && !Wide(Named(p, r), r))
    && (reply == Err(BadHex) <==>
          && Allocated(p, mem) && FieldNamed(p, r) && Editable(Named(p, r)) && SubThere(Named(p, r), r)
          && Wide(Named(p, r), r) && !AllHex(r.hex))
    && (reply == Err(SlotOob) <==> FieldFine(p, mem, r) && Named(p, r).isColumn && !SlotThere(p, mem, r))
    && (reply == Err(DeadSlot) <==>
          FieldFine(p, mem, r) && Named(p, r).isColumn && SlotThere(p, mem, r) && !SlotLive(p, mem, r.slot))
    && (reply == Err(StaleGen) <==>
          && FieldFine(p, mem, r) && Named(p, r).isColumn && SlotThere(p, mem, r) && SlotLive(p, mem, r.slot)
          && !GenRight(p, mem, r))
    && (reply == Err(NoCell) <==> FieldFine(p, mem, r) && SlotFine(p, mem, r) && !Stored(p, mem, Named(p, r)))
    && (reply == Ok <==> Pokeable(p, mem, r))
  }

  lemma NibbleIsDigit(c: char)
    ensures HexNibble(c).Some? <==> HexChar(c)
  {
  }

  // A digit's value is its place among the digits.
  lemma NibbleValue(d: nat)
    requires d < 16
    ensures HexNibble("0123456789abcdef"[d]) == Some(d) && HexNibble("0123456789ABCDEF"[d]) == Some(d)
  {
  }

  // Decoding succeeds if and only if every character is a digit.
  lemma {:induction false} HexExact(s: string)
    requires |s| % 2 == 0
    ensures HexBytes(s).Some? <==> AllHex(s)
    decreases |s|
  {
    if s != [] {
      var t := s[2..];
      HexExact(t);
      NibbleIsDigit(s[0]);
      NibbleIsDigit(s[1]);
      hide HexNibble;
      hide HexChar;
      assert AllHex(t) ==> forall i :: 2 <= i < |s| ==> s[i] == t[i - 2] && HexChar(t[i - 2]);
      assert AllHex(s) ==> forall i :: 0 <= i < |t| ==> t[i] == s[i + 2];
    }
  }

  // Byte i is spelt by the characters 2 i and 2 i + 1, the high one first.
  predicate Spelt(s: string, b: seq<byte>, i: nat)
    requires 2 * i + 1 < |s| && i < |b|
  {
    var h, l := HexNibble(s[2 * i]), HexNibble(s[2 * i + 1]);
    h.Some? && l.Some? && b[i] == 16 * h.value + l.value
  }

  lemma {:induction false} HexSpelt(s: string, i: nat)
    requires |s| % 2 == 0 && HexBytes(s).Some? && 2 * i + 1 < |s|
    ensures Spelt(s, HexBytes(s).value, i)
    decreases |s|
  {
    hide HexNibble;
    if i > 0 {
      var t := s[2..];
      HexSpelt(t, i - 1);
      assert t[2 * (i - 1)] == s[2 * i] && t[2 * (i - 1) + 1] == s[2 * i + 1];
    }
  }

  lemma CellStored(p: Pool, mem: Mem, f: Field, slot: int, sub: int)
    ensures CellAddr(p, mem, f, slot, sub).Some? <==> Stored(p, mem, f)
    ensures CellAddr(p, mem, f, slot, sub).Some? ==>
              CellAddr(p, mem, f, slot, sub).value ==
              FieldBase(p, mem, f) + (if f.isColumn then slot * f.ecount + sub else sub) * f.esize
  {
    hide Word;
  }

  lemma LiveIsNotFree(p: Pool, mem: Mem, slot: int)
    ensures SlotLive(p, mem, slot) <==> !SlotIsFree(p, mem, slot)
  {
  }

  function ReplyTo(plan: Plan): Reply { match plan case Refuse(why) => Err(why) case Store(_, _) => Ok }

  lemma WideIs(f: Field, r: PokeReq)
    ensures Wide(f, r) <==> !(|r.hex| % 2 != 0 || |r.hex| / 2 != f.esize || f.esize > 16)
  {
  }

  // The checks up to the digits.
  lemma FieldExact(p: Pool, mem: Mem, r: PokeReq)
    requires !FieldFine(p, mem, r)
    ensures Answers(p, mem, r, ReplyTo(PlanPoke(p, mem, r)))
  {
    if FieldNamed(p, r) {
      WideIs(Named(p, r), r);
      if |r.hex| % 2 == 0 {
        HexExact(r.hex);
      }
    }
    hide HexBytes, AllHex, GenOf, Capacity, Count, CellAddr, Stored, SlotLive, SlotIsFree, IsNull, Gens, Struct, Wide, SlotThere,
         GenRight, Pokeable, SlotFine;
  }

  // What is left to be checked once the digits are fine.
  function SlotPlan(p: Pool, mem: Mem, r: PokeReq): Plan
    requires FieldNamed(p, r) && |r.hex| % 2 == 0 && HexBytes(r.hex).Some?
  {
    var f := Named(p, r);
    if f.isColumn && !SlotThere(p, mem, r) then Refuse(SlotOob)
    else if f.isColumn && !SlotLive(p, mem, r.slot) then Refuse(DeadSlot)
    else if f.isColumn && !GenRight(p, mem, r) then Refuse(StaleGen)
    else match CellAddr(p, mem, f, r.slot, r.sub)
      case None => Refuse(NoCell)
      case Some(a) => Store(a, HexBytes(r.hex).value)
  }

  lemma SlotPlanIs(p: Pool, mem: Mem, r: PokeReq)
    requires FieldFine(p, mem, r)
    ensures |r.hex| % 2 == 0 && HexBytes(r.hex).Some? && PlanPoke(p, mem, r) == SlotPlan(p, mem, r)
  {
    WideIs(Named(p, r), r);
    HexExact(r.hex);
    LiveIsNotFree(p, mem, r.slot);
    hide HexBytes, AllHex, GenOf, Capacity, Count, CellAddr, SlotLive, SlotIsFree, IsNull, Gens, Struct, Wide;
  }

  // The checks of the slot and its storage.
  lemma SlotExact(p: Pool, mem: Mem, r: PokeReq)
    requires FieldFine(p, mem, r)
    ensures Answers(p, mem, r, ReplyTo(PlanPoke(p, mem, r)))
  {
    SlotPlanIs(p, mem, r);
    CellStored(p, mem, Named(p, r), r.slot, r.sub);
    hide PlanPoke, HexBytes, AllHex, GenOf, Capacity, Count, CellAddr, Stored, SlotLive, SlotThere, GenRight, IsNull, Gens, Struct,
         Wide, Allocated, Editable, SubThere;
  }

  // For every pool, memory and request: what the request comes to is decided by the first check that fails.
  lemma PlanExact(p: Pool, mem: Mem, r: PokeReq)
    ensures Answers(p, mem, r, ReplyTo(PlanPoke(p, mem, r)))
  {
    hide Answers, PlanPoke;
    if FieldFine(p, mem, r) {
      SlotExact(p, mem, r);
    } else {
      FieldExact(p, mem, r);
    }
  }

  lemma StoreIs(p: Pool, mem: Mem, r: PokeReq)
    requires PlanPoke(p, mem, r).Store?
    ensures FieldNamed(p, r) && |r.hex| == 2 * Named(p, r).esize
    ensures HexBytes(r.hex) == Some(PlanPoke(p, mem, r).bytes)
    ensures CellAddr(p, mem, Named(p, r), r.slot, r.sub) == Some(PlanPoke(p, mem, r).at)
  {
    hide HexBytes, GenOf, Capacity, Count, CellAddr, SlotIsFree, IsNull, Gens, Struct;
  }

  // Where the bytes go, and which they are.
  lemma StoreExact(p: Pool, mem: Mem, r: PokeReq)
    requires PlanPoke(p, mem, r).Store?
    ensures FieldNamed(p, r)
    ensures var f, s := Named(p, r), PlanPoke(p, mem, r);
            && s.at == FieldBase(p, mem, f) + (if f.isColumn then r.slot * f.ecount + r.sub else r.sub) * f.esize
            && |s.bytes| == f.esize && |r.hex| == 2 * f.esize
            && forall i :: 0 <= i < f.esize ==> Spelt(r.hex, s.bytes, i)
  {
    hide PlanPoke, HexBytes, CellAddr, Spelt, FieldBase;
    StoreIs(p, mem, r);
    CellStored(p, mem, Named(p, r), r.slot, r.sub);
    forall i | 0 <= i < Named(p, r).esize
      ensures Spelt(r.hex, PlanPoke(p, mem, r).bytes, i)
    {
      HexSpelt(r.hex, i);
    }
  }

  // ---- where things are ----

  // A signed number of eight bytes at an address.
  function At(mem: Mem, a: int): int { var w := LeValue(Read(mem, a, 8)); if w < 0x8000_0000_0000_0000 then w else w - 0x1_0000_0000_0000_0000 }

  // Of a static pool: everything is in its struct.
  lemma StaticLayout(p: Pool, mem: Mem, f: Field, i: int)
    requires !p.isDynamic
    ensures Count(p, mem) == At(mem, p.base + p.countOff) && FreeCount(p, mem) == At(mem, p.base + p.freeCountOff)
    ensures Capacity(p, mem) == p.capacity && FieldBase(p, mem, f) == p.base + f.offset
    ensures FreeEntry(p, mem, i) == At(mem, p.base + p.freeListOff + 8 * i)
    ensures GenOf(p, mem, i) % 0x1_0000_0000 == LeValue(Read(mem, p.base + p.genOff + 4 * i, 4)) && -0x8000_0000 <= GenOf(p, mem, i) < 0x8000_0000
  {
    WordWidth();
    LongIs(mem, p.base + p.countOff);
    LongIs(mem, p.base + p.freeCountOff);
    LongIs(mem, p.base + p.freeListOff + 8 * i);
    ShortIs(mem, p.base + p.genOff + i * 4);
    hide Pow256, Long, At, Read, ToSigned;
  }

  // Of a dynamic one: its base holds the struct's address, and the struct the counters and the addresses of its arrays.
  lemma DynamicLayout(p: Pool, mem: Mem, f: Field)
    requires p.isDynamic
    ensures var s := LeValue(Read(mem, p.base, 8));
            && Count(p, mem) == At(mem, s + p.countOff) && FreeCount(p, mem) == At(mem, s + p.freeCountOff)
            && Capacity(p, mem) == At(mem, s + p.capOff)
            && FieldBase(p, mem, f) == (if f.isColumn then LeValue(Read(mem, s + f.offset, 8)) else s + f.offset)
  {
    var s := LeValue(Read(mem, p.base, 8));
    LongIs(mem, s + p.countOff);
    LongIs(mem, s + p.freeCountOff);
    LongIs(mem, s + p.capOff);
    hide Pow256, Long, At, Read;
  }

  lemma DynamicArrays(p: Pool, mem: Mem, i: int)
    requires p.isDynamic
    ensures var s := LeValue(Read(mem, p.base, 8)); FreeEntry(p, mem, i) == At(mem, LeValue(Read(mem, s + p.freeListOff, 8)) + 8 * i)
    ensures var g := LeValue(Read(mem, LeValue(Read(mem, p.base, 8)) + p.genOff, 8));
            -0x8000_0000 <= GenOf(p, mem, i) < 0x8000_0000
            && (if g == 0 then GenOf(p, mem, i) == 0 else GenOf(p, mem, i) % 0x1_0000_0000 == LeValue(Read(mem, g + 4 * i, 4)))
  {
    var s := LeValue(Read(mem, p.base, 8));
    var g := LeValue(Read(mem, s + p.genOff, 8));
    LongIs(mem, LeValue(Read(mem, s + p.freeListOff, 8)) + i * 8);
    ShortIs(mem, g + i * 4);
    hide Pow256, Long, At, Read, ToSigned;
    assert Gens(p, mem) == g && FreeList(p, mem) == LeValue(Read(mem, s + p.freeListOff, 8));
    hide LeValue, Gens, FreeList;
    assert i * 4 == 4 * i && i * 8 == 8 * i;
  }

  lemma WordWidth()
    ensures Pow256(4) == 0x1_0000_0000 && Pow256(8) == 0x1_0000_0000_0000_0000
  {
    assert Pow256(8) == 256 * (256 * (256 * (256 * Pow256(4))));
  }

  lemma ShortIs(mem: Mem, a: int)
    ensures var u := LeValue(Read(mem, a, 4)); var g := ToSigned(u, Pow256(4));
            -0x8000_0000 <= g < 0x8000_0000 && g % 0x1_0000_0000 == u
  {
    WordWidth();
    LeValueBound(Read(mem, a, 4));
    hide Pow256;
  }

  lemma LongIs(mem: Mem, a: int)
    ensures Long(mem, a) == At(mem, a)
  {
    WordWidth();
    LeValueBound(Read(mem, a, 8));
    hide Pow256;
  }

  // ---- layouts ----

  datatype Region = Region(lo: int, len: nat)

  predicate Within(mem: Mem, r: Region) { InMem(mem, r.lo, r.len) }
  predicate Apart(a: Region, b: Region) { a.lo + a.len <= b.lo || b.lo + b.len <= a.lo || a.len == 0 || b.len == 0 }

  function CapNat(p: Pool, mem: Mem): nat { if Capacity(p, mem) < 0 then 0 else Capacity(p, mem) }

  lemma NotNegative(a: nat, b: nat, c: nat)
    ensures a * b * c >= 0
  {
    assert a * b >= 0;
  }

  // All of a field's cells.
  function Storage(p: Pool, mem: Mem, f: Field): Region {
    if f.isColumn then
      (if IsNull(p, FieldBase(p, mem, f)) then Region(0, 0)
       else
         var c := CapNat(p, mem);
         NotNegative(c, f.ecount, f.esize);
         Region(FieldBase(p, mem, f), c * f.ecount * f.esize))
    else Region(FieldBase(p, mem, f), f.ecount * f.esize)
  }

  // Counters, pointers, free list and generations.
  function Book(p: Pool, mem: Mem): seq<Region> {
    [Region(Struct(p, mem) + p.countOff, 8),
     Region(Struct(p, mem) + p.freeCountOff, 8),
     if IsNull(p, FreeList(p, mem)) then Region(0, 0) else Region(FreeList(p, mem), CapNat(p, mem) * 8),
     if IsNull(p, Gens(p, mem)) then Region(0, 0) else Region(Gens(p, mem), CapNat(p, mem) * 4),
     if p.isDynamic then Region(p.base, 8) else Region(0, 0),
     if p.isDynamic then Region(Struct(p, mem) + p.capOff, 8) else Region(0, 0),
     if p.isDynamic then Region(Struct(p, mem) + p.freeListOff, 8) else Region(0, 0),
     if p.isDynamic then Region(Struct(p, mem) + p.genOff, 8) else Region(0, 0)]
  }

  // A dynamic column's pointer.
  function PointerWord(p: Pool, mem: Mem, f: Field): Region {
    if p.isDynamic && f.isColumn then Region(Struct(p, mem) + f.offset, 8) else Region(0, 0)
  }

  // Everything in memory, no field's cells overlapping anything else, counters in range.
  ghost predicate Sane(p: Pool, mem: Mem) {
    && (p.isDynamic ==> Struct(p, mem) != 0)
    && 0 <= Count(p, mem) <= Capacity(p, mem) && FreeCount(p, mem) <= Capacity(p, mem)
    && (forall b :: 0 <= b < |Book(p, mem)| ==> Within(mem, Book(p, mem)[b]))
    && (forall i :: 0 <= i < |p.fields| ==>
          Within(mem, Storage(p, mem, p.fields[i])) && Within(mem, PointerWord(p, mem, p.fields[i])))
    && (forall i, b :: 0 <= i < |p.fields| && 0 <= b < |Book(p, mem)| ==> Apart(Storage(p, mem, p.fields[i]), Book(p, mem)[b]))
    && (forall i, j :: 0 <= i < |p.fields| && 0 <= j < |p.fields| ==>
          Apart(Storage(p, mem, p.fields[i]), PointerWord(p, mem, p.fields[j])))
    && (forall i, j :: 0 <= i < j < |p.fields| ==> Apart(Storage(p, mem, p.fields[i]), Storage(p, mem, p.fields[j])))
  }

  // ---- what a write leaves alone ----

  predicate Same(mem: Mem, mem': Mem, r: Region) { Read(mem, r.lo, r.len) == Read(mem', r.lo, r.len) }

  lemma WriteApart(mem: Mem, a: int, b: seq<byte>, r: Region)
    requires InMem(mem, a, |b|) && Within(mem, r) && Apart(Region(a, |b|), r)
    ensures Same(mem, Write(mem, a, b), r)
  {
    var mem' := Write(mem, a, b);
    forall i | 0 <= i < r.len
      ensures Read(mem', r.lo, r.len)[i] == Read(mem, r.lo, r.len)[i]
    {
      if |b| == 0 {
        assert mem' == mem;
      } else {
        WriteAt(mem, a, b, r.lo + i);
      }
    }
  }

  // One byte after a write.
  lemma WriteAt(mem: Mem, a: int, b: seq<byte>, k: int)
    requires InMem(mem, a, |b|) && 0 <= k < |mem|
    ensures Write(mem, a, b)[k] == if a <= k < a + |b| then b[k - a] else mem[k]
  {
  }

  // The same bytes inside a region read the same.
  lemma SubRead(mem: Mem, mem': Mem, r: Region, a: int, n: nat)
    requires |mem| == |mem'| && Within(mem, r) && Same(mem, mem', r) && r.lo <= a && a + n <= r.lo + r.len
    ensures Read(mem, a, n) == Read(mem', a, n)
  {
    SliceOf(mem, r.lo, r.len, a, n);
    SliceOf(mem', r.lo, r.len, a, n);
  }

  lemma SliceOf(mem: Mem, lo: int, len: nat, a: int, n: nat)
    requires InMem(mem, lo, len) && lo <= a && a + n <= lo + len
    ensures Read(mem, a, n) == Read(mem, lo, len)[a - lo..a - lo + n]
  {
    var x, y := mem[a..a + n], mem[lo..lo + len][a - lo..a - lo + n];
    assert |x| == |y| == n;
    assert forall i :: 0 <= i < n ==> x[i] == y[i];
  }

  // Inside a field's storage.
  lemma CellInside(p: Pool, mem: Mem, f: Field, slot: int, sub: int)
    requires 0 <= sub < f.ecount && (f.isColumn ==> 0 <= slot < Capacity(p, mem)) && CellAddr(p, mem, f, slot, sub).Some?
    ensures var a, r := CellAddr(p, mem, f, slot, sub).value, Storage(p, mem, f);
            r.lo <= a && a + f.esize <= r.lo + r.len
  {
    hide FieldBase, Capacity, IsNull;
    var k := if f.isColumn then Flat(f, slot, sub) else sub;
    var n := if f.isColumn then CapNat(p, mem) * f.ecount else f.ecount;
    if f.isColumn {
      Mono(slot + 1, CapNat(p, mem), f.ecount);
      assert (slot + 1) * f.ecount == slot * f.ecount + f.ecount;
      Mono(0, slot, f.ecount);
    }
    Mono(k + 1, n, f.esize);
    Mono(0, k, f.esize);
    assert (k + 1) * f.esize == k * f.esize + f.esize;
  }

  lemma Mono(a: int, b: int, c: int)
    requires a <= b && c >= 0
    ensures a * c <= b * c
  {
    assert b * c - a * c == (b - a) * c;
  }

  // Different cells of a field do not overlap.
  lemma CellsApart(p: Pool, mem: Mem, f: Field, s: int, e: int, s': int, e': int)
    requires 0 <= e < f.ecount && 0 <= e' < f.ecount && 0 <= s && 0 <= s'
    requires CellAddr(p, mem, f, s, e).Some? && CellAddr(p, mem, f, s', e').Some?
    requires e != e' || (f.isColumn && s != s')
    ensures var a, b := CellAddr(p, mem, f, s, e).value, CellAddr(p, mem, f, s', e').value;
            a + f.esize <= b || b + f.esize <= a
  {
    var k, k' := if f.isColumn then Flat(f, s, e) else e, if f.isColumn then Flat(f, s', e') else e';
    if f.isColumn {
      FlatDiffers(f, s, e, s', e');
    }
    assert k != k';
    ScaledApart(k, k', f.esize);
    hide Flat, FieldBase;
  }

  lemma ScaledApart(k: int, k': int, n: nat)
    requires k != k'
    ensures k * n + n <= k' * n || k' * n + n <= k * n
  {
    if k < k' {
      Mono(k + 1, k', n);
      assert (k + 1) * n == k * n + n;
    } else {
      Mono(k' + 1, k, n);
      assert (k' + 1) * n == k' * n + n;
    }
  }

  lemma FlatDiffers(f: Field, s: int, e: int, s': int, e': int)
    requires 0 <= e < f.ecount && 0 <= e' < f.ecount && (e != e' || s != s')
    ensures Flat(f, s, e) != Flat(f, s', e')
  {
    if s < s' {
      Mono(s + 1, s', f.ecount);
      assert (s + 1) * f.ecount == s * f.ecount + f.ecount;
    } else if s' < s {
      Mono(s' + 1, s, f.ecount);
      assert (s' + 1) * f.ecount == s' * f.ecount + f.ecount;
    }
  }

  // ---- bookkeeping is a function of its regions ----

  ghost predicate BookSame(p: Pool, mem: Mem, mem': Mem) {
    && |mem| == |mem'|
    && (forall b :: 0 <= b < |Book(p, mem)| ==> Within(mem, Book(p, mem)[b]) && Same(mem, mem', Book(p, mem)[b]))
    && (forall i :: 0 <= i < |p.fields| ==>
          Within(mem, PointerWord(p, mem, p.fields[i])) && Same(mem, mem', PointerWord(p, mem, p.fields[i])))
  }

  lemma WordsSame(p: Pool, mem: Mem, mem': Mem)
    requires BookSame(p, mem, mem')
    ensures Struct(p, mem') == Struct(p, mem) && Count(p, mem') == Count(p, mem) && FreeCount(p, mem') == FreeCount(p, mem)
    ensures Capacity(p, mem') == Capacity(p, mem) && FreeList(p, mem') == FreeList(p, mem) && Gens(p, mem') == Gens(p, mem)
  {
    hide Read;
    var b := Book(p, mem);
    assert Same(mem, mem', b[4]);
    assert Same(mem, mem', b[0]) && Same(mem, mem', b[1]) && Same(mem, mem', b[5]);
    assert Same(mem, mem', b[6]) && Same(mem, mem', b[7]);
  }

  lemma BasesSame(p: Pool, mem: Mem, mem': Mem, i: nat)
    requires BookSame(p, mem, mem') && i < |p.fields|
    ensures FieldBase(p, mem', p.fields[i]) == FieldBase(p, mem, p.fields[i])
    ensures Storage(p, mem', p.fields[i]) == Storage(p, mem, p.fields[i])
    ensures PointerWord(p, mem', p.fields[i]) == PointerWord(p, mem, p.fields[i])
  {
    hide Read;
    WordsSame(p, mem, mem');
    assert Same(mem, mem', PointerWord(p, mem, p.fields[i]));
  }

  lemma FreeSame(p: Pool, mem: Mem, mem': Mem, slot: int)
    requires BookSame(p, mem, mem') && FreeCount(p, mem) <= Capacity(p, mem)
    ensures SlotIsFree(p, mem', slot) == SlotIsFree(p, mem, slot)
  {
    hide Read;
    WordsSame(p, mem, mem');
    if !IsNull(p, FreeList(p, mem)) {
      var r := Book(p, mem)[2];
      assert Same(mem, mem', r) && Within(mem, r);
      forall i | 1 <= i < FreeCount(p, mem)
        ensures FreeEntry(p, mem', i) == FreeEntry(p, mem, i)
      {
        SubRead(mem, mem', r, FreeList(p, mem) + i * 8, 8);
      }
    }
  }

  lemma GenSame(p: Pool, mem: Mem, mem': Mem, slot: int)
    requires BookSame(p, mem, mem') && 0 <= slot < Capacity(p, mem)
    ensures GenOf(p, mem', slot) == GenOf(p, mem, slot)
  {
    hide Read;
    WordsSame(p, mem, mem');
    if !IsNull(p, Gens(p, mem)) {
      var r := Book(p, mem)[3];
      assert Same(mem, mem', r) && Within(mem, r);
      SubRead(mem, mem', r, Gens(p, mem) + slot * 4, 4);
    }
  }

  lemma {:induction false} LiveSame(p: Pool, mem: Mem, mem': Mem, n: nat)
    requires BookSame(p, mem, mem') && FreeCount(p, mem) <= Capacity(p, mem)
    ensures Live(p, mem', n) == Live(p, mem, n)
  {
    if n > 0 {
      LiveSame(p, mem, mem', n - 1);
      FreeSame(p, mem, mem', n - 1);
    }
  }

  // ---- the effect of a poke ----

  // The addressed cell of a request.
  predicate Addresses(r: PokeReq, f: Field, i: nat, slot: int, sub: int) {
    i == r.field && sub == r.sub && (f.isColumn ==> slot == r.slot)
  }

  lemma PokeInside(p: Pool, mem: Mem, r: PokeReq)
    requires Sane(p, mem) && PlanPoke(p, mem, r).Store?
    ensures 0 <= r.field < |p.fields|
    ensures var s, f := PlanPoke(p, mem, r), p.fields[r.field];
            && 0 <= r.sub < f.ecount && |s.bytes| == f.esize && HexBytes(r.hex) == Some(s.bytes)
            && (f.isColumn ==> 0 <= r.slot < Count(p, mem) <= Capacity(p, mem) && !SlotIsFree(p, mem, r.slot)
                               && (IsNull(p, Gens(p, mem)) || GenOf(p, mem, r.slot) == r.gen))
            && CellAddr(p, mem, f, r.slot, r.sub) == Some(s.at)
            && InMem(mem, s.at, |s.bytes|)
            && Storage(p, mem, f).lo <= s.at && s.at + |s.bytes| <= Storage(p, mem, f).lo + Storage(p, mem, f).len
  {
    hide SlotIsFree, GenOf, Read, HexBytes;
    var f := p.fields[r.field];
    CellInside(p, mem, f, r.slot, r.sub);
    assert Within(mem, Storage(p, mem, f));
  }

  lemma InsideApart(a: int, n: nat, r: Region, b: Region)
    requires r.lo <= a && a + n <= r.lo + r.len && Apart(r, b)
    ensures Apart(Region(a, n), b)
  {
  }

  lemma PokeKeepsBook(p: Pool, mem: Mem, r: PokeReq)
    requires Sane(p, mem) && PlanPoke(p, mem, r).Store?
    ensures var s := PlanPoke(p, mem, r);
            InMem(mem, s.at, |s.bytes|) && BookSame(p, mem, Write(mem, s.at, s.bytes))
  {
    hide PlanPoke, Book, Storage, PointerWord, Same, Write;
    PokeInside(p, mem, r);
    var s, f := PlanPoke(p, mem, r), p.fields[r.field];
    var st := Storage(p, mem, f);
    forall b | 0 <= b < |Book(p, mem)|
      ensures Same(mem, Write(mem, s.at, s.bytes), Book(p, mem)[b])
    {
      InsideApart(s.at, |s.bytes|, st, Book(p, mem)[b]);
      WriteApart(mem, s.at, s.bytes, Book(p, mem)[b]);
    }
    forall i | 0 <= i < |p.fields|
      ensures Same(mem, Write(mem, s.at, s.bytes), PointerWord(p, mem, p.fields[i]))
    {
      InsideApart(s.at, |s.bytes|, st, PointerWord(p, mem, p.fields[i]));
      WriteApart(mem, s.at, s.bytes, PointerWord(p, mem, p.fields[i]));
    }
  }

  lemma OtherCellSame(p: Pool, mem: Mem, r: PokeReq, i: nat, slot: int, sub: int)
    requires Sane(p, mem) && PlanPoke(p, mem, r).Store? && i < |p.fields|
    requires 0 <= sub < p.fields[i].ecount && 0 <= slot && (p.fields[i].isColumn ==> slot < Capacity(p, mem))
    requires !Addresses(r, p.fields[i], i, slot, sub)
    ensures var s := PlanPoke(p, mem, r);
            && InMem(mem, s.at, |s.bytes|)
            && Cell(p, Write(mem, s.at, s.bytes), p.fields[i], slot, sub) == Cell(p, mem, p.fields[i], slot, sub)
  {
    hide PlanPoke, Book, Write, Sane, Storage;
    PokeInside(p, mem, r);
    PokeKeepsBook(p, mem, r);
    var s, f := PlanPoke(p, mem, r), p.fields[i];
    var mem' := Write(mem, s.at, s.bytes);
    BasesSame(p, mem, mem', i);
    if CellAddr(p, mem, f, slot, sub).Some? {
      var a := CellAddr(p, mem, f, slot, sub).value;
      CellInside(p, mem, f, slot, sub);
      FieldInMem(p, mem, i);
      if i == r.field {
        CellsApart(p, mem, f, r.slotOr(f), r.sub, slot, sub);
        MetaAddr(p, mem, f, r.slot, r.slotOr(f), r.sub);
      } else {
        FieldsApart(p, mem, i, r.field);
        InsideApart(s.at, |s.bytes|, Storage(p, mem, p.fields[r.field]), Storage(p, mem, f));
        InsideApart(a, f.esize, Storage(p, mem, f), Region(s.at, |s.bytes|));
      }
      WriteApart(mem, s.at, s.bytes, Region(a, f.esize));
    }
  }

  lemma FieldInMem(p: Pool, mem: Mem, i: nat)
    requires Sane(p, mem) && i < |p.fields|
    ensures Within(mem, Storage(p, mem, p.fields[i]))
  {
  }

  lemma FieldsApart(p: Pool, mem: Mem, i: nat, j: nat)
    requires Sane(p, mem) && i < |p.fields| && j < |p.fields| && i != j
    ensures Apart(Storage(p, mem, p.fields[j]), Storage(p, mem, p.fields[i]))
  {
    if i < j {
      assert Apart(Storage(p, mem, p.fields[i]), Storage(p, mem, p.fields[j]));
    }
  }

  // A pool-wide value has the same address whatever slot is named.
  lemma MetaAddr(p: Pool, mem: Mem, f: Field, s: int, s': int, sub: int)
    requires f.isColumn ==> s == s'
    ensures CellAddr(p, mem, f, s, sub) == CellAddr(p, mem, f, s', sub)
  {
  }

  // A poke that is carried out: a live slot of the right generation for a column, exactly the addressed cell's bytes
  // changed to the ones sent, every other cell, every counter, the free list and all generations as they were.
  lemma PokeEffect(p: Pool, mem: Mem, r: PokeReq)
    requires Sane(p, mem) && PlanPoke(p, mem, r).Store?
    ensures var s, f := PlanPoke(p, mem, r), p.fields[r.field];
            && InMem(mem, s.at, |s.bytes|)
            && (f.isColumn ==>
                  && r.slot in Live(p, mem, Count(p, mem))
                  && (IsNull(p, Gens(p, mem)) || GenOf(p, mem, r.slot) == r.gen))
            && (var mem' := Write(mem, s.at, s.bytes);
                && Sane(p, mem') && Cell(p, mem', f, r.slot, r.sub) == s.bytes
                && Count(p, mem') == Count(p, mem) && FreeCount(p, mem') == FreeCount(p, mem)
                && Capacity(p, mem') == Capacity(p, mem)
                && Live(p, mem', Count(p, mem)) == Live(p, mem, Count(p, mem))
                && (forall t :: 0 <= t < Capacity(p, mem) ==> GenOf(p, mem', t) == GenOf(p, mem, t)))
  {
    hide Write, Storage, PointerWord, SlotIsFree, GenOf, Book, PlanPoke, Read, Count, FreeCount, Capacity;
    PokeInside(p, mem, r);
    PokeKeepsBook(p, mem, r);
    var s, f := PlanPoke(p, mem, r), p.fields[r.field];
    var mem' := Write(mem, s.at, s.bytes);
    WordsSame(p, mem, mem');
    BasesSame(p, mem, mem', r.field);
    LiveSame(p, mem, mem', Count(p, mem));
    StaysSane(p, mem, mem');
    ReadsBack(mem, s.at, s.bytes);
    forall t | 0 <= t < Capacity(p, mem)
      ensures GenOf(p, mem', t) == GenOf(p, mem, t)
    {
      GenSame(p, mem, mem', t);
    }
    if f.isColumn {
      LiveHas(p, mem, Count(p, mem), r.slot);
    }
  }

  lemma ReadsBack(mem: Mem, a: int, b: seq<byte>)
    requires InMem(mem, a, |b|)
    ensures Read(Write(mem, a, b), a, |b|) == b
  {
  }

  lemma StaysSane(p: Pool, mem: Mem, mem': Mem)
    requires Sane(p, mem) && BookSame(p, mem, mem')
    ensures Sane(p, mem')
  {
    hide Same, Storage, PointerWord;
    WordsSame(p, mem, mem');
    assert Book(p, mem') == Book(p, mem);
    forall i | 0 <= i < |p.fields|
      ensures Storage(p, mem', p.fields[i]) == Storage(p, mem, p.fields[i])
      ensures PointerWord(p, mem', p.fields[i]) == PointerWord(p, mem, p.fields[i])
    {
      BasesSame(p, mem, mem', i);
    }
  }

  // The live slots are exactly those not in the free list, each once, in ascending order.
  lemma {:induction false} LiveHas(p: Pool, mem: Mem, n: nat, slot: int)
    ensures slot in Live(p, mem, n) <==> 0 <= slot < n && !SlotIsFree(p, mem, slot)
  {
    hide SlotIsFree;
    if n > 0 {
      LiveHas(p, mem, n - 1, slot);
    }
  }

  lemma {:induction false} LiveAscends(p: Pool, mem: Mem, n: nat)
    ensures forall i :: 0 <= i < |Live(p, mem, n)| ==> Live(p, mem, n)[i] < n
    ensures forall i, j :: 0 <= i < j < |Live(p, mem, n)| ==> Live(p, mem, n)[i] < Live(p, mem, n)[j]
  {
    hide SlotIsFree;
    if n > 0 {
      LiveAscends(p, mem, n - 1);
    }
  }
}

/** How a Pickle's buffer grows: the capacity after each write or reservation. */
module PickleGrowth {
  import opened Arithmetic
  import opened PickleFormat
  import Bits
  import Seqs

  const PAYLOAD_UNIT: nat := 64
  const HEAP_ALIGN: nat := 4096

  lemma UnitsArePowers()
    ensures Bits.IsPowerOfTwo(4) && Bits.IsPowerOfTwo(PAYLOAD_UNIT) && Bits.IsPowerOfTwo(HEAP_ALIGN)
  {
  }

  function Max(a: nat, b: nat): nat { if a >= b then a else b }

  /** The word-aligned size of `n` bytes. */
  function Aligned(n: nat): nat
    requires n < TWO64
  {
    UnitsArePowers();
    Bits.Align(n, 4)
  }

  lemma NextWord(n: nat, r: nat)
    requires r % 4 == 0 && n <= r < n + 4
    ensures r == n + PadLength(n)
  {
  }

  lemma AlignedIsPadded(n: nat)
    requires n + 4 <= TWO64
    ensures Aligned(n) == n + PadLength(n)
  {
    UnitsArePowers();
    Bits.AlignIsLeastMultiple(n, 4);
    NextWord(n, Aligned(n));
  }

  /** Resize: rounds up to whole payload units. */
  function Resized(capacity: nat): nat
    requires capacity < TWO63
  {
    UnitsArePowers();
    Bits.Align(capacity, PAYLOAD_UNIT)
  }

  /** Doubles small buffers; larger ones are doubled to just under a multiple of the heap's page. */
  function Doubled(capacity: nat): nat
    requires capacity < TWO32
  {
    UnitsArePowers();
    var twice := capacity * 2;
    if twice > HEAP_ALIGN then
      Bits.AlignIsLeastMultiple(twice, HEAP_ALIGN);
      Bits.Align(twice, HEAP_ALIGN) - PAYLOAD_UNIT
    else twice
  }

  /** The capacity after a write that needs `need` payload bytes. */
  function AfterWrite(capacity: nat, need: nat): nat
    requires need < TWO32
  {
    if need <= capacity then capacity
    else
      DoubledBounds(capacity);
      Resized(Max(Doubled(capacity), need))
  }

  /** The capacity after reserving room for `need` payload bytes. */
  function AfterReserve(capacity: nat, need: nat): nat
    requires need < TWO32
  {
    if need <= capacity then capacity else Resized(capacity * 2 + need)
  }

  lemma DoubledBounds(capacity: nat)
    requires capacity < TWO32
    ensures 3 * capacity <= 2 * Doubled(capacity)
    ensures Doubled(capacity) <= 2 * capacity + HEAP_ALIGN - PAYLOAD_UNIT
  {
    UnitsArePowers();
    Bits.AlignIsLeastMultiple(capacity * 2, HEAP_ALIGN);
  }

  lemma ResizedBounds(capacity: nat)
    requires capacity < TWO63
    ensures capacity <= Resized(capacity) < capacity + PAYLOAD_UNIT
    ensures Resized(capacity) % PAYLOAD_UNIT == 0
  {
    UnitsArePowers();
    Bits.AlignIsLeastMultiple(capacity, PAYLOAD_UNIT);
  }

  lemma WriteGrowth(capacity: nat, need: nat)
    requires capacity < need < TWO32
    ensures
      var grown := AfterWrite(capacity, need);
      && need <= grown < 2 * need + HEAP_ALIGN
      && grown % PAYLOAD_UNIT == 0
      && 3 * capacity <= 2 * grown
  {
    DoubledBounds(capacity);
    ResizedBounds(Max(Doubled(capacity), need));
  }

  lemma ReserveGrowth(capacity: nat, need: nat)
    requires capacity < need < TWO32
    ensures
      var grown := AfterReserve(capacity, need);
      && need <= grown < 3 * need + PAYLOAD_UNIT
      && grown % PAYLOAD_UNIT == 0
      && 3 * capacity <= 2 * grown
  {
    ResizedBounds(capacity * 2 + need);
  }

  /** The least multiple of `unit` at or above `n`. */
  predicate LeastMultiple(r: int, unit: nat, n: int)
    requires unit > 0
  {
    r % unit == 0 && n <= r < n + unit
  }

  lemma OneLeastMultiple(r: int, q: int, unit: nat, n: int)
    requires unit > 0 && LeastMultiple(r, unit, n) && LeastMultiple(q, unit, n)
    ensures r == q
  {
    assert r == unit * (r / unit) && q == unit * (q / unit);
    Multiples(unit, r / unit - q / unit);
    assert unit * (r / unit - q / unit) == r - q;
  }

  /** Where a growing write aims before rounding: twice the capacity or, past a page, one unit below the page's end. */
  function Target(capacity: nat, page: nat): int {
    if 2 * capacity > HEAP_ALIGN then page - PAYLOAD_UNIT else 2 * capacity
  }

  /** The capacity after a growing write, given the end of the page that twice the capacity falls in. */
  lemma WriteGrowthExactly(capacity: nat, need: nat, page: nat)
    requires capacity < need < TWO32 && LeastMultiple(page, HEAP_ALIGN, 2 * capacity)
    ensures
      var grown, target := AfterWrite(capacity, need), Target(capacity, page);
      LeastMultiple(grown, PAYLOAD_UNIT, if target >= need then target else need)
  {
    UnitsArePowers();
    DoubledBounds(capacity);
    Bits.AlignIsLeastMultiple(2 * capacity, HEAP_ALIGN);
    OneLeastMultiple(Bits.Align(2 * capacity, HEAP_ALIGN), page, HEAP_ALIGN, 2 * capacity);
    ResizedBounds(Max(Doubled(capacity), need));
  }

  /** A write that doubles past a page and needs no more than that ends 64 bytes below a multiple of 4096. */
  lemma EndsBelowPage(capacity: nat, need: nat, page: nat)
    requires capacity < need < TWO32 && LeastMultiple(page, HEAP_ALIGN, 2 * capacity)
    requires 2 * capacity > HEAP_ALIGN && need + PAYLOAD_UNIT <= page
    ensures AfterWrite(capacity, need) == page - 64 && page % 4096 == 0
  {
    WriteGrowthExactly(capacity, need, page);
    assert (page - 64) % 64 == 0;
    OneLeastMultiple(AfterWrite(capacity, need), page - 64, PAYLOAD_UNIT, page - 64);
  }

  lemma ReserveGrowthExactly(capacity: nat, need: nat)
    requires capacity < need < TWO32
    ensures LeastMultiple(AfterReserve(capacity, need), PAYLOAD_UNIT, 2 * capacity + need)
  {
    ResizedBounds(capacity * 2 + need);
  }

  // ----- Whole runs -----

  datatype Op = WriteOp(length: nat) | ReserveOp(length: nat)

  /** `peak` is the most payload ever asked for; `copied` counts the bytes every reallocation has moved. */
  datatype Sizes = Sizes(capacity: nat, offset: nat, peak: nat, copied: nat)

  const START := Sizes(PAYLOAD_UNIT, 0, 0, 0)

  function Need(s: Sizes, op: Op): nat { s.offset + op.length + PadLength(op.length) }

  function Apply(s: Sizes, op: Op): Sizes
    requires Need(s, op) < TWO32
  {
    var need := Need(s, op);
    Sizes(if op.WriteOp? then AfterWrite(s.capacity, need) else AfterReserve(s.capacity, need),
          if op.WriteOp? then need else s.offset,
          Max(s.peak, need),
          s.copied + if need <= s.capacity then 0 else s.capacity)
  }

  /** The payload stays below 4 GB throughout, as the code demands. */
  ghost predicate FitsFrom(s: Sizes, ops: seq<Op>)
    decreases |ops|, 0
  {
    ops == [] || (FitsFrom(s, ops[..|ops| - 1]) && Need(ApplyFrom(s, ops[..|ops| - 1]), ops[|ops| - 1]) < TWO32)
  }

  ghost function ApplyFrom(s: Sizes, ops: seq<Op>): Sizes
    requires FitsFrom(s, ops)
    decreases |ops|, 1
  {
    if ops == [] then s else Apply(ApplyFrom(s, ops[..|ops| - 1]), ops[|ops| - 1])
  }

  ghost predicate Fits(ops: seq<Op>) { FitsFrom(START, ops) }

  /** A whole run on a fresh Pickle. */
  ghost function ApplyAll(ops: seq<Op>): Sizes
    requires Fits(ops)
  {
    ApplyFrom(START, ops)
  }

  lemma {:induction false} ApplyJoins(s: Sizes, a: seq<Op>, b: seq<Op>)
    requires FitsFrom(s, a) && FitsFrom(ApplyFrom(s, a), b)
    ensures FitsFrom(s, a + b) && ApplyFrom(s, a + b) == ApplyFrom(ApplyFrom(s, a), b)
  {
    if b == [] {
      Seqs.Whole(a);
    } else {
      var n := |b| - 1;
      ApplyJoins(s, a, b[..n]);
      Seqs.Snoc(b);
      Seqs.Associates(a, b[..n], [b[n]]);
      Seqs.TakeAppended(a + b[..n], [b[n]]);
    }
  }

  ghost predicate SameSpace(s: Sizes, t: Sizes) { s.capacity == t.capacity && s.offset == t.offset }

  /** Growth depends on the capacity and the offset alone. */
  lemma {:induction false} SameGrowth(s: Sizes, t: Sizes, ops: seq<Op>)
    requires SameSpace(s, t) && FitsFrom(s, ops)
    ensures FitsFrom(t, ops) && SameSpace(ApplyFrom(s, ops), ApplyFrom(t, ops))
  {
    if ops != [] { SameGrowth(s, t, ops[..|ops| - 1]); }
  }

  ghost predicate Inv(s: Sizes) {
    && s.offset <= s.peak < TWO32
    && s.offset <= s.capacity
    && s.offset % 4 == 0
    && s.capacity % PAYLOAD_UNIT == 0
    && s.capacity < 3 * s.peak + HEAP_ALIGN
    && s.copied <= 2 * s.capacity
  }

  lemma ApplyKeepsInv(s: Sizes, op: Op)
    requires Inv(s) && Need(s, op) < TWO32
    ensures Inv(Apply(s, op))
    ensures
      && op.WriteOp?
      && s.peak == s.offset
      && s.capacity < 2 * s.offset + HEAP_ALIGN
      ==> Apply(s, op).peak == Apply(s, op).offset && Apply(s, op).capacity < 2 * Apply(s, op).offset + HEAP_ALIGN
  {
    NeedIsAligned(s, op);
    var need := Need(s, op);
    if need > s.capacity {
      if op.WriteOp? { WriteGrowth(s.capacity, need); } else { ReserveGrowth(s.capacity, need); }
    }
  }

  lemma NeedIsAligned(s: Sizes, op: Op)
    requires s.offset % 4 == 0
    ensures Need(s, op) % 4 == 0
  {
    var n := op.length;
    assert (n + PadLength(n)) % 4 == 0;
    assert (s.offset + (n + PadLength(n))) % 4 == 0;
  }

  /** Over every run the buffer holds the payload, wastes at most a constant factor and is moved O(capacity) bytes in
      all. */
  lemma {:induction false} GrowthIsAmortized(ops: seq<Op>)
    requires Fits(ops)
    ensures Inv(ApplyAll(ops))
    ensures (forall k | 0 <= k < |ops| :: ops[k].WriteOp?) ==>
              var s := ApplyAll(ops);
              s.peak == s.offset && s.capacity < 2 * s.offset + HEAP_ALIGN
  {
    if ops != [] {
      var n := |ops| - 1;
      GrowthIsAmortized(ops[..n]);
      ApplyKeepsInv(ApplyAll(ops[..n]), ops[n]);
    }
  }

  // ----- Typed writes -----

  /** The WriteBytes calls that write a value. */
  function Writes(v: Value): seq<Op> {
    if Numeric(v) then [WriteOp(|NumberBytes(v)|)]
    else
      match v
      case String(b) => [WriteOp(4), WriteOp(|b|)]
      case String16(us) => [WriteOp(4), WriteOp(|UnitBytes(us)|)]
      case Data(b) => [WriteOp(4), WriteOp(|b|)]
      case Bytes(b) => [WriteOp(|b|)]
  }

  function WritesAll(vs: seq<Value>): seq<Op> {
    if vs == [] then [] else WritesAll(vs[..|vs| - 1]) + Writes(vs[|vs| - 1])
  }

  lemma {:induction false} OnlyWrites(vs: seq<Value>)
    ensures forall k | 0 <= k < |WritesAll(vs)| :: WritesAll(vs)[k].WriteOp?
  {
    if vs != [] { OnlyWrites(vs[..|vs| - 1]); }
  }

  ghost predicate GrownTo(s: Sizes, ops: seq<Op>, capacity: nat, offset: nat) {
    FitsFrom(s, ops) && ApplyFrom(s, ops).capacity == capacity && ApplyFrom(s, ops).offset == offset
  }

  function Space(capacity: nat, offset: nat): Sizes { Sizes(capacity, offset, offset, 0) }

  lemma OneWrite(capacity: nat, offset: nat, n: nat)
    requires offset + n + PadLength(n) < TWO32
    ensures
      var end := offset + n + PadLength(n);
      GrownTo(Space(capacity, offset), [WriteOp(n)], AfterWrite(capacity, end), end)
  {
    assert [WriteOp(n)][..0] == [];
  }

  lemma MoreWrites(s: Sizes, a: seq<Op>, capacity: nat, offset: nat, b: seq<Op>, capacity': nat, offset': nat)
    requires GrownTo(s, a, capacity, offset) && GrownTo(Space(capacity, offset), b, capacity', offset')
    ensures GrownTo(s, a + b, capacity', offset')
  {
    SameGrowth(Space(capacity, offset), ApplyFrom(s, a), b);
    ApplyJoins(s, a, b);
  }
}

/** PickleIterator: typed reads from an untrusted payload. */
module PickleReader {
  import opened Arithmetic
  import opened PickleFormat
  import opened Wrappers

  /** payload_, read_index_ and whether payload_ is null; end_index_ is the payload's length. */
  datatype Cursor = Cursor(payload: seq<byte>, index: nat, absent: bool)

  function Start(payload: seq<byte>): Cursor { Cursor(payload, 0, false) }

  /** A default iterator, and one over a Pickle whose data was rejected. */
  const NOWHERE := Cursor([], 0, true)

  predicate InBounds(c: Cursor) { c.index <= |c.payload| && (c.absent ==> c.payload == []) }

  datatype Outcome<T> = Outcome(value: Option<T>, after: Cursor)

  function Min(a: int, b: int): int { if a <= b then a else b }

  function Parked(c: Cursor): Cursor { c.(index := |c.payload|) }

  /** What the caller of GetReadPointerAndAdvance sees: a null pointer is a failure, even for no bytes. */
  function Pointed(c: Cursor, n: nat): Option<seq<byte>>
    requires c.index + n <= |c.payload|
  {
    if c.absent then None else Some(c.payload[c.index..c.index + n])
  }

  /** GetReadPointerAndAdvance: `n` bytes and their padding, or failure at the end of the payload. */
  function Take(c: Cursor, n: int): Outcome<seq<byte>>
  {
    if 0 <= n <= |c.payload| - c.index then
      Outcome(Pointed(c, n), c.(index := Min(c.index + n + PadLength(n), |c.payload|)))
    else
      Outcome(None, Parked(c))
  }

  /** Whether the product of a count and an element size is an int. */
  predicate CountFits(n: int, size: nat) { n >= 0 && n * size < TWO31 }

  /** The element-counting overload: a count that does not fit fails without moving the iterator. */
  function TakeElements(c: Cursor, n: int, size: nat): Outcome<seq<byte>>
  {
    if CountFits(n, size) then Take(c, n * size) else Outcome(None, c)
  }

  function AsInt(b: seq<byte>): int { Signed(FromLe(b), TWO32) }

  /** ReadString and ReadData: a length, then that many bytes. */
  function TakeSized(c: Cursor): Outcome<seq<byte>>
  {
    var o := Take(c, 4);
    if o.value.None? then o else Take(o.after, AsInt(o.value.value))
  }

  /** ReadString16: a count, then that many two-byte units. */
  function TakeUnits(c: Cursor): Outcome<seq<byte>>
  {
    var o := Take(c, 4);
    if o.value.None? then o else TakeElements(o.after, AsInt(o.value.value), 2)
  }

  /** The bytes a Read method copies its result from. ReadBool takes one byte. */
  function Fetch(c: Cursor, t: Type): Outcome<seq<byte>>
  {
    match t
    case BoolT => Take(c, 1)
    case UInt16T => Take(c, 2)
    case IntT | UInt32T | FloatT => Take(c, 4)
    case LongT | Int64T | UInt64T | DoubleT => Take(c, 8)
    case StringT | DataT => TakeSized(c)
    case String16T => TakeUnits(c)
    case BytesT(n) => Take(c, n)
  }

  function UnitAt(b: seq<byte>, k: nat): int
    requires 2 * k + 2 <= |b|
  {
    FromLe(b[2 * k..2 * k + 2])
  }

  /** The first `n` code units in a run of bytes. */
  function Units(b: seq<byte>, n: nat): (us: seq<int>)
    requires 2 * n <= |b|
    ensures |us| == n
  {
    seq(n, k requires 0 <= k < n => UnitAt(b, k))
  }

  function Decoded(t: Type, b: seq<byte>): Value {
    match t
    case BoolT => Bool(FromLe(b) != 0)
    case IntT => Int(AsInt(b))
    case LongT => Long(Signed(FromLe(b), TWO64))
    case UInt16T => UInt16(FromLe(b))
    case UInt32T => UInt32(FromLe(b))
    case Int64T => Int64(Signed(FromLe(b), TWO64))
    case UInt64T => UInt64(FromLe(b))
    case FloatT => Float(FromLe(b))
    case DoubleT => Double(FromLe(b))
    case StringT => String(b)
    case String16T => String16(Units(b, |b| / 2))
    case DataT => Data(b)
    case BytesT(n) => Bytes(b)
  }

  /** One Read call. */
  function Read(c: Cursor, t: Type): Outcome<Value>
  {
    var o := Fetch(c, t);
    Outcome(if o.value.None? then None else Some(Decoded(t, o.value.value)), o.after)
  }

  type ReadFunction = (Cursor, Type) -> Outcome<Value>

  /** Calls Read methods in turn until one fails. */
  function RunReads(read: ReadFunction, c: Cursor, ts: seq<Type>): Outcome<seq<Value>> {
    if ts == [] then Outcome(Some([]), c)
    else
      var o := RunReads(read, c, ts[..|ts| - 1]);
      if o.value.None? then o
      else
        var next := read(o.after, ts[|ts| - 1]);
        Outcome(if next.value.None? then None else Some(o.value.value + [next.value.value]), next.after)
  }

  function ReadAll(c: Cursor, ts: seq<Type>): Outcome<seq<Value>> { RunReads(Read, c, ts) }

  // ----- Reads stay inside the payload -----

  /** Where the iterator may stand: on a field boundary or at the end. */
  ghost predicate OnBoundary(c: Cursor) {
    && InBounds(c)
    && (c.index % 4 == 0 || c.index == |c.payload|)
  }

  ghost predicate Follows(a: Cursor, b: Cursor) {
    && b.payload == a.payload
    && b.absent == a.absent
    && a.index <= b.index
    && InBounds(b)
    && (OnBoundary(a) ==> OnBoundary(b))
  }

  lemma TakeFollows(c: Cursor, n: int)
    requires InBounds(c)
    ensures Follows(c, Take(c, n).after)
  {
    if 0 <= n && c.index % 4 == 0 {
      assert (n + PadLength(n)) % 4 == 0;
      assert (c.index + (n + PadLength(n))) % 4 == 0;
    }
  }

  lemma TakeUnitsFollows(c: Cursor)
    requires InBounds(c)
    ensures Follows(c, TakeUnits(c).after)
  {
    TakeFollows(c, 4);
    var o := Take(c, 4);
    if o.value.Some? && CountFits(AsInt(o.value.value), 2) { TakeFollows(o.after, AsInt(o.value.value) * 2); }
  }

  lemma TakeSizedFollows(c: Cursor)
    requires InBounds(c)
    ensures Follows(c, TakeSized(c).after)
  {
    TakeFollows(c, 4);
    var o := Take(c, 4);
    if o.value.Some? { TakeFollows(o.after, AsInt(o.value.value)); }
  }

  /** Whatever the payload holds, no read leaves it, goes back or stops between fields. */
  lemma ReadBounds(c: Cursor, t: Type)
    requires InBounds(c)
    ensures Follows(c, Read(c, t).after)
  {
    match t
    case BoolT => TakeFollows(c, 1);
    case UInt16T => TakeFollows(c, 2);
    case IntT | UInt32T | FloatT => TakeFollows(c, 4);
    case LongT | Int64T | UInt64T | DoubleT => TakeFollows(c, 8);
    case StringT | DataT => TakeSizedFollows(c);
    case String16T => TakeUnitsFollows(c);
    case BytesT(n) => TakeFollows(c, n);
  }

  lemma {:induction false} RunBounds(read: ReadFunction, c: Cursor, ts: seq<Type>)
    requires forall d, t | InBounds(d) :: Follows(d, read(d, t).after)
    requires InBounds(c)
    ensures Follows(c, RunReads(read, c, ts).after)
  {
    if ts != [] {
      var n := |ts| - 1;
      RunBounds(read, c, ts[..n]);
      assert Follows(RunReads(read, c, ts[..n]).after, read(RunReads(read, c, ts[..n]).after, ts[n]).after);
    }
  }

  /** The same over any list of reads, failures included. */
  lemma ReadAllBounds(c: Cursor, ts: seq<Type>)
    requires InBounds(c)
    ensures Follows(c, ReadAll(c, ts).after)
  {
    forall d, t | InBounds(d) ensures Follows(d, Read(d, t).after) { ReadBounds(d, t); }
    RunBounds(Read, c, ts);
  }

  /** The bytes a fixed-size Read method asks for. */
  function FetchSize(t: Type): int {
    match t
    case BoolT => 1
    case UInt16T => 2
    case LongT | Int64T | UInt64T | DoubleT => 8
    case BytesT(n) => n
    case _ => 4
  }

  predicate Prefixed(t: Type) { t.StringT? || t.DataT? || t.String16T? }

  lemma TakesFrom(c: Cursor, n: int)
    requires InBounds(c) && Take(c, n).value.Some?
    ensures 0 <= n && c.index + n <= Take(c, n).after.index <= |c.payload|
    ensures Take(c, n).value.value == c.payload[c.index..c.index + n]
  {
    assert PadLength(n) >= 0;
  }

  /** Every fetch that succeeds ends in one GetReadPointerAndAdvance, for a prefixed type behind the length. */
  lemma FetchIsTake(c: Cursor, t: Type) returns (d: Cursor, n: int)
    requires InBounds(c) && Fetch(c, t).value.Some?
    ensures Fetch(c, t) == Take(d, n) && Follows(c, d)
  {
    if Prefixed(t) {
      TakeFollows(c, 4);
      d := Take(c, 4).after;
      n := AsInt(Take(c, 4).value.value) * if t.String16T? then 2 else 1;
    } else {
      d, n := c, FetchSize(t);
    }
  }

  lemma FetchesFrom(c: Cursor, t: Type) returns (from: nat, to: nat)
    requires InBounds(c) && Fetch(c, t).value.Some?
    ensures c.index <= from <= to <= Fetch(c, t).after.index <= |c.payload|
    ensures Fetch(c, t).value.value == c.payload[from..to]
  {
    var d, n := FetchIsTake(c, t);
    TakesFrom(d, n);
    from, to := d.index, d.index + n;
  }

  /** The bytes behind a successful read lie between where it started and where it stopped. */
  lemma ReadsFromPayload(c: Cursor, t: Type)
    requires InBounds(c) && Read(c, t).value.Some?
    ensures
      exists from: nat, to: nat ::
        && c.index <= from <= to <= Read(c, t).after.index
        && Read(c, t).value.value == Decoded(t, c.payload[from..to])
  {
    var from, to := FetchesFrom(c, t);
    assert Read(c, t).value.value == Decoded(t, c.payload[from..to]);
  }

  // ----- What a failed read leaves behind -----

  /** The one failure that does not park: a String16 count that is negative or too large, with bytes after it. */
  predicate Overcounted(c: Cursor, t: Type) {
    && t.String16T?
    && c.index + 4 < |c.payload|
    && !CountFits(AsInt(c.payload[c.index..c.index + 4]), 2)
  }

  /** A failed read parks the iterator at the end exactly when the failure is not an overcounted String16. */
  lemma FailureParks(c: Cursor, t: Type)
    requires InBounds(c) && Read(c, t).value.None?
    ensures Read(c, t).after == Parked(c) <==> !Overcounted(c, t)
  {
    assert c.index + 4 <= |c.payload| ==> Take(c, 4).after.index == c.index + 4;
  }

  /** At the end nothing but an empty ReadBytes of a payload that exists succeeds, and nothing moves the iterator. */
  lemma NothingAfterTheEnd(c: Cursor, t: Type)
    requires InBounds(c) && c.index == |c.payload|
    ensures Read(c, t).after == c
    ensures Read(c, t).value.Some? <==> t == BytesT(0) && !c.absent
  {
    assert Take(c, 0).after == c;
  }

  lemma {:induction false} StuckReads(read: ReadFunction, c: Cursor, later: seq<Type>)
    requires later != []
    requires forall k | 0 <= k < |later| :: read(c, later[k]) == Outcome(None, c)
    ensures RunReads(read, c, later) == Outcome(None, c)
  {
    var n := |later| - 1;
    if n == 0 {
      assert later[..n] == [];
    } else {
      StuckReads(read, c, later[..n]);
    }
  }

  /** After a failed read nothing that needs a byte can be read if and only if the failure is not an overcounted
      String16. */
  lemma FailureIsFinalExactly(c: Cursor, t: Type)
    requires InBounds(c) && Read(c, t).value.None?
    ensures (forall u | u != BytesT(0) :: Read(Read(c, t).after, u).value.None?) <==> !Overcounted(c, t)
  {
    FailureParks(c, t);
    if Overcounted(c, t) {
      assert Read(Read(c, t).after, BytesT(1)).value.Some?;
    } else {
      forall u | u != BytesT(0) ensures Read(Parked(c), u).value.None? { NothingAfterTheEnd(Parked(c), u); }
    }
  }

  /** Nothing at all can be read from an iterator that points nowhere, not even no bytes. */
  lemma NothingFromNowhere(ts: seq<Type>)
    requires ts != []
    ensures ReadAll(NOWHERE, ts) == Outcome(None, NOWHERE)
  {
    forall k | 0 <= k < |ts| ensures Read(NOWHERE, ts[k]) == Outcome(None, NOWHERE) {
      NothingAfterTheEnd(NOWHERE, ts[k]);
    }
    StuckReads(Read, NOWHERE, ts);
  }

  /** A read that fails, other than an overcounted String16, makes every later list of non-empty reads fail. */
  lemma FailureIsFinal(c: Cursor, t: Type, later: seq<Type>)
    requires InBounds(c) && Read(c, t).value.None? && !Overcounted(c, t)
    requires later != [] && BytesT(0) !in later
    ensures ReadAll(Read(c, t).after, later) == Outcome(None, Parked(c))
  {
    FailureParks(c, t);
    forall k | 0 <= k < |later| ensures Read(Parked(c), later[k]) == Outcome(None, Parked(c)) {
      assert BytesT(0) != later[k];
      NothingAfterTheEnd(Parked(c), later[k]);
    }
    StuckReads(Read, Parked(c), later);
  }

  lemma FromFourBytes(b: seq<byte>)
    requires |b| == 4
    ensures FromLe(b) == b[0] as int + 256 * (b[1] as int + 256 * (b[2] as int + 256 * (b[3] as int)))
  {
    assert FromLe(b[1..][1..][1..]) == b[3] + 256 * FromLe([]);
    assert FromLe(b[1..]) == b[1] + 256 * (b[2] + 256 * FromLe(b[1..][1..][1..]));
  }

  /** The documentation says nothing can be read after a failure; here a string fails and an int can be read. */
  lemma ReadableAfterFailure(c: Cursor)
    requires c == Start([255, 255, 255, 255, 7, 0, 0, 0])
    ensures Read(c, String16T) == Outcome(None, c.(index := 4))
    ensures Read(c.(index := 4), IntT).value == Some(Int(7))
  {
    assert c.payload[0..4] == [255, 255, 255, 255] && c.payload[4..8] == [7, 0, 0, 0];
    FromFourBytes([255, 255, 255, 255]);
    FromFourBytes([7, 0, 0, 0]);
  }

  // ----- Reading back what was written -----

  ghost predicate At(c: Cursor, bytes: seq<byte>) {
    && !c.absent
    && c.index + |bytes| <= |c.payload|
    && c.payload[c.index..c.index + |bytes|] == bytes
  }

  function Skip(c: Cursor, n: nat): Cursor { c.(index := c.index + n) }

  lemma AtSplits(c: Cursor, a: seq<byte>, b: seq<byte>)
    requires At(c, a + b)
    ensures At(c, a) && At(Skip(c, |a|), b)
  {
    var s := c.payload[c.index..c.index + |a + b|];
    assert s[..|a|] == a && s[|a|..] == b;
    assert c.payload[c.index..c.index + |a|] == s[..|a|];
    assert c.payload[c.index + |a|..c.index + |a| + |b|] == s[|a|..];
  }

  lemma TakeBack(c: Cursor, b: seq<byte>)
    requires At(c, Padded(b))
    ensures Take(c, |b|) == Outcome(Some(b), Skip(c, |Padded(b)|))
  {
    AtSplits(c, b, Zeros(PadLength(|b|)));
  }

  /** WriteBool writes a whole int; ReadBool looks at its first byte only. */
  lemma BoolBack(c: Cursor, b: bool)
    requires At(c, Encoded(Bool(b)))
    ensures Read(c, BoolT) == Outcome(Some(Bool(b)), Skip(c, 4))
  {
    var word := Le(if b then 1 else 0, 4);
    assert c.payload[c.index] == c.payload[c.index..c.index + 4][0] == word[0];
    var one := c.payload[c.index..c.index + 1];
    assert one[1..] == [];
    assert FromLe(one) == one[0];
  }

  lemma UnsignedBack(size: nat, modulus: nat, u: nat)
    requires Pow256(size) == modulus && u < modulus
    ensures FromLe(Le(u % modulus, size)) == u
  {
    DivIs(u, 0, u, modulus);
    FromLeOfLe(u, size);
  }

  lemma SignedBack(size: nat, modulus: nat, i: int)
    requires Pow256(size) == modulus && 0 <= 2 * i + modulus < 2 * modulus
    ensures Signed(FromLe(Le(i % modulus, size)), modulus) == i
  {
    SignedOfRemainder(i, modulus);
    FromLeOfLe(i % modulus, size);
  }

  lemma NumberDecodes(v: Value)
    requires Numeric(v) && !v.Bool? && Typed(v)
    ensures Decoded(TypeOf(v), NumberBytes(v)) == v
  {
    Pow256Values();
    match v
    case Int(i) => SignedBack(4, TWO32, i);
    case Long(i) => SignedBack(8, TWO64, i);
    case UInt16(u) => UnsignedBack(2, TWO16, u);
    case UInt32(u) => UnsignedBack(4, TWO32, u);
    case Int64(i) => SignedBack(8, TWO64, i);
    case UInt64(u) => UnsignedBack(8, TWO64, u);
    case Float(u) => UnsignedBack(4, TWO32, u);
    case Double(u) => UnsignedBack(8, TWO64, u);
  }

  lemma NumberBack(c: Cursor, v: Value)
    requires Numeric(v) && !v.Bool? && At(c, Encoded(v))
    ensures Fetch(c, TypeOf(v)) == Outcome(Some(NumberBytes(v)), Skip(c, |Encoded(v)|))
  {
    TakeBack(c, NumberBytes(v));
  }

  lemma LengthBack(c: Cursor, n: nat, rest: seq<byte>)
    requires n < TWO31 && At(c, Padded(Le(n % TWO32, 4)) + rest)
    ensures Take(c, 4) == Outcome(Some(Le(n % TWO32, 4)), Skip(c, 4))
    ensures AsInt(Le(n % TWO32, 4)) == n
    ensures At(Skip(c, 4), rest)
  {
    var b := Le(n % TWO32, 4);
    AtSplits(c, Padded(b), rest);
    TakeBack(c, b);
    Pow256Values();
    SignedBack(4, TWO32, n);
  }

  lemma SizedBack(c: Cursor, b: seq<byte>)
    requires |b| < TWO31 && At(c, Sized(|b|, b))
    ensures TakeSized(c) == Outcome(Some(b), Skip(c, |Sized(|b|, b)|))
  {
    LengthBack(c, |b|, Padded(b));
    TakeBack(Skip(c, 4), b);
  }

  lemma UnitsBack(c: Cursor, n: nat, b: seq<byte>)
    requires |b| == 2 * n < TWO31 && At(c, Sized(n, b))
    ensures TakeUnits(c) == Outcome(Some(b), Skip(c, |Sized(n, b)|))
  {
    LengthBack(c, n, Padded(b));
    TakeBack(Skip(c, 4), b);
  }

  lemma {:induction false} UnitDecodes(us: seq<int>, k: nat)
    requires k < |us| && 0 <= us[k] < TWO16
    ensures FromLe(UnitBytes(us)[2 * k..2 * k + 2]) == us[k]
  {
    var n := |us| - 1;
    var b := UnitBytes(us[..n]);
    if k == n {
      Pow256Values();
      UnsignedBack(2, TWO16, us[n]);
      assert UnitBytes(us)[2 * n..2 * n + 2] == Le(us[n] % TWO16, 2);
    } else {
      UnitDecodes(us[..n], k);
      assert UnitBytes(us)[2 * k..2 * k + 2] == b[2 * k..2 * k + 2];
    }
  }

  lemma UnitsDecode(us: seq<int>)
    requires forall k | 0 <= k < |us| :: 0 <= us[k] < TWO16
    ensures Units(UnitBytes(us), |us|) == us
  {
    var b := UnitBytes(us);
    forall k | 0 <= k < |us| ensures UnitAt(b, k) == us[k] { UnitDecodes(us, k); }
  }

  lemma String16Back(c: Cursor, us: seq<int>)
    requires Typed(String16(us)) && At(c, Encoded(String16(us)))
    ensures Read(c, String16T) == Outcome(Some(String16(us)), Skip(c, |Encoded(String16(us))|))
  {
    UnitsBack(c, |us|, UnitBytes(us));
    UnitsDecode(us);
    assert |UnitBytes(us)| / 2 == |us|;
  }

  lemma SizedValueBack(c: Cursor, v: Value)
    requires (v.String? || v.Data?) && Typed(v) && At(c, Encoded(v))
    ensures Read(c, TypeOf(v)) == Outcome(Some(v), Skip(c, |Encoded(v)|))
  {
    SizedBack(c, v.bytes);
  }

  lemma BytesBack(c: Cursor, v: Value)
    requires v.Bytes? && At(c, Encoded(v))
    ensures Read(c, TypeOf(v)) == Outcome(Some(v), Skip(c, |Encoded(v)|))
  {
    TakeBack(c, v.bytes);
  }

  lemma NumericBack(c: Cursor, v: Value)
    requires Numeric(v) && !v.Bool? && Typed(v) && At(c, Encoded(v))
    ensures Read(c, TypeOf(v)) == Outcome(Some(v), Skip(c, |Encoded(v)|))
  {
    NumberBack(c, v);
    NumberDecodes(v);
  }

  /** A read of the type that was written returns the value and stops at the end of its encoding. */
  lemma ReadBack(c: Cursor, v: Value)
    requires Typed(v) && At(c, Encoded(v))
    ensures Read(c, TypeOf(v)) == Outcome(Some(v), Skip(c, |Encoded(v)|))
  {
    match v
    case Bool(b) => BoolBack(c, b);
    case String(_) => SizedValueBack(c, v);
    case Data(_) => SizedValueBack(c, v);
    case Bytes(_) => BytesBack(c, v);
    case String16(us) => String16Back(c, us);
    case _ => NumericBack(c, v);
  }

  function Types(vs: seq<Value>): (ts: seq<Type>)
    ensures |ts| == |vs|
  {
    seq(|vs|, i requires 0 <= i < |vs| => TypeOf(vs[i]))
  }

  lemma ValueReadsAs(v: Value)
    requires Typed(v)
    ensures ReadsAs(Read, Encoded(v), TypeOf(v), v)
  {
    forall c | At(c, Encoded(v)) ensures Read(c, TypeOf(v)) == Outcome(Some(v), Skip(c, |Encoded(v)|)) {
      ReadBack(c, v);
    }
  }

  ghost predicate ReadsAs(read: ReadFunction, chunk: seq<byte>, t: Type, v: Value) {
    forall c | At(c, chunk) :: read(c, t) == Outcome(Some(v), Skip(c, |chunk|))
  }

  lemma {:induction false} RunReadsBack(
    read: ReadFunction, c: Cursor, chunks: seq<seq<byte>>, ts: seq<Type>, vs: seq<Value>
  )
    requires |chunks| == |ts| == |vs| && At(c, Concat(chunks))
    requires forall k | 0 <= k < |vs| :: ReadsAs(read, chunks[k], ts[k], vs[k])
    ensures RunReads(read, c, ts) == Outcome(Some(vs), Skip(c, |Concat(chunks)|))
  {
    if vs != [] {
      var n := |vs| - 1;
      AtSplits(c, Concat(chunks[..n]), chunks[n]);
      RunReadsBack(read, c, chunks[..n], ts[..n], vs[..n]);
      assert ReadsAs(read, chunks[n], ts[n], vs[n]);
      assert vs == vs[..n] + [vs[n]];
    }
  }

  /** Any list of typed values, written and read with the same types, comes back whole and ends at the payload's end. */
  lemma RoundTrip(vs: seq<Value>)
    requires forall k | 0 <= k < |vs| :: Typed(vs[k])
    ensures ReadAll(Start(EncodedAll(vs)), Types(vs)) == Outcome(Some(vs), Parked(Start(EncodedAll(vs))))
  {
    var c := Start(EncodedAll(vs));
    assert c.payload[0..|c.payload|] == c.payload;
    forall k | 0 <= k < |vs| ensures ReadsAs(Read, Chunks(vs)[k], Types(vs)[k], vs[k]) { ValueReadsAs(vs[k]); }
    RunReadsBack(Read, c, Chunks(vs), Types(vs), vs);
  }
}

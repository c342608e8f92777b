/** The Pickle format word by word, and what a reader gets from bytes that another kind of write produced. */
module PickleWire {
  import opened Arithmetic
  import opened PickleFormat
  import opened PickleReader
  import opened Wrappers
  import Seqs

  // ----- Every value is words and blobs -----

  /** A 32-bit word, low byte first. */
  function Word(u: nat): seq<byte> { [u % 256, u / 0x100 % 256, u / 0x1_0000 % 256, u / 0x100_0000 % 256] }

  /** A 64-bit number, low word first. */
  function TwoWords(u: nat): seq<byte> { Word(u % TWO32) + Word(u / TWO32) }

  /** Bytes, and zeros up to the next word. */
  function Blob(b: seq<byte>): seq<byte>
    decreases 3 - (|b| + 3) % 4
  {
    if |b| % 4 == 0 then b else Blob(b + [0])
  }

  function Halves(units: seq<int>): seq<byte>
    requires forall k | 0 <= k < |units| :: 0 <= units[k] < TWO16
  {
    if units == [] then [] else [units[0] % 256, units[0] / 256] + Halves(units[1..])
  }

  /** What is written for each kind of value. */
  ghost function Wire(v: Value): seq<byte>
    requires Typed(v)
  {
    match v
    case Bool(b) => Word(if b then 1 else 0)
    case Int(i) => Word(if i < 0 then i + TWO32 else i)
    case Long(i) => TwoWords(if i < 0 then i + TWO64 else i)
    case UInt16(u) => Word(u)
    case UInt32(u) => Word(u)
    case Int64(i) => TwoWords(if i < 0 then i + TWO64 else i)
    case UInt64(u) => TwoWords(u)
    case Float(u) => Word(u)
    case Double(u) => TwoWords(u)
    case String(b) => Word(|b|) + Blob(b)
    case String16(us) => Word(|us|) + Blob(Halves(us))
    case Data(b) => Word(|b|) + Blob(b)
    case Bytes(b) => Blob(b)
  }

  lemma DigitsOf(u: nat, b0: nat, b1: nat, b2: nat, b3: nat)
    requires u < TWO32
    requires b0 == u % 256 && b1 == u / 0x100 % 256 && b2 == u / 0x1_0000 % 256 && b3 == u / 0x100_0000 % 256
    ensures u == b0 + 256 * (b1 + 256 * (b2 + 256 * b3))
  {
    SecondDigit(u);
    ThirdDigit(u);
    FourthDigit(u);
  }

  lemma SecondDigit(u: nat)
    ensures u == u % 256 + 256 * (u / 0x100) && u / 0x100 == u / 0x100 % 256 + 256 * (u / 0x1_0000)
  {
  }

  lemma ThirdDigit(u: nat)
    ensures u / 0x1_0000 == u / 0x1_0000 % 256 + 256 * (u / 0x100_0000)
  {
  }

  lemma FourthDigit(u: nat)
    requires u < TWO32
    ensures u / 0x100_0000 == u / 0x100_0000 % 256
  {
  }

  lemma WordMeans(u: nat)
    requires u < TWO32
    ensures FromLe(Word(u)) == u && Le(u, 4) == Word(u)
  {
    var w := Word(u);
    DigitsOf(u, w[0], w[1], w[2], w[3]);
    FromFourBytes(w);
    LeOfFromLe(w);
  }

  lemma {:induction false} FromLeAdds(a: seq<byte>, b: seq<byte>)
    ensures FromLe(a + b) == FromLe(a) + Pow256(|a|) * FromLe(b)
  {
    if a == [] {
      Seqs.Whole(b);
    } else {
      FromLeAdds(a[1..], b);
      assert (a + b)[1..] == a[1..] + b;
      Distributes(a[0], FromLe(a[1..]), Pow256(|a| - 1), FromLe(b));
    }
  }

  lemma Distributes(h: int, f: int, p: int, g: int)
    ensures h + 256 * (f + p * g) == h + 256 * f + 256 * p * g
  {
    assert 256 * (p * g) == 256 * p * g;
  }

  lemma TwoWordsMean(u: nat)
    requires u < TWO64
    ensures Le(u, 8) == TwoWords(u)
  {
    var low, high := u % TWO32, u / TWO32;
    assert u == low + TWO32 * high && high < TWO32;
    WordMeans(low);
    WordMeans(high);
    FromLeAdds(Word(low), Word(high));
    Pow256Values();
    LeOfFromLe(TwoWords(u));
  }

  lemma PaddedWord(u: nat)
    requires u < TWO32
    ensures Padded(Le(u, 4)) == Word(u)
  {
    WordMeans(u);
    Seqs.Whole(Word(u));
  }

  lemma PaddedTwoWords(u: nat)
    requires u < TWO64
    ensures Padded(Le(u, 8)) == TwoWords(u)
  {
    TwoWordsMean(u);
    Seqs.Whole(TwoWords(u));
  }

  lemma PaddedHalf(u: nat)
    requires u < TWO16
    ensures Le(u, 2) == [u % 256, u / 256] && Padded(Le(u, 2)) == Word(u)
  {
    assert ByteAt(u, 1) == u / 256 % 256;
    assert Le(u, 2) == [u % 256, u / 256];
    assert Zeros(2) == [0, 0];
  }

  lemma {:induction false} PaddedBlob(b: seq<byte>)
    ensures Padded(b) == Blob(b)
    decreases 3 - (|b| + 3) % 4
  {
    if |b| % 4 == 0 {
      assert Zeros(0) == [];
    } else {
      PaddedBlob(b + [0]);
      assert [0] + Zeros(PadLength(|b| + 1)) == Zeros(PadLength(|b|));
      Seqs.Associates(b, [0], Zeros(PadLength(|b| + 1)));
    }
  }

  lemma {:induction false} HalvesAppend(us: seq<int>, u: int)
    requires forall k | 0 <= k < |us| :: 0 <= us[k] < TWO16
    requires 0 <= u < TWO16
    ensures Halves(us + [u]) == Halves(us) + [u % 256, u / 256]
  {
    if us == [] {
      assert [u][1..] == [] && us + [u] == [u];
    } else {
      HalvesAppend(us[1..], u);
      assert (us + [u])[1..] == us[1..] + [u];
    }
  }

  lemma {:induction false} UnitBytesAreHalves(us: seq<int>)
    requires forall k | 0 <= k < |us| :: 0 <= us[k] < TWO16
    ensures UnitBytes(us) == Halves(us)
  {
    if us != [] {
      var n := |us| - 1;
      UnitBytesAreHalves(us[..n]);
      Seqs.Snoc(us);
      HalvesAppend(us[..n], us[n]);
      DivIs(us[n], 0, us[n], TWO16);
      PaddedHalf(us[n]);
    }
  }

  lemma Remainder(i: int, modulus: nat)
    requires 0 <= 2 * i + modulus < 2 * modulus
    ensures i % modulus == if i < 0 then i + modulus else i
  {
    if i >= 0 { DivIs(i, 0, i, modulus); } else { DivIs(i, -1, i + modulus, modulus); }
  }

  lemma NumberIsWire(v: Value)
    requires Typed(v) && Numeric(v)
    ensures Encoded(v) == Wire(v)
  {
    match v
    case Bool(b) => PaddedWord(if b then 1 else 0);
    case Int(i) => Remainder(i, TWO32); PaddedWord(i % TWO32);
    case Long(i) => Remainder(i, TWO64); PaddedTwoWords(i % TWO64);
    case UInt16(u) => DivIs(u, 0, u, TWO16); PaddedHalf(u);
    case UInt32(u) => DivIs(u, 0, u, TWO32); PaddedWord(u);
    case Int64(i) => Remainder(i, TWO64); PaddedTwoWords(i % TWO64);
    case UInt64(u) => DivIs(u, 0, u, TWO64); PaddedTwoWords(u);
    case Float(u) => DivIs(u, 0, u, TWO32); PaddedWord(u);
    case Double(u) => DivIs(u, 0, u, TWO64); PaddedTwoWords(u);
  }

  lemma SizedIsWire(n: nat, b: seq<byte>)
    requires n < TWO31
    ensures Sized(n, b) == Word(n) + Blob(b)
  {
    DivIs(n, 0, n, TWO32);
    PaddedWord(n);
    PaddedBlob(b);
  }

  /** What a typed write appends, for every value, byte by byte. */
  lemma EncodedIsWire(v: Value)
    requires Typed(v)
    ensures Encoded(v) == Wire(v)
  {
    if Numeric(v) {
      NumberIsWire(v);
    } else {
      match v
      case String(b) => SizedIsWire(|b|, b);
      case String16(us) =>
        UnitBytesAreHalves(us);
        SizedIsWire(|us|, UnitBytes(us));
      case Data(b) => SizedIsWire(|b|, b);
      case Bytes(b) => PaddedBlob(b);
    }
  }

  // ----- Reading what another kind of write produced -----

  /** Kinds of value that are written alike: a bool as an int, a long as a 64-bit int, a string as data. */
  ghost predicate Alike(v: Value, u: Value) {
    || (v.Bool? && u == Int(if v.b then 1 else 0))
    || (v.Long? && u == Int64(v.i))
    || (v.String? && u == Data(v.bytes))
  }

  /** They have the same encoding, and a reader of the one kind gets the other. */
  lemma AlikeReads(v: Value, u: Value, c: Cursor)
    requires Typed(v) && Alike(v, u) && At(c, Encoded(v))
    ensures Encoded(v) == Encoded(u)
    ensures Read(c, TypeOf(u)) == Outcome(Some(u), Skip(c, |Encoded(v)|))
  {
    EncodedIsWire(v);
    EncodedIsWire(u);
    ReadBack(c, u);
  }

  // ----- Which reads of arbitrary bytes succeed -----

  /** The length or count in front of a string. */
  function CountAt(c: Cursor): int
    requires c.index + 4 <= |c.payload|
  {
    var b := c.payload[c.index..c.index + 4];
    Signed(b[0] as int + 256 * (b[1] as int + 256 * (b[2] as int + 256 * (b[3] as int))), TWO32)
  }

  /** Whether what is left holds what a read asks for. */
  predicate Holds(c: Cursor, t: Type) {
    var room := |c.payload| - c.index;
    match t
    case BoolT => 1 <= room
    case UInt16T => 2 <= room
    case IntT | UInt32T | FloatT => 4 <= room
    case LongT | Int64T | UInt64T | DoubleT => 8 <= room
    case StringT | DataT => 4 <= room && 0 <= CountAt(c) <= room - 4
    case String16T => 4 <= room && 0 <= 2 * CountAt(c) <= room - 4 && 2 * CountAt(c) < TWO31
    case BytesT(n) => 0 <= n <= room && !c.absent
  }

  lemma TakeSucceeds(c: Cursor, n: int)
    requires InBounds(c)
    ensures Take(c, n).value.Some? <==> 0 <= n <= |c.payload| - c.index && !c.absent
    ensures n == 4 && Take(c, n).value.Some? ==>
              && Take(c, n).value.value == c.payload[c.index..c.index + 4]
              && Take(c, n).after == c.(index := c.index + 4)
  {
  }

  lemma CountIs(c: Cursor)
    requires c.index + 4 <= |c.payload|
    ensures AsInt(c.payload[c.index..c.index + 4]) == CountAt(c)
  {
    FromFourBytes(c.payload[c.index..c.index + 4]);
  }

  lemma PrefixedSucceeds(c: Cursor, t: Type)
    requires InBounds(c) && Prefixed(t)
    ensures Read(c, t).value.Some? <==> Holds(c, t)
  {
    TakeSucceeds(c, 4);
    if Take(c, 4).value.Some? {
      CountIs(c);
      var d := c.(index := c.index + 4);
      TakeSucceeds(d, CountAt(c) * if t.String16T? then 2 else 1);
    }
  }

  /** For all payloads: a read succeeds if and only if what is left holds what it asks for. */
  lemma ReadSucceedsExactly(c: Cursor, t: Type)
    requires InBounds(c)
    ensures Read(c, t).value.Some? <==> Holds(c, t)
  {
    if Prefixed(t) { PrefixedSucceeds(c, t); } else { TakeSucceeds(c, FetchSize(t)); }
  }

  /** Any first byte but zero is true. */
  lemma BoolIsFirstByte(c: Cursor)
    requires InBounds(c) && c.index < |c.payload|
    ensures Read(c, BoolT).value == Some(Bool(c.payload[c.index] != 0))
  {
    var one := c.payload[c.index..c.index + 1];
    assert one[1..] == [] && one[0] == c.payload[c.index];
    assert FromLe(one) == one[0];
  }
}

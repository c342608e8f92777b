/** The byte format of a Pickle payload: little-endian fields, each padded with zeros to a multiple of four. */
module PickleFormat {
  import opened Arithmetic

  type byte = x: int | 0 <= x < 256

  const TWO16: int := 0x1_0000
  const TWO31: int := 0x8000_0000
  const TWO32: int := 0x1_0000_0000
  const TWO63: int := 0x8000_0000_0000_0000
  const TWO64: int := 0x1_0000_0000_0000_0000

  // ----- Little-endian numbers -----

  function Pow256(k: nat): (p: nat)
    ensures p >= 1
  {
    if k == 0 then 1 else 256 * Pow256(k - 1)
  }

  lemma Pow256Values()
    ensures Pow256(2) == TWO16 && Pow256(4) == TWO32 && Pow256(8) == TWO64
  {
    assert Pow256(4) == 256 * (256 * Pow256(2));
    assert Pow256(6) == 256 * (256 * Pow256(4));
    assert Pow256(8) == 256 * (256 * Pow256(6));
  }

  function ByteAt(n: nat, i: nat): byte { if i == 0 then n % 256 else ByteAt(n / 256, i - 1) }

  /** The low `k` bytes of `n`, as memory holds them. */
  function Le(n: nat, k: nat): (s: seq<byte>)
    ensures |s| == k
  {
    seq(k, i requires 0 <= i => ByteAt(n, i))
  }

  function FromLe(s: seq<byte>): nat { if s == [] then 0 else s[0] + 256 * FromLe(s[1..]) }

  lemma {:induction false} FromLeBound(s: seq<byte>)
    ensures FromLe(s) < Pow256(|s|)
  {
    if s != [] { FromLeBound(s[1..]); }
  }

  lemma {:induction false} FromLeOfLe(n: nat, k: nat)
    requires n < Pow256(k)
    ensures FromLe(Le(n, k)) == n
  {
    if k > 0 {
      assert n / 256 < Pow256(k - 1);
      FromLeOfLe(n / 256, k - 1);
      assert Le(n, k)[1..] == Le(n / 256, k - 1);
      assert Le(n, k)[0] == n % 256;
    }
  }

  lemma {:induction false} LeOfFromLe(s: seq<byte>)
    ensures Le(FromLe(s), |s|) == s
  {
    if s != [] {
      var n := FromLe(s[1..]);
      LeOfFromLe(s[1..]);
      DivIs(FromLe(s), n, s[0], 256);
      assert Le(FromLe(s), |s|)[1..] == Le(n, |s| - 1);
      assert Le(FromLe(s), |s|)[0] == s[0];
      assert s == [s[0]] + s[1..];
    }
  }

  /** Two's complement: the value in [-modulus/2, modulus/2) with the given remainder. */
  function Signed(u: int, modulus: nat): int { if 2 * u < modulus then u else u - modulus }

  lemma SignedOfRemainder(i: int, modulus: nat)
    requires modulus > 0 && 0 <= 2 * i + modulus < 2 * modulus
    ensures Signed(i % modulus, modulus) == i
  {
    if i >= 0 { DivIs(i, 0, i, modulus); } else { DivIs(i, -1, i + modulus, modulus); }
  }

  // ----- Values -----

  /** What the typed Write methods take. Floats are their bit patterns, char16 strings their code units. */
  datatype Value =
    | Bool(b: bool) | Int(i: int) | Long(i: int) | UInt16(u: int) | UInt32(u: int) | Int64(i: int) | UInt64(u: int)
    | Float(u: int) | Double(u: int)
    | String(bytes: seq<byte>) | String16(units: seq<int>) | Data(bytes: seq<byte>) | Bytes(bytes: seq<byte>)

  /** Which Read method is called; ReadBytes is told the length. */
  datatype Type =
    | BoolT | IntT | LongT | UInt16T | UInt32T | Int64T | UInt64T | FloatT | DoubleT
    | StringT | String16T | DataT | BytesT(length: int)

  function TypeOf(v: Value): Type {
    match v
    case Bool(_) => BoolT case Int(_) => IntT case Long(_) => LongT case UInt16(_) => UInt16T
    case UInt32(_) => UInt32T case Int64(_) => Int64T case UInt64(_) => UInt64T case Float(_) => FloatT
    case Double(_) => DoubleT case String(_) => StringT case String16(_) => String16T case Data(_) => DataT
    case Bytes(b) => BytesT(|b|)
  }

  /** The C++ argument types, and lengths that survive the casts to int. */
  ghost predicate Typed(v: Value) {
    match v
    case Bool(_) => true
    case Int(i) => -TWO31 <= i < TWO31
    case Long(i) => -TWO63 <= i < TWO63
    case UInt16(u) => 0 <= u < TWO16
    case UInt32(u) => 0 <= u < TWO32
    case Int64(i) => -TWO63 <= i < TWO63
    case UInt64(u) => 0 <= u < TWO64
    case Float(u) => 0 <= u < TWO32
    case Double(u) => 0 <= u < TWO64
    case String(b) => |b| < TWO31
    case String16(us) => 2 * |us| < TWO31 && forall k | 0 <= k < |us| :: 0 <= us[k] < TWO16
    case Data(b) => |b| < TWO31
    case Bytes(b) => |b| < TWO31
  }

  // ----- Encoding -----

  function PadLength(n: nat): nat { if n % 4 == 0 then 0 else 4 - n % 4 }

  function Zeros(n: nat): (z: seq<byte>)
    ensures |z| == n
  {
    seq(n, i => 0)
  }

  /** One WriteBytes: the bytes, then zeros up to a multiple of four. */
  function Padded(b: seq<byte>): (p: seq<byte>)
    ensures |p| == |b| + PadLength(|b|)
  {
    b + Zeros(PadLength(|b|))
  }

  function UnitBytes(units: seq<int>): (s: seq<byte>)
    ensures |s| == 2 * |units|
  {
    if units == [] then [] else UnitBytes(units[..|units| - 1]) + Le(units[|units| - 1] % TWO16, 2)
  }

  /** A length or count, then its bytes. */
  function Sized(n: nat, b: seq<byte>): seq<byte> { Padded(Le(n % TWO32, 4)) + Padded(b) }

  /** Values stored in one fixed-size field; a bool is written as an int. */
  predicate Numeric(v: Value) {
    v.Bool? || v.Int? || v.Long? || v.UInt16? || v.UInt32? || v.Int64? || v.UInt64? || v.Float? || v.Double?
  }

  function NumberBytes(v: Value): seq<byte>
    requires Numeric(v)
  {
    match v
    case Bool(b) => Le(if b then 1 else 0, 4)
    case Int(i) => Le(i % TWO32, 4)
    case Long(i) => Le(i % TWO64, 8)
    case UInt16(u) => Le(u % TWO16, 2)
    case UInt32(u) => Le(u % TWO32, 4)
    case Int64(i) => Le(i % TWO64, 8)
    case UInt64(u) => Le(u % TWO64, 8)
    case Float(u) => Le(u % TWO32, 4)
    case Double(u) => Le(u % TWO64, 8)
  }

  /** What a typed Write appends to the payload. */
  function Encoded(v: Value): seq<byte> {
    if Numeric(v) then Padded(NumberBytes(v))
    else
      match v
      case String(b) => Sized(|b|, b)
      case String16(us) => Sized(|us|, UnitBytes(us))
      case Data(b) => Sized(|b|, b)
      case Bytes(b) => Padded(b)
  }

  function Concat(chunks: seq<seq<byte>>): seq<byte> {
    if chunks == [] then [] else Concat(chunks[..|chunks| - 1]) + chunks[|chunks| - 1]
  }

  function Chunks(vs: seq<Value>): (chunks: seq<seq<byte>>)
    ensures |chunks| == |vs|
  {
    seq(|vs|, i requires 0 <= i < |vs| => Encoded(vs[i]))
  }

  /** The payload after writing a list of values. */
  function EncodedAll(vs: seq<Value>): seq<byte> { Concat(Chunks(vs)) }

  /** A Pickle's bytes: payload size, the rest of the header, payload. */
  function Frame(extra: seq<byte>, payload: seq<byte>): seq<byte> { Le(|payload|, 4) + extra + payload }
}

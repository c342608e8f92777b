/** The streaming engine around MD5Transform: a 64-byte buffer, a bit count kept in two 32-bit words
    with a hand-written carry, and padding that takes one or two blocks. Whatever way a message is cut
    into updates, the digest is the one RFC 1321 gives for the whole message. Memory is little-endian. */
module Md5 {
  import opened Arithmetic
  import opened Rfc1321
  import Seqs

  type u32 = x: int | 0 <= x < 0x1_0000_0000

  const TWO32: int := 0x1_0000_0000
  const TWO64: int := 0x1_0000_0000_0000_0000

  // ----- The two-word bit count -----

  /** The count words (lo, hi) after MD5Update has added `len` bytes to them. */
  function Counted(lo: u32, hi: u32, len: nat): (u32, u32) {
    var lo' := (lo + 8 * (len % TWO32)) % TWO32;
    var carried := if lo' < lo then (hi + 1) % TWO32 else hi;
    (lo', (carried + len / 0x2000_0000 % TWO32) % TWO32)
  }
  ghost predicate Counts(lo: u32, hi: u32, length: nat) {
    lo + TWO32 * hi == 8 * length % TWO64
  }

  lemma LowWord(lo: u32, len: nat)
    ensures (lo + 8 * (len % TWO32)) % TWO32 == (lo + 8 * (len % 0x2000_0000)) % TWO32
  {
  }

  lemma HighWord(hi: u32, carry: int, high: nat)
    requires 0 <= carry <= 1
    ensures ((hi + carry) % TWO32 + high % TWO32) % TWO32 == (hi + carry + high) % TWO32
  {
  }

  /** A carry out of the low word happened exactly when the sum came out smaller. */
  lemma CountedWords(lo: u32, hi: u32, len: nat)
    ensures var low := 8 * (len % 0x2000_0000);
            var carry := if lo + low >= TWO32 then 1 else 0;
            && Counted(lo, hi, len).0 == lo + low - TWO32 * carry
            && Counted(lo, hi, len).1 == (hi + carry + len / 0x2000_0000) % TWO32
  {
    LowWord(lo, len);
    var low, high := 8 * (len % 0x2000_0000), len / 0x2000_0000;
    HighWord(hi, if lo + low >= TWO32 then 1 else 0, high);
  }

  lemma CountAdvances(lo: u32, hi: u32, length: nat, len: nat)
    requires Counts(lo, hi, length)
    ensures Counts(Counted(lo, hi, len).0, Counted(lo, hi, len).1, length + len)
  {
    CountedWords(lo, hi, len);
    var low, high := 8 * (len % 0x2000_0000), len / 0x2000_0000;
    var carry := if lo + low >= TWO32 then 1 else 0;
    var over := (hi + carry + high) / TWO32;
    var (lo', hi') := Counted(lo, hi, len);
    assert hi + carry + high == TWO32 * over + hi';
    DivIs(8 * (length + len), 8 * length / TWO64 + over, lo' + TWO32 * hi', TWO64);
  }

  /** The byte count modulo 64 can be read off the low word alone. */
  lemma BufferedBytes(lo: u32, hi: u32, length: nat)
    requires Counts(lo, hi, length)
    ensures lo / 8 % 64 == length % 64
  {
    var above := 0x80_0000 * (hi + TWO32 * (8 * length / TWO64));
    assert 8 * length == lo + 8 * (64 * above);
    DivAdd(lo, 64 * above, 8);
    assert length == lo / 8 + 64 * above;
    DivAdd(lo / 8, above, 64);
  }

  function CountBytes(x: u32): seq<bv8> {
    [ByteOf(x, 0x1), ByteOf(x, 0x100), ByteOf(x, 0x1_0000), ByteOf(x, 0x100_0000)]
  }

  lemma ByteBelow(lo: int, k: int, u: int)
    requires u > 0
    ensures (lo + u * (256 * k)) / u % 256 == lo / u % 256
  {
    DivAdd(lo, 256 * k, u);
  }

  lemma LowBytes(lo: u32, rest: nat)
    ensures var b := lo + TWO32 * rest;
            && b % 256 == lo % 256
            && b / 0x100 % 256 == lo / 0x100 % 256
            && b / 0x1_0000 % 256 == lo / 0x1_0000 % 256
            && b / 0x100_0000 % 256 == lo / 0x100_0000 % 256
  {
    ByteBelow(lo, 0x100_0000 * rest, 0x1);
    ByteBelow(lo, 0x1_0000 * rest, 0x100);
    ByteBelow(lo, 0x100 * rest, 0x1_0000);
    ByteBelow(lo, rest, 0x100_0000);
  }

  lemma HighBytes(lo: u32, b: nat)
    ensures var s := lo + TWO32 * b;
            && s / TWO32 == b
            && s / 0x100_0000_0000 == b / 0x100
            && s / 0x1_0000_0000_0000 == b / 0x1_0000
            && s / 0x100_0000_0000_0000 == b / 0x100_0000
  {
  }

  lemma LowHalf(lo: u32, rest: nat, b: nat)
    requires b == lo + TWO32 * rest
    ensures CountBytes(lo) == [ByteOf(b, 0x1), ByteOf(b, 0x100), ByteOf(b, 0x1_0000), ByteOf(b, 0x100_0000)]
  {
    LowBytes(lo, rest);
  }

  lemma HighHalf(lo: u32, hi: u32, rest: nat, b: nat)
    requires b == lo + TWO32 * (hi + TWO32 * rest)
    ensures
      CountBytes(hi)
      == [ByteOf(b, 0x1_0000_0000), ByteOf(b, 0x100_0000_0000),
          ByteOf(b, 0x1_0000_0000_0000), ByteOf(b, 0x100_0000_0000_0000)]
  {
    var q := hi + TWO32 * rest;
    HighBytes(lo, q);
    LowBytes(hi, rest);
    SameByte(hi, 0x1, b, 0x1_0000_0000);
    SameByte(hi, 0x100, b, 0x100_0000_0000);
    SameByte(hi, 0x1_0000, b, 0x1_0000_0000_0000);
    SameByte(hi, 0x100_0000, b, 0x100_0000_0000_0000);
  }

  lemma SameByte(x: nat, u: nat, y: nat, v: nat)
    requires u > 0 && v > 0 && x / u % 256 == y / v % 256
    ensures ByteOf(x, u) == ByteOf(y, v)
  {
  }

  /** Copying the two count words out of memory gives the length field of the padding. */
  lemma CountWordsAreLength(lo: u32, hi: u32, length: nat)
    requires Counts(lo, hi, length)
    ensures CountBytes(lo) + CountBytes(hi) == LengthBytes(8 * length)
  {
    var b, rest := 8 * length, 8 * length / TWO64;
    assert b == lo + TWO32 * (hi + TWO32 * rest);
    LowHalf(lo, hi + TWO32 * rest, b);
    HighHalf(lo, hi, rest, b);
  }

  // ----- Memory helpers -----

  /** memcpy(dst + at, src, |src|). */
  method CopyTo(dst: array<bv8>, at: nat, src: seq<bv8>)
    requires at + |src| <= dst.Length
    modifies dst
    ensures dst[..] == old(dst[..at]) + src + old(dst[at + |src|..])
    ensures dst[..at + |src|] == old(dst[..at]) + src
  {
    forall i | 0 <= i < |src| { dst[at + i] := src[i]; }
  }

  /** A word assembled from four bytes, the highest first. */
  function Assembled(b3: bv8, b2: bv8, b1: bv8, b0: bv8): bv32 {
    ((((b3 as bv32) << 8) | (b2 as bv32)) << 16) | (((b1 as bv32) << 8) | (b0 as bv32))
  }

  lemma AssembledBytes(b0: bv8, b1: bv8, b2: bv8, b3: bv8)
    ensures Store(Assembled(b3, b2, b1, b0)) == [b0, b1, b2, b3]
  {
  }

  /** byteReverse: assembles each group of four bytes into a word and stores the word over them. On a
      little-endian machine that is harmless, as the code's own comment says. */
  method ByteReverse(buf: array<bv8>, longs: nat)
    requires 0 < longs && 4 * longs <= buf.Length
    modifies buf
    ensures buf[..] == old(buf[..])
  {
    var at, left := 0, longs;
    while left > 0
      invariant at + 4 * left == 4 * longs
      invariant buf[..] == old(buf[..])
    {
      var temp := Assembled(buf[at + 3], buf[at + 2], buf[at + 1], buf[at]);
      AssembledBytes(buf[at], buf[at + 1], buf[at + 2], buf[at + 3]);
      var bytes := Store(temp);
      buf[at], buf[at + 1], buf[at + 2], buf[at + 3] := bytes[0], bytes[1], bytes[2], bytes[3];
      at, left := at + 4, left - 1;
    }
  }

  /** The four words of the state array. */
  function State(buf: array<bv32>): Regs
    requires buf.Length == 4
    reads buf
  {
    Regs(buf[0], buf[1], buf[2], buf[3])
  }

  method SetState(buf: array<bv32>, r: Regs)
    requires buf.Length == 4
    modifies buf
    ensures State(buf) == r
  {
    buf[0] := r.a;
    buf[1] := r.b;
    buf[2] := r.c;
    buf[3] := r.d;
  }

  /** The state words copied out of memory, byteReverse included. */
  method Emit(r: Regs) returns (digest: seq<bv8>)
    ensures digest == Output(r)
  {
    var bytes := new bv8[16];
    CopyTo(bytes, 0, Output(r));
    ByteReverse(bytes, 4);
    digest := bytes[..];
  }

  // ----- The context -----

  lemma AbsorbBlock(f: BlockFunction, r: Regs, data: seq<bv8>, block: seq<bv8>)
    requires |data| % 64 == 0 && |block| == 64
    ensures |data + block| % 64 == 0
    ensures Absorb(f, r, data + block) == f(Absorb(f, r, data), block)
  {
    assert (data + block)[..|data|] == data && (data + block)[|data|..] == block;
  }

  /** The part of a message that fills whole blocks. */
  function Whole(m: seq<bv8>): (w: seq<bv8>)
    ensures |w| % 64 == 0
  {
    m[..|m| - |m| % 64]
  }

  /** The part of a message that waits in the buffer. */
  function Tail(m: seq<bv8>): seq<bv8> { m[|m| - |m| % 64..] }

  lemma SplitMessage(m: seq<bv8>)
    ensures Whole(m) + Tail(m) == m && |Tail(m)| == |m| % 64 < 64
  {
    Seqs.TakeAndDrop(m, |m| - |m| % 64);
  }

  lemma WholeAndTail(m: seq<bv8>, w: seq<bv8>, t: seq<bv8>)
    requires m == w + t && |w| % 64 == 0 && |t| < 64
    ensures Whole(m) == w && Tail(m) == t && |m| % 64 == |t|
  {
  }

  /** The padded message ends in one block when the tail leaves room for nine bytes, else in two. */
  lemma PaddedBlocks(m: seq<bv8>)
    ensures var t, length := |m| % 64, LengthBytes(8 * |m|);
            Padded(m) == if t <= 55 then Whole(m) + (Tail(m) + [0x80] + Zeros(55 - t) + length)
                         else Whole(m) + (Tail(m) + [0x80] + Zeros(63 - t)) + (Zeros(56) + length)
  {
    var t := |m| % 64;
    assert m == Whole(m) + Tail(m);
    if t <= 55 {
      assert (55 - |m|) % 64 == 55 - t;
    } else {
      assert (55 - |m|) % 64 == 119 - t;
      assert Zeros(119 - t) == Zeros(63 - t) + Zeros(56);
    }
  }

  lemma Reassembled(a: seq<bv8>, b: seq<bv8>, c: seq<bv8>, d: seq<bv8>, cd: seq<bv8>)
    requires c + d == cd
    ensures a + b + cd == a + (b + c) + d
  {
  }

  class Context {
    const buf: array<bv32>
    const bits: array<u32>
    const input: array<bv8>

    /** MD5Transform, as a function of the registers and the 64 bytes it reads as words. */
    const transform: BlockFunction

    /** Everything that MD5Update has been given since MD5Init. */
    ghost var message: seq<bv8>

    ghost predicate Shape() {
      buf.Length == 4 && bits.Length == 2 && input.Length == 64
    }

    /** The whole blocks of `m` are in the registers and the rest of it is in the buffer. */
    ghost predicate Holds(m: seq<bv8>)
      requires Shape()
      reads buf, input
    {
      State(buf) == Absorb(transform, INITIAL, Whole(m)) && input[..|m| % 64] == Tail(m)
    }

    ghost predicate Valid()
      reads this, buf, bits, input
    {
      Shape() && Counts(bits[0], bits[1], |message|) && Holds(message)
    }

    /** MD5Init. */
    constructor (transform: BlockFunction)
      ensures Valid() && message == [] && this.transform == transform && fresh(buf) && fresh(bits) && fresh(input)
    {
      buf := new bv32[4];
      bits := new u32[2];
      input := new bv8[64];
      message := [];
      this.transform := transform;
      new;
      SetState(buf, INITIAL);
      bits[0], bits[1] := 0, 0;
    }

    /** memcpy of the whole structure. */
    constructor Copy(other: Context)
      requires other.Valid()
      ensures Valid() && message == other.message && transform == other.transform
      ensures fresh(buf) && fresh(bits) && fresh(input)
    {
      buf := new bv32[4];
      bits := new u32[2];
      input := new bv8[64];
      message := other.message;
      transform := other.transform;
      new;
      SetState(buf, State(other.buf));
      bits[0], bits[1] := other.bits[0], other.bits[1];
      CopyTo(input, 0, other.input[..]);
      assert input[..] == other.input[..];
      ghost var t := |message| % 64;
      assert input[..t] == input[..][..t] == other.input[..t];
    }

    /** byteReverse and MD5Transform on a full buffer. */
    method AbsorbBuffer(ghost before: seq<bv8>)
      requires Shape() && |before| % 64 == 0 && State(buf) == Absorb(transform, INITIAL, before)
      modifies buf, input
      ensures input[..] == old(input[..])
      ensures |before + input[..]| % 64 == 0
      ensures State(buf) == Absorb(transform, INITIAL, before + input[..])
    {
      ByteReverse(input, 16);
      AbsorbBlock(transform, INITIAL, before, input[..]);
      var q := transform(State(buf), input[..]);
      SetState(buf, q);
    }

    /** The count part of MD5Update; `t` is the number of bytes that were in the buffer. */
    method Count(len: nat, ghost length: nat, ghost total: nat) returns (t: nat)
      requires Shape() && Counts(bits[0], bits[1], length) && total == length + len
      modifies bits
      ensures Counts(bits[0], bits[1], total)
      ensures t == length % 64
    {
      CountAdvances(bits[0], bits[1], length, len);
      BufferedBytes(bits[0], bits[1], length);
      t := bits[0];
      bits[0] := (t + 8 * (len % TWO32)) % TWO32;
      if bits[0] < t {
        bits[1] := (bits[1] + 1) % TWO32;
      }
      bits[1] := (bits[1] + len / 0x2000_0000 % TWO32) % TWO32;
      t := t / 8 % 64;
    }

    /** The 64-byte loop of MD5Update. */
    method AbsorbBlocks(data: seq<bv8>, ghost before: seq<bv8>) returns (from: nat)
      requires Shape() && |before| % 64 == 0 && State(buf) == Absorb(transform, INITIAL, before)
      modifies buf, input
      ensures from <= |data| < from + 64
      ensures |before + data[..from]| % 64 == 0
      ensures State(buf) == Absorb(transform, INITIAL, before + data[..from])
    {
      from := 0;
      assert before + data[..from] == before;
      while |data| - from >= 64
        invariant from <= |data|
        invariant |before + data[..from]| % 64 == 0
        invariant State(buf) == Absorb(transform, INITIAL, before + data[..from])
      {
        ghost var block := data[from..from + 64];
        CopyTo(input, 0, data[from..from + 64]);
        assert input[..] == block;
        AbsorbBuffer(before + data[..from]);
        Seqs.TakeSlice(data, from, from + 64);
        Seqs.Associates(before, data[..from], block);
        from := from + 64;
      }
    }

    /** The buffering part of MD5Update, on top of `whole` absorbed bytes and `t` buffered ones. */
    method Buffer(t: nat, data: seq<bv8>, ghost whole: seq<bv8>, ghost tail: seq<bv8>, ghost all: seq<bv8>)
      requires Shape() && |whole| % 64 == 0 && State(buf) == Absorb(transform, INITIAL, whole)
      requires t == |tail| < 64 && input[..t] == tail && all == whole + tail + data
      modifies buf, input
      ensures Holds(all)
    {
      if t == 0 {
        Seqs.Whole(whole);
        BufferAligned(data, whole);
        return;
      }
      var room := 64 - t;
      if |data| < room {
        CopyTo(input, t, data);
        WholeAndTail(whole + tail + data, whole, tail + data);
        return;
      }
      CopyTo(input, t, data[..room]);
      assert input[..] == tail + data[..room];
      AbsorbBuffer(whole);
      Seqs.TakeAndDrop(data, room);
      Reassembled(whole, tail, data[..room], data[room..], data);
      BufferAligned(data[room..], whole + input[..]);
    }

    method BufferAligned(data: seq<bv8>, ghost whole: seq<bv8>)
      requires Shape() && |whole| % 64 == 0 && State(buf) == Absorb(transform, INITIAL, whole)
      modifies buf, input
      ensures Holds(whole + data)
    {
      var from := AbsorbBlocks(data, whole);
      CopyTo(input, 0, data[from..]);
      Seqs.TakeAndDrop(data, from);
      Seqs.Associates(whole, data[..from], data[from..]);
      WholeAndTail(whole + data, whole + data[..from], data[from..]);
    }

    method Update(data: seq<bv8>)
      requires Valid()
      modifies this, buf, bits, input
      ensures Valid() && message == old(message) + data
    {
      ghost var longer := message + data;
      var t := Count(|data|, |message|, |longer|);
      Extend(t, data, longer);
      message := longer;
    }

    method Extend(t: nat, data: seq<bv8>, ghost longer: seq<bv8>)
      requires Shape() && Holds(message) && t == |message| % 64 && longer == message + data
      modifies buf, input
      ensures Holds(longer)
    {
      SplitMessage(message);
      Buffer(t, data, Whole(message), Tail(message), longer);
    }

    /** The padding part of MD5Final: on return the buffer holds the first 56 bytes of the last block. */
    method Pad(count: nat) returns (ghost before: seq<bv8>)
      requires Shape() && Holds(message) && count == |message| % 64
      modifies buf, input
      ensures |before| % 64 == 0 && State(buf) == Absorb(transform, INITIAL, before)
      ensures Padded(message) == before + (input[..56] + LengthBytes(8 * |message|))
    {
      SplitMessage(message);
      CopyTo(input, count, [0x80]);
      var p, left := count + 1, 63 - count;
      PaddedBlocks(message);
      if left < 8 {
        before := PadTwo(p, left, Whole(message), Tail(message) + [0x80]);
      } else {
        CopyTo(input, p, Zeros(left - 8));
        before := Whole(message);
      }
    }

    /** Two blocks of padding: fills and absorbs the first and clears the second. */
    method PadTwo(p: nat, left: nat, ghost whole: seq<bv8>, ghost tail: seq<bv8>) returns (ghost before: seq<bv8>)
      requires Shape() && |whole| % 64 == 0 && State(buf) == Absorb(transform, INITIAL, whole)
      requires p == |tail| && p + left == 64 && input[..p] == tail
      modifies buf, input
      ensures before == whole + (tail + Zeros(left)) && |before| % 64 == 0
      ensures State(buf) == Absorb(transform, INITIAL, before) && input[..56] == Zeros(56)
    {
      CopyTo(input, p, Zeros(left));
      assert input[..64] == input[..];
      AbsorbBuffer(whole);
      before := whole + input[..];
      CopyTo(input, 0, Zeros(56));
    }

    /** Appends the length and transforms the last block. */
    method Finish() returns (r: Regs)
      requires Valid()
      modifies buf, input
      ensures r == Absorb(transform, INITIAL, Padded(message))
    {
      BufferedBytes(bits[0], bits[1], |message|);
      CountWordsAreLength(bits[0], bits[1], |message|);
      ghost var before := Pad(bits[0] / 8 % 64);
      ByteReverse(input, 14);
      ghost var start := input[..56];
      CopyTo(input, 56, CountBytes(bits[0]));
      CopyTo(input, 60, CountBytes(bits[1]));
      Seqs.Associates(start, CountBytes(bits[0]), CountBytes(bits[1]));
      assert input[..] == input[..64] == start + LengthBytes(8 * |message|);
      AbsorbBlock(transform, INITIAL, before, input[..]);
      r := transform(State(buf), input[..]);
    }

    method Final() returns (digest: seq<bv8>)
      requires Valid()
      modifies this, buf, bits, input
      ensures digest == DigestWith(transform, old(message))
      ensures State(buf) == Regs(0, 0, 0, 0) && bits[..] == [0, 0] && input[..] == Zeros(64)
    {
      var r := Finish();
      digest := Emit(r);
      SetState(buf, Regs(0, 0, 0, 0));
      bits[0], bits[1] := 0, 0;
      CopyTo(input, 0, Zeros(64));
    }

    /** MD5IntermediateFinal: finishes a copy, so the context goes on as if nothing had happened. */
    method IntermediateFinal() returns (digest: seq<bv8>)
      requires Valid()
      ensures digest == DigestWith(transform, message)
    {
      var copy := new Context.Copy(this);
      digest := copy.Final();
    }
  }
}

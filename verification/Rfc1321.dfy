/** The frame of the MD5 message digest, sections 2, 3.1 to 3.3 and 3.5 of RFC 1321: one message, padded
    as a whole and absorbed block by block. Nothing here knows about chunks, a 64-byte buffer or a
    two-word bit counter. What a block does (section 3.4) is a parameter, filled in by Rfc1321Block. */
module Rfc1321 {
  import opened Arithmetic

  datatype Regs = Regs(a: bv32, b: bv32, c: bv32, d: bv32)

  // ----- Section 2: bytes and words -----

  /** A word from four bytes, the least significant first. */
  function Load(b: seq<bv8>): bv32
    requires |b| == 4
  {
    (b[0] as bv32) | ((b[1] as bv32) << 8) | ((b[2] as bv32) << 16) | ((b[3] as bv32) << 24)
  }

  /** The four bytes of a word, the least significant first. */
  function Store(w: bv32): (b: seq<bv8>)
    ensures |b| == 4
  {
    [(w & 0xff) as bv8, ((w >> 8) & 0xff) as bv8, ((w >> 16) & 0xff) as bv8, (w >> 24) as bv8]
  }

  function Words(block: seq<bv8>): (w: seq<bv32>)
    requires |block| == 64
    ensures |w| == 16
  {
    seq(16, i requires 0 <= i < 16 => Load(block[4 * i..4 * i + 4]))
  }

  // ----- Sections 3.1 and 3.2: padding -----

  function Zeros(n: nat): (z: seq<bv8>)
    ensures |z| == n
  {
    seq(n, i => 0)
  }

  /** A small number as a byte; a recursion, so that no proof converts between integers and bit vectors. */
  function Octet(v: nat): bv8 { if v == 0 then 0 else Octet(v - 1) + 1 }

  /** The byte of the number `b` that counts `unit`s. */
  function ByteOf(b: nat, unit: nat): bv8
    requires unit > 0
  {
    Octet(b / unit % 256)
  }

  /** The low 64 bits of the bit count, low-order byte first. */
  function LengthBytes(b: nat): (s: seq<bv8>)
    ensures |s| == 8
  {
    [ByteOf(b, 0x1), ByteOf(b, 0x100), ByteOf(b, 0x1_0000), ByteOf(b, 0x100_0000),
     ByteOf(b, 0x1_0000_0000), ByteOf(b, 0x100_0000_0000),
     ByteOf(b, 0x1_0000_0000_0000), ByteOf(b, 0x100_0000_0000_0000)]
  }

  /** The message, a single 1 bit, as few 0 bits as bring the length to 56 bytes modulo 64, and the length. */
  function Padded(m: seq<bv8>): (p: seq<bv8>)
    ensures |p| % 64 == 0
  {
    PaddedLength(|m|);
    m + [0x80] + Zeros((55 - |m|) % 64) + LengthBytes(8 * |m|)
  }

  lemma PaddedLength(n: nat)
    ensures (n + 1 + (55 - n) % 64 + 8) % 64 == 0
  {
    var q := (55 - n) / 64;
    assert n + 1 + (55 - n) % 64 + 8 == 64 * (1 - q);
    DivIs(64 * (1 - q), 1 - q, 0, 64);
  }

  // ----- Sections 3.3 and 3.5 -----

  const INITIAL := Regs(0x6745_2301, 0xefcd_ab89, 0x98ba_dcfe, 0x1032_5476)

  /** What one 16-word block does to the registers. */
  type BlockFunction = (Regs, seq<bv8>) -> Regs

  /** The registers after all blocks of `data`, in order. */
  function Absorb(f: BlockFunction, r: Regs, data: seq<bv8>): Regs
    requires |data| % 64 == 0
  {
    if data == [] then r
    else
      var n := |data| - 64;
      f(Absorb(f, r, data[..n]), data[n..])
  }

  function Output(r: Regs): (b: seq<bv8>)
    ensures |b| == 16
  {
    Store(r.a) + Store(r.b) + Store(r.c) + Store(r.d)
  }

  /** The digest as the text defines it, over any block function. */
  function DigestWith(f: BlockFunction, m: seq<bv8>): seq<bv8> {
    Output(Absorb(f, INITIAL, Padded(m)))
  }
}

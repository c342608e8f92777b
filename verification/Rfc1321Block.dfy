/** Section 3.4 of RFC 1321: what one sixteen-word block does to the registers, and with it the digest. */
module Rfc1321Block {
  import opened Rfc1321

  /** The operations on 32-bit words that the compression is built from. Keeping them in a record lets
      every proof about the order of the sixty-four operations treat them as unknown functions. */
  datatype WordOps = WordOps(
    add: (bv32, bv32) -> bv32,
    aux: (int, bv32, bv32, bv32) -> bv32,
    rotate: (bv32, int) -> bv32)

  /** Addition modulo 2^32. */
  function Add(x: bv32, y: bv32): bv32 { x + y }

  /** The auxiliary functions F, G, H and I of rounds 1 to 4. */
  function Aux(round: int, x: bv32, y: bv32, z: bv32): bv32 {
    if round == 1 then (x & y) | (!x & z)
    else if round == 2 then (x & z) | (y & !z)
    else if round == 3 then x ^ y ^ z
    else y ^ (x | !z)
  }

  /** Circular left shift, for the sixteen amounts that the four rounds use. */
  function Rotate(v: bv32, s: int): bv32 {
    match s
    case 4 => v.RotateLeft(4)
    case 5 => v.RotateLeft(5)
    case 6 => v.RotateLeft(6)
    case 7 => v.RotateLeft(7)
    case 9 => v.RotateLeft(9)
    case 10 => v.RotateLeft(10)
    case 11 => v.RotateLeft(11)
    case 12 => v.RotateLeft(12)
    case 14 => v.RotateLeft(14)
    case 15 => v.RotateLeft(15)
    case 16 => v.RotateLeft(16)
    case 17 => v.RotateLeft(17)
    case 20 => v.RotateLeft(20)
    case 21 => v.RotateLeft(21)
    case 22 => v.RotateLeft(22)
    case 23 => v.RotateLeft(23)
    case _ => v
  }

  const OPS := WordOps((x, y) => Add(x, y), (round, x, y, z) => Aux(round, x, y, z), (v, s) => Rotate(v, s))

  /** The four rotations a round cycles through. */
  function Shifts(round: int): (s: seq<int>)
    ensures |s| == 4
  {
    if round == 1 then [7, 12, 17, 22]
    else if round == 2 then [5, 9, 14, 20]
    else if round == 3 then [4, 11, 16, 23]
    else [6, 10, 15, 21]
  }

  // The table T: entry i of the whole table is the integer part of 4294967296 * abs(sin(i)), i from 1 to 64.

  const SINES1: seq<bv32> := [
    0xd76a_a478, 0xe8c7_b756, 0x2420_70db, 0xc1bd_ceee,
    0xf57c_0faf, 0x4787_c62a, 0xa830_4613, 0xfd46_9501,
    0x6980_98d8, 0x8b44_f7af, 0xffff_5bb1, 0x895c_d7be,
    0x6b90_1122, 0xfd98_7193, 0xa679_438e, 0x49b4_0821]

  const SINES2: seq<bv32> := [
    0xf61e_2562, 0xc040_b340, 0x265e_5a51, 0xe9b6_c7aa,
    0xd62f_105d, 0x0244_1453, 0xd8a1_e681, 0xe7d3_fbc8,
    0x21e1_cde6, 0xc337_07d6, 0xf4d5_0d87, 0x455a_14ed,
    0xa9e3_e905, 0xfcef_a3f8, 0x676f_02d9, 0x8d2a_4c8a]

  const SINES3: seq<bv32> := [
    0xfffa_3942, 0x8771_f681, 0x6d9d_6122, 0xfde5_380c,
    0xa4be_ea44, 0x4bde_cfa9, 0xf6bb_4b60, 0xbebf_bc70,
    0x289b_7ec6, 0xeaa1_27fa, 0xd4ef_3085, 0x0488_1d05,
    0xd9d4_d039, 0xe6db_99e5, 0x1fa2_7cf8, 0xc4ac_5665]

  const SINES4: seq<bv32> := [
    0xf429_2244, 0x432a_ff97, 0xab94_23a7, 0xfc93_a039,
    0x655b_59c3, 0x8f0c_cc92, 0xffef_f47d, 0x8584_5dd1,
    0x6fa8_7e4f, 0xfe2c_e6e0, 0xa301_4314, 0x4e08_11a1,
    0xf753_7e82, 0xbd3a_f235, 0x2ad7_d2bb, 0xeb86_d391]

  function Sines(round: int): (t: seq<bv32>)
    ensures |t| == 16
  {
    if round == 1 then SINES1 else if round == 2 then SINES2 else if round == 3 then SINES3 else SINES4
  }

  /** One operation [abcd k s i]. Where the text rotates the register names, the registers rotate here. */
  function Operation(k: WordOps, r: Regs, round: int, x: bv32, t: bv32, s: int): Regs {
    Regs(r.d, k.add(r.b, k.rotate(k.add(r.a, k.add(k.aux(round, r.b, r.c, r.d), k.add(x, t))), s)), r.b, r.c)
  }

  /** The first `n` operations of a round, on the words, constants and rotations it uses in order. */
  function Operations(k: WordOps, r: Regs, round: int, x: seq<bv32>, t: seq<bv32>, s: seq<int>, n: nat): Regs
    requires |x| == |t| == 16 && |s| == 4 && n <= 16
  {
    if n == 0 then r
    else Operation(k, Operations(k, r, round, x, t, s, n - 1), round, x[n - 1], t[n - 1], s[(n - 1) % 4])
  }

  /** The message words in the order a round consumes them. */
  function Scheduled(round: int, x: seq<bv32>): (s: seq<bv32>)
    requires |x| == 16
    ensures |s| == 16
  {
    if round == 1 then
      [x[0], x[1], x[2], x[3], x[4], x[5], x[6], x[7], x[8], x[9], x[10], x[11], x[12], x[13], x[14], x[15]]
    else if round == 2 then
      [x[1], x[6], x[11], x[0], x[5], x[10], x[15], x[4], x[9], x[14], x[3], x[8], x[13], x[2], x[7], x[12]]
    else if round == 3 then
      [x[5], x[8], x[11], x[14], x[1], x[4], x[7], x[10], x[13], x[0], x[3], x[6], x[9], x[12], x[15], x[2]]
    else
      [x[0], x[7], x[14], x[5], x[12], x[3], x[10], x[1], x[8], x[15], x[6], x[13], x[4], x[11], x[2], x[9]]
  }

  function Round(k: WordOps, r: Regs, round: int, x: seq<bv32>): Regs
    requires |x| == 16
  {
    Operations(k, r, round, Scheduled(round, x), Sines(round), Shifts(round), 16)
  }

  function Compress(k: WordOps, r: Regs, x: seq<bv32>): Regs
    requires |x| == 16
  {
    var q := Round(k, Round(k, Round(k, Round(k, r, 1, x), 2, x), 3, x), 4, x);
    Regs(k.add(r.a, q.a), k.add(r.b, q.b), k.add(r.c, q.c), k.add(r.d, q.d))
  }

  const BLOCK: BlockFunction := (r, block) => if |block| == 64 then Compress(OPS, r, Words(block)) else r

  /** The MD5 digest of a message. */
  function Digest(m: seq<bv8>): seq<bv8> { DigestWith(BLOCK, m) }
}

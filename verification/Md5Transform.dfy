/** The body of MD5Transform: sixty-four macro expansions over four named variables, with the optimised
    selector F1 and rotations written as two shifts. Proved equal to the compression of RFC 1321. */
module Md5Transform {
  import opened Rfc1321
  import opened Rfc1321Block

  /** F1 of the code; F2 is F1 with its arguments permuted. */
  function F1(x: bv32, y: bv32, z: bv32): bv32 { z ^ (x & (y ^ z)) }

  function Mix(f: int, x: bv32, y: bv32, z: bv32): bv32 {
    if f == 1 then F1(x, y, z) else if f == 2 then F1(z, x, y) else if f == 3 then x ^ y ^ z else y ^ (x | !z)
  }

  /** `w << s | w >> (32 - s)` for the sixteen literal amounts of the macro expansions. */
  function Rol(v: bv32, s: int): bv32 {
    match s
    case 4 => (v << 4) | (v >> 28)
    case 5 => (v << 5) | (v >> 27)
    case 6 => (v << 6) | (v >> 26)
    case 7 => (v << 7) | (v >> 25)
    case 9 => (v << 9) | (v >> 23)
    case 10 => (v << 10) | (v >> 22)
    case 11 => (v << 11) | (v >> 21)
    case 12 => (v << 12) | (v >> 20)
    case 14 => (v << 14) | (v >> 18)
    case 15 => (v << 15) | (v >> 17)
    case 16 => (v << 16) | (v >> 16)
    case 17 => (v << 17) | (v >> 15)
    case 20 => (v << 20) | (v >> 12)
    case 21 => (v << 21) | (v >> 11)
    case 22 => (v << 22) | (v >> 10)
    case 23 => (v << 23) | (v >> 9)
    case _ => v
  }

  /** The word operations as the code computes them. */
  const CODE := WordOps((x, y) => Add(x, y), (f, x, y, z) => Mix(f, x, y, z), (v, s) => Rol(v, s))

  /** One step of a round, in the order in which the step macro updates its word. */
  function Step(k: WordOps, f: int, w: bv32, x: bv32, y: bv32, z: bv32, data: bv32, s: int): bv32 {
    k.add(k.rotate(k.add(w, k.add(k.aux(f, x, y, z), data)), s), x)
  }

  function Round1(k: WordOps, r: Regs, m: seq<bv32>): Regs
    requires |m| == 16
  {
    var Regs(a, b, c, d) := r;
    var a := Step(k, 1, a, b, c, d, k.add(m[0], 0xd76a_a478), 7);
    var d := Step(k, 1, d, a, b, c, k.add(m[1], 0xe8c7_b756), 12);
    var c := Step(k, 1, c, d, a, b, k.add(m[2], 0x2420_70db), 17);
    var b := Step(k, 1, b, c, d, a, k.add(m[3], 0xc1bd_ceee), 22);
    var a := Step(k, 1, a, b, c, d, k.add(m[4], 0xf57c_0faf), 7);
    var d := Step(k, 1, d, a, b, c, k.add(m[5], 0x4787_c62a), 12);
    var c := Step(k, 1, c, d, a, b, k.add(m[6], 0xa830_4613), 17);
    var b := Step(k, 1, b, c, d, a, k.add(m[7], 0xfd46_9501), 22);
    var a := Step(k, 1, a, b, c, d, k.add(m[8], 0x6980_98d8), 7);
    var d := Step(k, 1, d, a, b, c, k.add(m[9], 0x8b44_f7af), 12);
    var c := Step(k, 1, c, d, a, b, k.add(m[10], 0xffff_5bb1), 17);
    var b := Step(k, 1, b, c, d, a, k.add(m[11], 0x895c_d7be), 22);
    var a := Step(k, 1, a, b, c, d, k.add(m[12], 0x6b90_1122), 7);
    var d := Step(k, 1, d, a, b, c, k.add(m[13], 0xfd98_7193), 12);
    var c := Step(k, 1, c, d, a, b, k.add(m[14], 0xa679_438e), 17);
    var b := Step(k, 1, b, c, d, a, k.add(m[15], 0x49b4_0821), 22);
    Regs(a, b, c, d)
  }

  function Round2(k: WordOps, r: Regs, m: seq<bv32>): Regs
    requires |m| == 16
  {
    var Regs(a, b, c, d) := r;
    var a := Step(k, 2, a, b, c, d, k.add(m[1], 0xf61e_2562), 5);
    var d := Step(k, 2, d, a, b, c, k.add(m[6], 0xc040_b340), 9);
    var c := Step(k, 2, c, d, a, b, k.add(m[11], 0x265e_5a51), 14);
    var b := Step(k, 2, b, c, d, a, k.add(m[0], 0xe9b6_c7aa), 20);
    var a := Step(k, 2, a, b, c, d, k.add(m[5], 0xd62f_105d), 5);
    var d := Step(k, 2, d, a, b, c, k.add(m[10], 0x0244_1453), 9);
    var c := Step(k, 2, c, d, a, b, k.add(m[15], 0xd8a1_e681), 14);
    var b := Step(k, 2, b, c, d, a, k.add(m[4], 0xe7d3_fbc8), 20);
    var a := Step(k, 2, a, b, c, d, k.add(m[9], 0x21e1_cde6), 5);
    var d := Step(k, 2, d, a, b, c, k.add(m[14], 0xc337_07d6), 9);
    var c := Step(k, 2, c, d, a, b, k.add(m[3], 0xf4d5_0d87), 14);
    var b := Step(k, 2, b, c, d, a, k.add(m[8], 0x455a_14ed), 20);
    var a := Step(k, 2, a, b, c, d, k.add(m[13], 0xa9e3_e905), 5);
    var d := Step(k, 2, d, a, b, c, k.add(m[2], 0xfcef_a3f8), 9);
    var c := Step(k, 2, c, d, a, b, k.add(m[7], 0x676f_02d9), 14);
    var b := Step(k, 2, b, c, d, a, k.add(m[12], 0x8d2a_4c8a), 20);
    Regs(a, b, c, d)
  }

  function Round3(k: WordOps, r: Regs, m: seq<bv32>): Regs
    requires |m| == 16
  {
    var Regs(a, b, c, d) := r;
    var a := Step(k, 3, a, b, c, d, k.add(m[5], 0xfffa_3942), 4);
    var d := Step(k, 3, d, a, b, c, k.add(m[8], 0x8771_f681), 11);
    var c := Step(k, 3, c, d, a, b, k.add(m[11], 0x6d9d_6122), 16);
    var b := Step(k, 3, b, c, d, a, k.add(m[14], 0xfde5_380c), 23);
    var a := Step(k, 3, a, b, c, d, k.add(m[1], 0xa4be_ea44), 4);
    var d := Step(k, 3, d, a, b, c, k.add(m[4], 0x4bde_cfa9), 11);
    var c := Step(k, 3, c, d, a, b, k.add(m[7], 0xf6bb_4b60), 16);
    var b := Step(k, 3, b, c, d, a, k.add(m[10], 0xbebf_bc70), 23);
    var a := Step(k, 3, a, b, c, d, k.add(m[13], 0x289b_7ec6), 4);
    var d := Step(k, 3, d, a, b, c, k.add(m[0], 0xeaa1_27fa), 11);
    var c := Step(k, 3, c, d, a, b, k.add(m[3], 0xd4ef_3085), 16);
    var b := Step(k, 3, b, c, d, a, k.add(m[6], 0x0488_1d05), 23);
    var a := Step(k, 3, a, b, c, d, k.add(m[9], 0xd9d4_d039), 4);
    var d := Step(k, 3, d, a, b, c, k.add(m[12], 0xe6db_99e5), 11);
    var c := Step(k, 3, c, d, a, b, k.add(m[15], 0x1fa2_7cf8), 16);
    var b := Step(k, 3, b, c, d, a, k.add(m[2], 0xc4ac_5665), 23);
    Regs(a, b, c, d)
  }

  function Round4(k: WordOps, r: Regs, m: seq<bv32>): Regs
    requires |m| == 16
  {
    var Regs(a, b, c, d) := r;
    var a := Step(k, 4, a, b, c, d, k.add(m[0], 0xf429_2244), 6);
    var d := Step(k, 4, d, a, b, c, k.add(m[7], 0x432a_ff97), 10);
    var c := Step(k, 4, c, d, a, b, k.add(m[14], 0xab94_23a7), 15);
    var b := Step(k, 4, b, c, d, a, k.add(m[5], 0xfc93_a039), 21);
    var a := Step(k, 4, a, b, c, d, k.add(m[12], 0x655b_59c3), 6);
    var d := Step(k, 4, d, a, b, c, k.add(m[3], 0x8f0c_cc92), 10);
    var c := Step(k, 4, c, d, a, b, k.add(m[10], 0xffef_f47d), 15);
    var b := Step(k, 4, b, c, d, a, k.add(m[1], 0x8584_5dd1), 21);
    var a := Step(k, 4, a, b, c, d, k.add(m[8], 0x6fa8_7e4f), 6);
    var d := Step(k, 4, d, a, b, c, k.add(m[15], 0xfe2c_e6e0), 10);
    var c := Step(k, 4, c, d, a, b, k.add(m[6], 0xa301_4314), 15);
    var b := Step(k, 4, b, c, d, a, k.add(m[13], 0x4e08_11a1), 21);
    var a := Step(k, 4, a, b, c, d, k.add(m[4], 0xf753_7e82), 6);
    var d := Step(k, 4, d, a, b, c, k.add(m[11], 0xbd3a_f235), 10);
    var c := Step(k, 4, c, d, a, b, k.add(m[2], 0x2ad7_d2bb), 15);
    var b := Step(k, 4, b, c, d, a, k.add(m[9], 0xeb86_d391), 21);
    Regs(a, b, c, d)
  }

  /** All of MD5Transform: the four rounds, then the feed-forward additions. */
  function Transform(k: WordOps, r: Regs, m: seq<bv32>): Regs
    requires |m| == 16
  {
    var q := Round4(k, Round3(k, Round2(k, Round1(k, r, m), m), m), m);
    Regs(k.add(r.a, q.a), k.add(r.b, q.b), k.add(r.c, q.c), k.add(r.d, q.d))
  }

  ghost predicate Commutes(k: WordOps) {
    forall x, y :: k.add(x, y) == k.add(y, x)
  }

  /** An operation of the RFC is one macro expansion, up to the order of the last addition. */
  ghost predicate CodeShape(k: WordOps) {
    forall r, f, x, t, s ::
      Operation(k, r, f, x, t, s) == Regs(r.d, Step(k, f, r.a, r.b, r.c, r.d, k.add(x, t), s), r.b, r.c)
  }

  lemma CommutesHasCodeShape(k: WordOps)
    requires Commutes(k)
    ensures CodeShape(k)
  {
    forall r, f, x, t, s
      ensures Operation(k, r, f, x, t, s) == Regs(r.d, Step(k, f, r.a, r.b, r.c, r.d, k.add(x, t), s), r.b, r.c)
    {
      var turned := k.rotate(k.add(r.a, k.add(k.aux(f, r.b, r.c, r.d), k.add(x, t))), s);
      assert k.add(r.b, turned) == k.add(turned, r.b);
    }
  }

  /** Four steps with the register names rotating. */
  function Quad(k: WordOps, r: Regs, f: int, x: seq<bv32>, t: seq<bv32>, s: seq<int>, n: nat): Regs
    requires |x| == |t| == 16 && |s| == 4 && n <= 12
  {
    var a := Step(k, f, r.a, r.b, r.c, r.d, k.add(x[n], t[n]), s[0]);
    var d := Step(k, f, r.d, a, r.b, r.c, k.add(x[n + 1], t[n + 1]), s[1]);
    var c := Step(k, f, r.c, d, a, r.b, k.add(x[n + 2], t[n + 2]), s[2]);
    var b := Step(k, f, r.b, c, d, a, k.add(x[n + 3], t[n + 3]), s[3]);
    Regs(a, b, c, d)
  }

  lemma FourOperations(k: WordOps, r: Regs, f: int, x: seq<bv32>, t: seq<bv32>, s: seq<int>, n: nat)
    requires |x| == |t| == 16 && |s| == 4 && n <= 12 && n % 4 == 0 && CodeShape(k)
    ensures Operations(k, r, f, x, t, s, n + 4) == Quad(k, Operations(k, r, f, x, t, s, n), f, x, t, s, n)
  {
    var r0 := Operations(k, r, f, x, t, s, n);
    var r1 := Operation(k, r0, f, x[n], t[n], s[0]);
    assert Operations(k, r, f, x, t, s, n + 1) == r1;
    var r2 := Operation(k, r1, f, x[n + 1], t[n + 1], s[1]);
    assert Operations(k, r, f, x, t, s, n + 2) == r2;
    var r3 := Operation(k, r2, f, x[n + 2], t[n + 2], s[2]);
    assert Operations(k, r, f, x, t, s, n + 3) == r3;
    assert Operations(k, r, f, x, t, s, n + 4) == Operation(k, r3, f, x[n + 3], t[n + 3], s[3]);
  }

  function FourQuads(k: WordOps, r: Regs, f: int, x: seq<bv32>, t: seq<bv32>, s: seq<int>): Regs
    requires |x| == |t| == 16 && |s| == 4
  {
    Quad(k, Quad(k, Quad(k, Quad(k, r, f, x, t, s, 0), f, x, t, s, 4), f, x, t, s, 8), f, x, t, s, 12)
  }

  lemma SixteenOperations(k: WordOps, r: Regs, f: int, x: seq<bv32>, t: seq<bv32>, s: seq<int>)
    requires |x| == |t| == 16 && |s| == 4 && CodeShape(k)
    ensures Operations(k, r, f, x, t, s, 16) == FourQuads(k, r, f, x, t, s)
  {
    FourOperations(k, r, f, x, t, s, 0);
    FourOperations(k, r, f, x, t, s, 4);
    FourOperations(k, r, f, x, t, s, 8);
    FourOperations(k, r, f, x, t, s, 12);
  }

  lemma Round1IsQuads(k: WordOps, r: Regs, m: seq<bv32>)
    requires |m| == 16
    ensures Round1(k, r, m) == FourQuads(k, r, 1, Scheduled(1, m), Sines(1), Shifts(1))
  {
  }

  lemma Round2IsQuads(k: WordOps, r: Regs, m: seq<bv32>)
    requires |m| == 16
    ensures Round2(k, r, m) == FourQuads(k, r, 2, Scheduled(2, m), Sines(2), Shifts(2))
  {
  }

  lemma Round3IsQuads(k: WordOps, r: Regs, m: seq<bv32>)
    requires |m| == 16
    ensures Round3(k, r, m) == FourQuads(k, r, 3, Scheduled(3, m), Sines(3), Shifts(3))
  {
  }

  lemma Round4IsQuads(k: WordOps, r: Regs, m: seq<bv32>)
    requires |m| == 16
    ensures Round4(k, r, m) == FourQuads(k, r, 4, Scheduled(4, m), Sines(4), Shifts(4))
  {
  }

  lemma TransformIsCompress(k: WordOps, r: Regs, m: seq<bv32>)
    requires |m| == 16 && CodeShape(k)
    ensures Transform(k, r, m) == Compress(k, r, m)
  {
    Round1IsQuads(k, r, m);
    SixteenOperations(k, r, 1, Scheduled(1, m), Sines(1), Shifts(1));
    var r1 := Round1(k, r, m);
    Round2IsQuads(k, r1, m);
    SixteenOperations(k, r1, 2, Scheduled(2, m), Sines(2), Shifts(2));
    var r2 := Round2(k, r1, m);
    Round3IsQuads(k, r2, m);
    SixteenOperations(k, r2, 3, Scheduled(3, m), Sines(3), Shifts(3));
    var r3 := Round3(k, r2, m);
    Round4IsQuads(k, r3, m);
    SixteenOperations(k, r3, 4, Scheduled(4, m), Sines(4), Shifts(4));
  }

  /** Two sets of word operations compute the same functions. */
  ghost predicate Agree(k: WordOps, l: WordOps) {
    && (forall x, y :: k.add(x, y) == l.add(x, y))
    && (forall f, x, y, z :: k.aux(f, x, y, z) == l.aux(f, x, y, z))
    && (forall v, s :: k.rotate(v, s) == l.rotate(v, s))
  }

  lemma {:induction false} OperationsAgree(k: WordOps, l: WordOps, r: Regs,
                                           f: int, x: seq<bv32>, t: seq<bv32>, s: seq<int>, n: nat)
    requires |x| == |t| == 16 && |s| == 4 && n <= 16 && Agree(k, l)
    ensures Operations(k, r, f, x, t, s, n) == Operations(l, r, f, x, t, s, n)
  {
    if n > 0 { OperationsAgree(k, l, r, f, x, t, s, n - 1); }
  }

  lemma CompressAgrees(k: WordOps, l: WordOps, r: Regs, x: seq<bv32>)
    requires |x| == 16 && Agree(k, l)
    ensures Compress(k, r, x) == Compress(l, r, x)
  {
    OperationsAgree(k, l, r, 1, Scheduled(1, x), Sines(1), Shifts(1), 16);
    var r1 := Round(k, r, 1, x);
    OperationsAgree(k, l, r1, 2, Scheduled(2, x), Sines(2), Shifts(2), 16);
    var r2 := Round(k, r1, 2, x);
    OperationsAgree(k, l, r2, 3, Scheduled(3, x), Sines(3), Shifts(3), 16);
    var r3 := Round(k, r2, 3, x);
    OperationsAgree(k, l, r3, 4, Scheduled(4, x), Sines(4), Shifts(4), 16);
  }

  lemma SelectorIdentities(x: bv32, y: bv32, z: bv32)
    ensures z ^ (x & (y ^ z)) == (x & y) | (!x & z)
    ensures y ^ (z & (x ^ y)) == (x & z) | (y & !z)
  {
  }

  lemma F1IsF(x: bv32, y: bv32, z: bv32)
    ensures Mix(1, x, y, z) == Aux(1, x, y, z)
  {
    SelectorIdentities(x, y, z);
  }

  lemma F2IsG(x: bv32, y: bv32, z: bv32)
    ensures Mix(2, x, y, z) == Aux(2, x, y, z)
  {
    SelectorIdentities(x, y, z);
  }

  lemma F3F4AreHI(f: int, x: bv32, y: bv32, z: bv32)
    requires f != 1 && f != 2
    ensures Mix(f, x, y, z) == Aux(f, x, y, z)
  {
  }

  lemma MixIsAux(f: int, x: bv32, y: bv32, z: bv32)
    ensures Mix(f, x, y, z) == Aux(f, x, y, z)
  {
    if f == 1 {
      F1IsF(x, y, z);
    } else if f == 2 {
      F2IsG(x, y, z);
    } else {
      F3F4AreHI(f, x, y, z);
    }
  }

  lemma RolIsRotate(v: bv32, s: int)
    ensures Rol(v, s) == Rotate(v, s)
  {
  }

  lemma CodeAgrees()
    ensures Agree(CODE, OPS)
  {
    forall f, x, y, z ensures CODE.aux(f, x, y, z) == OPS.aux(f, x, y, z) { MixIsAux(f, x, y, z); }
    forall v, s ensures CODE.rotate(v, s) == OPS.rotate(v, s) { RolIsRotate(v, s); }
  }

  lemma CodeCommutes()
    ensures Commutes(CODE)
  {
    forall x, y ensures Add(x, y) == Add(y, x) {}
  }

  lemma TransformIsRfc(r: Regs, m: seq<bv32>)
    requires |m| == 16
    ensures Transform(CODE, r, m) == Compress(OPS, r, m)
  {
    CodeCommutes();
    CommutesHasCodeShape(CODE);
    TransformIsCompress(CODE, r, m);
    CodeAgrees();
    CompressAgrees(CODE, OPS, r, m);
  }
}

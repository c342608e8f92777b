/** MD5Sum and incremental use of the engine, tied to the digest of RFC 1321. */
module Md5Digest {
  import opened Rfc1321
  import opened Rfc1321Block
  import opened Md5Transform
  import opened Md5

  /** byteReverse and MD5Transform as the code computes them. */
  const CODE_BLOCK: BlockFunction := (r, block) => if |block| == 64 then Transform(CODE, r, Words(block)) else r

  lemma BlocksAgree(r: Regs, block: seq<bv8>)
    ensures CODE_BLOCK(r, block) == BLOCK(r, block)
  {
    if |block| == 64 { TransformIsRfc(r, Words(block)); }
  }

  lemma {:induction false} AbsorbAgrees(f: BlockFunction, g: BlockFunction, r: Regs, data: seq<bv8>)
    requires |data| % 64 == 0
    requires forall q, block :: f(q, block) == g(q, block)
    ensures Absorb(f, r, data) == Absorb(g, r, data)
  {
    if data != [] { AbsorbAgrees(f, g, r, data[..|data| - 64]); }
  }

  lemma CodeDigestIsRfc(m: seq<bv8>)
    ensures DigestWith(CODE_BLOCK, m) == Digest(m)
  {
    forall q, block ensures CODE_BLOCK(q, block) == BLOCK(q, block) { BlocksAgree(q, block); }
    AbsorbAgrees(CODE_BLOCK, BLOCK, INITIAL, Padded(m));
  }

  function Concat(pieces: seq<seq<bv8>>): seq<bv8> {
    if pieces == [] then [] else Concat(pieces[..|pieces| - 1]) + pieces[|pieces| - 1]
  }

  /** Any way of cutting a message into updates, empty and very long pieces included. */
  method DigestOfPieces(pieces: seq<seq<bv8>>) returns (digest: seq<bv8>)
    ensures digest == Digest(Concat(pieces))
  {
    var ctx := new Context(CODE_BLOCK);
    for i := 0 to |pieces|
      invariant ctx.Valid() && ctx.transform == CODE_BLOCK && fresh(ctx)
      invariant fresh(ctx.buf) && fresh(ctx.bits) && fresh(ctx.input)
      invariant ctx.message == Concat(pieces[..i])
    {
      assert pieces[..i + 1][..i] == pieces[..i];
      ctx.Update(pieces[i]);
    }
    assert pieces[..|pieces|] == pieces;
    CodeDigestIsRfc(ctx.message);
    digest := ctx.Final();
  }

  method Sum(data: seq<bv8>) returns (digest: seq<bv8>)
    ensures digest == Digest(data)
  {
    var ctx := new Context(CODE_BLOCK);
    ctx.Update(data);
    assert ctx.message == data;
    CodeDigestIsRfc(data);
    digest := ctx.Final();
  }
}

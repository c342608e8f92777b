/** Finding where one Pickle ends and the next begins in a stream of them. */
module PickleFraming {
  import opened PickleFormat
  import opened PickleReader
  import opened Pickle
  import opened Wrappers
  import Seqs

  /** PeekNext: the announced total size, clamped to the largest size_t, once the header is there. */
  function PeekNext(headerSize: nat, bytes: seq<byte>, sizeMax: nat): Option<nat> {
    if |bytes| < 4 || |bytes| < headerSize then None
    else Some(Min(headerSize + Announced(bytes), sizeMax))
  }

  /** FindNext: the offset of the next Pickle, once this one is complete. */
  function FindNext(headerSize: nat, bytes: seq<byte>, sizeMax: nat): Option<nat> {
    var size := PeekNext(headerSize, bytes, sizeMax);
    if size.None? || size.value > |bytes| then None else size
  }

  /** A next Pickle is found if and only if the bytes hold a header and the payload it announces, and it ends there. */
  lemma FindNextExactly(headerSize: nat, bytes: seq<byte>, sizeMax: nat, n: nat)
    requires headerSize >= 4 && |bytes| < sizeMax
    ensures
      FindNext(headerSize, bytes, sizeMax) == Some(n)
      <==> headerSize <= |bytes| && n == headerSize + FromLe(bytes[..4]) <= |bytes|
    ensures headerSize <= |bytes| && headerSize + FromLe(bytes[..4]) >= sizeMax ==>
              PeekNext(headerSize, bytes, sizeMax) == Some(sizeMax)
  {
  }

  ghost predicate IsFrame(f: seq<byte>, headerSize: nat) {
    exists extra, payload :: 4 + |extra| == headerSize && |payload| < TWO32 && f == Frame(extra, payload)
  }

  /** Takes complete Pickles off the front of a stream, as a receiver does. */
  function Split(headerSize: nat, bytes: seq<byte>, sizeMax: nat): (seq<seq<byte>>, seq<byte>)
    requires 4 <= headerSize <= sizeMax
    decreases |bytes|
  {
    var n := FindNext(headerSize, bytes, sizeMax);
    if n.None? then ([], bytes)
    else
      var rest := Split(headerSize, bytes[n.value..], sizeMax);
      ([bytes[..n.value]] + rest.0, rest.1)
  }

  /** Nothing is lost, and what is left over is not complete. */
  lemma {:induction false} SplitKeepsAll(headerSize: nat, bytes: seq<byte>, sizeMax: nat)
    requires 4 <= headerSize <= sizeMax
    ensures
      var r := Split(headerSize, bytes, sizeMax);
      Concat(r.0) + r.1 == bytes && FindNext(headerSize, r.1, sizeMax) == None
    decreases |bytes|
  {
    var n := FindNext(headerSize, bytes, sizeMax);
    if n.Some? {
      var f, more := bytes[..n.value], bytes[n.value..];
      var rest := Split(headerSize, more, sizeMax);
      SplitKeepsAll(headerSize, more, sizeMax);
      ConcatCons(f, rest.0);
      Seqs.Associates(f, Concat(rest.0), rest.1);
      Seqs.TakeAndDrop(bytes, n.value);
      assert Split(headerSize, bytes, sizeMax) == ([f] + rest.0, rest.1);
    } else {
      Seqs.Whole(bytes);
    }
  }

  lemma {:induction false} ConcatCons(f: seq<byte>, fs: seq<seq<byte>>)
    ensures Concat([f] + fs) == f + Concat(fs)
  {
    var s := [f] + fs;
    if fs == [] {
      assert s[..0] == [];
    } else {
      var n := |fs| - 1;
      ConcatCons(f, fs[..n]);
      assert s[..|s| - 1] == [f] + fs[..n];
    }
  }

  lemma FrameAnnounces(extra: seq<byte>, payload: seq<byte>, n: nat, bytes: seq<byte>)
    requires |payload| < TWO32 && 4 <= n <= |Frame(extra, payload)| && n <= |bytes|
    requires bytes[..n] == Frame(extra, payload)[..n]
    ensures Announced(bytes) == |payload|
  {
    assert bytes[..4] == bytes[..n][..4] == Frame(extra, payload)[..n][..4] == Le(|payload|, 4);
    Pow256Values();
    FromLeOfLe(|payload|, 4);
  }

  /** Of a Pickle that is still arriving, PeekNext knows the size as soon as the header is there; FindNext waits for
      all of it. */
  lemma PartialFrame(extra: seq<byte>, payload: seq<byte>, n: nat, sizeMax: nat)
    requires |payload| < TWO32 && n <= |Frame(extra, payload)| < sizeMax
    ensures
      var headerSize, f := 4 + |extra|, Frame(extra, payload);
      && PeekNext(headerSize, f[..n], sizeMax) == (if n < headerSize then None else Some(|f|))
      && FindNext(headerSize, f[..n], sizeMax) == (if n < |f| then None else Some(|f|))
  {
    var f := Frame(extra, payload);
    if n >= 4 + |extra| {
      assert f[..n][..n] == f[..n];
      FrameAnnounces(extra, payload, n, f[..n]);
    }
  }

  lemma FindsFrame(f: seq<byte>, headerSize: nat, rest: seq<byte>, sizeMax: nat)
    requires headerSize >= 4 && IsFrame(f, headerSize) && |f + rest| < sizeMax
    ensures FindNext(headerSize, f + rest, sizeMax) == Some(|f|)
  {
    var extra, payload :| 4 + |extra| == headerSize && |payload| < TWO32 && f == Frame(extra, payload);
    assert (f + rest)[..|f|] == f == f[..|f|];
    FrameAnnounces(extra, payload, |f|, f + rest);
  }

  lemma SplitStep(headerSize: nat, f: seq<byte>, more: seq<byte>, sizeMax: nat)
    requires 4 <= headerSize <= sizeMax && IsFrame(f, headerSize) && |f + more| < sizeMax
    ensures
      var r := Split(headerSize, more, sizeMax);
      Split(headerSize, f + more, sizeMax) == ([f] + r.0, r.1)
  {
    FindsFrame(f, headerSize, more, sizeMax);
    Seqs.TakeAppended(f, more);
  }

  /** Any Pickles with one header size, sent back to back, are split apart again, and an unfinished one is left over. */
  lemma {:induction false} SplitInvertsConcat(headerSize: nat, fs: seq<seq<byte>>, rest: seq<byte>, sizeMax: nat)
    requires 4 <= headerSize <= sizeMax && |Concat(fs) + rest| < sizeMax
    requires forall k | 0 <= k < |fs| :: IsFrame(fs[k], headerSize)
    requires FindNext(headerSize, rest, sizeMax) == None
    ensures Split(headerSize, Concat(fs) + rest, sizeMax) == (fs, rest)
  {
    if fs == [] {
      Seqs.Whole(rest);
    } else {
      var f, others := fs[0], fs[1..];
      Seqs.Cons(fs);
      ConcatCons(f, others);
      Seqs.Associates(f, Concat(others), rest);
      SplitInvertsConcat(headerSize, others, rest, sizeMax);
      SplitStep(headerSize, f, Concat(others) + rest, sizeMax);
    }
  }
}

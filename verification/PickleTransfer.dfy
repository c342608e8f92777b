/** Lists of values written to a Pickle, sent as bytes and read back from them. */
module PickleTransfer {
  import opened PickleFormat
  import opened PickleGrowth
  import opened PickleReader
  import opened Pickle
  import opened PickleFraming
  import opened Wrappers
  import Seqs

  ghost predicate AllTyped(vs: seq<Value>) { forall k | 0 <= k < |vs| :: Typed(vs[k]) }

  lemma EncodedStep(vs: seq<Value>, i: nat)
    requires i < |vs|
    ensures EncodedAll(vs[..i + 1]) == EncodedAll(vs[..i]) + Encoded(vs[i])
    ensures WritesAll(vs[..i + 1]) == WritesAll(vs[..i]) + Writes(vs[i])
  {
    Seqs.TakeSnoc(vs, i);
    assert Chunks(vs[..i + 1])[..i] == Chunks(vs[..i]);
  }

  lemma {:induction false} EncodedPrefix(vs: seq<Value>, i: nat)
    requires i <= |vs|
    ensures |EncodedAll(vs[..i])| <= |EncodedAll(vs)|
  {
    if i == |vs| {
      Seqs.Whole(vs);
    } else {
      var n := |vs| - 1;
      EncodedPrefix(vs[..n], i);
      assert vs[..n][..i] == vs[..i];
      EncodedStep(vs, n);
      Seqs.Whole(vs);
    }
  }

  /** Writes to a fresh Pickle: the payload is the encodings in order, and the memory has grown as the model of growth
      says, to less than twice the payload and a page. */
  method WriteAll(size: nat, vs: seq<Value>) returns (p: Buffer)
    requires 4 <= size <= PAYLOAD_UNIT && AllTyped(vs) && |EncodedAll(vs)| < TWO32
    ensures fresh(p) && p.Writable() && p.headerSize == size + PadLength(size)
    ensures p.payload == EncodedAll(vs) && p.writeOffset == |p.payload|
    ensures GrownTo(START, WritesAll(vs), p.capacity, p.writeOffset)
    ensures |p.payload| <= p.capacity < 2 * |p.payload| + HEAP_ALIGN
  {
    p := new Buffer(size);
    var i := 0;
    while i < |vs|
      invariant 0 <= i <= |vs|
      invariant fresh(p) && fresh(p.header) && p.Writable() && p.headerSize == size + PadLength(size)
      invariant p.payload == EncodedAll(vs[..i]) && p.writeOffset == |p.payload|
      invariant GrownTo(START, WritesAll(vs[..i]), p.capacity, p.writeOffset)
    {
      EncodedStep(vs, i);
      EncodedPrefix(vs, i + 1);
      ghost var capacity, offset := p.capacity, p.writeOffset;
      p.Write(vs[i]);
      MoreWrites(START, WritesAll(vs[..i]), capacity, offset, Writes(vs[i]), p.capacity, p.writeOffset);
      i := i + 1;
    }
    Seqs.Whole(vs);
    OnlyWrites(vs);
    GrowthIsAmortized(WritesAll(vs));
  }

  lemma {:induction false} FailureSticks(c: Cursor, ts: seq<Type>, i: nat)
    requires i <= |ts| && ReadAll(c, ts[..i]).value.None?
    ensures ReadAll(c, ts) == ReadAll(c, ts[..i])
  {
    if i == |ts| {
      Seqs.Whole(ts);
    } else {
      var n := |ts| - 1;
      assert ts[..n][..i] == ts[..i];
      FailureSticks(c, ts[..n], i);
    }
  }

  lemma ReadStep(c: Cursor, ts: seq<Type>, i: nat)
    requires i < |ts| && ReadAll(c, ts[..i]).value.Some?
    ensures
      var o := ReadAll(c, ts[..i]);
      var next := Read(o.after, ts[i]);
      ReadAll(c, ts[..i + 1])
      == Outcome(if next.value.None? then None else Some(o.value.value + [next.value.value]), next.after)
  {
    Seqs.TakeSnoc(ts, i);
  }

  /** Reads one type after the other until a read fails. */
  method ReadTypes(it: Iterator, ts: seq<Type>) returns (vs: Option<seq<Value>>)
    requires it.Valid()
    modifies it
    ensures it.Valid() && Outcome(vs, it.Here()) == ReadAll(old(it.Here()), ts)
  {
    ghost var start := it.Here();
    var done: seq<Value> := [];
    var i := 0;
    while i < |ts|
      invariant 0 <= i <= |ts| && it.Valid()
      invariant Outcome(Some(done), it.Here()) == ReadAll(start, ts[..i])
    {
      ReadStep(start, ts, i);
      var v := it.Next(ts[i]);
      i := i + 1;
      if v.None? {
        FailureSticks(start, ts, i);
        return None;
      }
      done := done + [v.value];
    }
    Seqs.Whole(ts);
    vs := Some(done);
  }

  lemma FrameIsAcceptable(extra: seq<byte>, payload: seq<byte>)
    requires (4 + |extra|) % 4 == 0 && |payload| < TWO32
    ensures var f := Frame(extra, payload); Acceptable(f) && Announced(f) == |payload| && f[4 + |extra|..] == payload
  {
    var f := Frame(extra, payload);
    FrameAnnounces(extra, payload, |f|, f);
  }

  /** A receiver of the bytes gets the payload that was sent. */
  method Receive(p: Buffer) returns (view: Buffer)
    requires p.Readable() && p.headerSize + |p.payload| < TWO31
    ensures fresh(view) && view.Readable() && view.payload == p.payload
  {
    var bytes := p.Data();
    FrameIsAcceptable(p.extra, p.payload);
    var data := new byte[|bytes|](i requires 0 <= i < |bytes| => bytes[i]);
    assert data[..] == bytes;
    view := new Buffer.View(data);
  }

  /** Any typed values, written to a Pickle, sent and read with their types, come back; then nothing is left. */
  method Transfer(size: nat, vs: seq<Value>) returns (back: Option<seq<Value>>, left: nat)
    requires 4 <= size <= PAYLOAD_UNIT && AllTyped(vs) && size + PadLength(size) + |EncodedAll(vs)| < TWO31
    ensures back == Some(vs) && left == 0
  {
    var sent := WriteAll(size, vs);
    var view := Receive(sent);
    var it := new Iterator(view);
    RoundTrip(vs);
    back := ReadTypes(it, Types(vs));
    left := |it.payload| - it.readIndex;
  }
}

/** The vector of observers behind ObserverList: slots are nulled while iterators are live, erased otherwise,
    and compacted when the last iterator goes. */
module ObserverSlots {
  import Seqs

  /** An entry of observers_: a pointer or nullptr. */
  datatype Slot = Null | Held(observer: nat)

  /** max_index_: the largest size_t, which no vector reaches, or the size at the start of the iteration. */
  datatype Limit = NoLimit | At(size: nat)

  function Clamp(limit: Limit, size: nat): nat {
    if limit.At? && limit.size < size then limit.size else size
  }

  function AddSlot(slots: seq<Slot>, o: nat): seq<Slot> {
    if Held(o) in slots then slots else slots + [Held(o)]
  }

  /** The first position of a value, or the length. */
  function Find(slots: seq<Slot>, x: Slot): (i: nat)
    ensures i <= |slots|
    ensures i < |slots| <==> x in slots
    ensures i < |slots| ==> slots[i] == x
    ensures x !in slots[..i]
  {
    if slots == [] || slots[0] == x then 0
    else
      var i := 1 + Find(slots[1..], x);
      assert slots == [slots[0]] + slots[1..];
      assert slots[..i] == [slots[0]] + slots[1..][..i - 1];
      i
  }

  function RemoveSlot(slots: seq<Slot>, live: int, o: nat): seq<Slot> {
    var i := Find(slots, Held(o));
    if i == |slots| then slots
    else if live != 0 then slots[i := Null]
    else slots[..i] + slots[i + 1..]
  }

  function ClearSlots(slots: seq<Slot>, live: int): seq<Slot> {
    if live != 0 then seq(|slots|, i => Null) else []
  }

  function Compacted(slots: seq<Slot>): (r: seq<Slot>)
    ensures Null !in r
  {
    if slots == [] then []
    else
      var init, last := Compacted(slots[..|slots| - 1]), slots[|slots| - 1];
      if last == Null then init else init + [last]
  }

  /** EnsureValidIndex: the first position from `from` on that is occupied or not below `max`. */
  function Skip(slots: seq<Slot>, from: nat, max: nat): (i: nat)
    requires max <= |slots|
    ensures from <= i && (i < max ==> slots[i] != Null) && (from <= max ==> i <= max)
    ensures forall k | from <= k < i :: k < max && slots[k] == Null
    decreases max - from
  {
    if from < max && slots[from] == Null then Skip(slots, from + 1, max) else from
  }

  // ----- The observers a list holds, as a plain sequence -----

  function Contents(slots: seq<Slot>): seq<nat> {
    if slots == [] then []
    else
      var init, last := Contents(slots[..|slots| - 1]), slots[|slots| - 1];
      if last == Null then init else init + [last.observer]
  }

  function Without(c: seq<nat>, o: nat): seq<nat> {
    if c == [] then []
    else
      var init, last := Without(c[..|c| - 1], o), c[|c| - 1];
      if last == o then init else init + [last]
  }

  ghost predicate Increasing(s: seq<nat>) { forall i, j | 0 <= i < j < |s| :: s[i] < s[j] }

  /** Slots may be appended and nulled, but not erased, moved or given to another observer. */
  ghost predicate Weathered(slots: seq<Slot>, slots': seq<Slot>) {
    |slots| <= |slots'| && forall k | 0 <= k < |slots| :: slots'[k] == slots[k] || slots'[k] == Null
  }

  lemma WeatheredThrough(a: seq<Slot>, b: seq<Slot>, c: seq<Slot>)
    requires Weathered(a, b) && Weathered(b, c)
    ensures Weathered(a, c)
  {
  }

  /** Each observer sits in one slot. */
  ghost predicate Distinct(slots: seq<Slot>) {
    forall i, j | 0 <= i < j < |slots| && slots[i] != Null :: slots[i] != slots[j]
  }

  lemma {:induction false} ContentsMembers(slots: seq<Slot>, o: nat)
    ensures o in Contents(slots) <==> Held(o) in slots
  {
    if slots != [] {
      ContentsMembers(slots[..|slots| - 1], o);
      assert slots == slots[..|slots| - 1] + [slots[|slots| - 1]];
    }
  }

  lemma {:induction false} ContentsConcat(a: seq<Slot>, b: seq<Slot>)
    ensures Contents(a + b) == Contents(a) + Contents(b)
  {
    if b == [] {
      assert a + b == a;
    } else {
      var n := |b| - 1;
      assert (a + b)[..|a + b| - 1] == a + b[..n];
      ContentsConcat(a, b[..n]);
    }
  }

  lemma {:induction false} WithoutConcat(a: seq<nat>, b: seq<nat>, o: nat)
    ensures Without(a + b, o) == Without(a, o) + Without(b, o)
  {
    if b == [] {
      assert a + b == a;
    } else {
      var n := |b| - 1;
      assert (a + b)[..|a + b| - 1] == a + b[..n];
      WithoutConcat(a, b[..n], o);
    }
  }

  lemma {:induction false} WithoutAbsent(c: seq<nat>, o: nat)
    requires o !in c
    ensures Without(c, o) == c
  {
    if c != [] {
      assert c == c[..|c| - 1] + [c[|c| - 1]];
      WithoutAbsent(c[..|c| - 1], o);
    }
  }

  lemma {:induction false} CompactedContents(slots: seq<Slot>)
    ensures Contents(Compacted(slots)) == Contents(slots)
    ensures Distinct(slots) ==> Distinct(Compacted(slots))
    ensures forall x | x in Compacted(slots) :: x in slots
  {
    if slots != [] {
      var init, last := slots[..|slots| - 1], slots[|slots| - 1];
      CompactedContents(init);
      ContentsConcat(Compacted(init), [last]);
      assert slots == init + [last];
      if Distinct(slots) { assert last == Null || last !in init; }
    }
  }

  lemma AddContents(slots: seq<Slot>, o: nat)
    requires Distinct(slots)
    ensures Contents(AddSlot(slots, o)) == if o in Contents(slots) then Contents(slots) else Contents(slots) + [o]
    ensures Distinct(AddSlot(slots, o))
  {
    ContentsMembers(slots, o);
    ContentsConcat(slots, [Held(o)]);
    assert [Held(o)][..0] == [];
  }

  lemma AroundSlot(before: seq<Slot>, x: Slot, after: seq<Slot>)
    ensures Contents(before + [x] + after)
         == Contents(before) + (if x == Null then [] else [x.observer]) + Contents(after)
  {
    ContentsConcat(before + [x], after);
    ContentsConcat(before, [x]);
    assert [x][..0] == [];
  }

  lemma WithoutOne(a: seq<nat>, o: nat, b: seq<nat>)
    requires o !in a && o !in b
    ensures Without(a + [o] + b, o) == a + b
  {
    WithoutAbsent(a, o);
    WithoutAbsent(b, o);
    WithoutConcat(a + [o], b, o);
    WithoutConcat(a, [o], o);
    assert [o][..0] == [];
  }

  lemma SplitAt(slots: seq<Slot>, live: int, o: nat) returns (before: seq<Slot>, after: seq<Slot>)
    requires Distinct(slots) && Held(o) in slots
    ensures slots == before + [Held(o)] + after && Held(o) !in before && Held(o) !in after
    ensures RemoveSlot(slots, live, o) == if live != 0 then before + [Null] + after else before + after
  {
    var i := Find(slots, Held(o));
    before, after := slots[..i], slots[i + 1..];
    Seqs.Middle(slots, i);
    Seqs.Updated(slots, i, Null);
    NotBehind(slots, i);
  }

  lemma NotBehind(slots: seq<Slot>, i: nat)
    requires Distinct(slots) && i < |slots| && slots[i].Held?
    ensures slots[i] !in slots[i + 1..]
  {
    var after := slots[i + 1..];
    forall j | 0 <= j < |after| ensures after[j] != slots[i] { assert after[j] == slots[i + 1 + j]; }
  }

  lemma NulledOrErased(before: seq<Slot>, o: nat, after: seq<Slot>)
    requires Held(o) !in before && Held(o) !in after
    ensures Contents(before + [Null] + after) == Without(Contents(before + [Held(o)] + after), o)
    ensures Contents(before + after) == Without(Contents(before + [Held(o)] + after), o)
  {
    ContentsMembers(before, o);
    ContentsMembers(after, o);
    AroundSlot(before, Held(o), after);
    AroundSlot(before, Null, after);
    ContentsConcat(before, after);
    WithoutOne(Contents(before), o, Contents(after));
    assert Contents(before) + [] + Contents(after) == Contents(before) + Contents(after);
  }

  /** Nulling a slot and erasing it leave the same observers in the same order. */
  lemma RemoveContents(slots: seq<Slot>, live: int, o: nat)
    requires Distinct(slots)
    ensures Contents(RemoveSlot(slots, live, o)) == Without(Contents(slots), o)
  {
    if Held(o) in slots {
      var before, after := SplitAt(slots, live, o);
      NulledOrErased(before, o, after);
    } else {
      ContentsMembers(slots, o);
      WithoutAbsent(Contents(slots), o);
    }
  }

  lemma RemoveDistinct(slots: seq<Slot>, live: int, o: nat)
    requires Distinct(slots)
    ensures Distinct(RemoveSlot(slots, live, o))
  {
  }

  lemma {:induction false} ClearContents(slots: seq<Slot>, live: int)
    ensures Contents(ClearSlots(slots, live)) == [] && Distinct(ClearSlots(slots, live))
  {
    if live != 0 && slots != [] {
      ClearContents(slots[..|slots| - 1], live);
      assert ClearSlots(slots, live)[..|slots| - 1] == ClearSlots(slots[..|slots| - 1], live);
    }
  }
}

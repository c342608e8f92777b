/** ObserverList and Iter as the code writes them: a vector and a counter updated in place, and iterators
    that move over the vector with loops. Each method computes the function that the run model uses. */
module ObserverListCode {
  import opened ObserverPolicy
  import opened ObserverSlots
  import Model = ObserverList

  class List {
    var observers: seq<Slot>
    var liveIteratorCount: int
    const policy: Policy

    constructor (policy: Policy)
      ensures observers == [] && liveIteratorCount == 0 && this.policy == policy
    {
      observers, liveIteratorCount, this.policy := [], 0, policy;
    }

    /** std::find. */
    method IndexOf(o: nat) returns (i: nat)
      ensures i == Find(observers, Held(o))
    {
      i := 0;
      while i < |observers| && observers[i] != Held(o)
        invariant i <= |observers|
        invariant Find(observers, Held(o)) == i + Find(observers[i..], Held(o))
      {
        i := i + 1;
      }
    }

    method AddObserver(o: nat)
      modifies this
      ensures observers == AddSlot(old(observers), o) && liveIteratorCount == old(liveIteratorCount)
    {
      var i := IndexOf(o);
      if i < |observers| { return; }
      observers := observers + [Held(o)];
    }

    method RemoveObserver(o: nat)
      modifies this
      ensures observers == RemoveSlot(old(observers), old(liveIteratorCount), o)
      ensures liveIteratorCount == old(liveIteratorCount)
    {
      var i := IndexOf(o);
      if i == |observers| { return; }
      if liveIteratorCount != 0 {
        observers := observers[i := Null];
      } else {
        observers := observers[..i] + observers[i + 1..];
      }
    }

    method Clear()
      modifies this
      ensures observers == ClearSlots(old(observers), old(liveIteratorCount))
      ensures liveIteratorCount == old(liveIteratorCount)
    {
      if liveIteratorCount == 0 {
        observers := [];
        return;
      }
      var i := 0;
      while i < |observers|
        invariant i <= |observers| == |old(observers)| && liveIteratorCount == old(liveIteratorCount)
        invariant forall k | 0 <= k < i :: observers[k] == Null
      {
        observers, i := observers[i := Null], i + 1;
      }
    }

    /** std::remove moves the non-null slots forward, then the rest is erased. */
    method Compact()
      modifies this
      ensures observers == Compacted(old(observers)) && liveIteratorCount == old(liveIteratorCount)
    {
      var out, i := 0, 0;
      ghost var was := observers;
      while i < |observers|
        invariant out <= i <= |observers| == |was| && liveIteratorCount == old(liveIteratorCount)
        invariant observers[i..] == was[i..]
        invariant observers[..out] == Compacted(was[..i])
      {
        assert was[..i + 1][..i] == was[..i];
        var x := observers[i];
        i := i + 1;
        if x != Null {
          observers := observers[out := x];
          out := out + 1;
        }
      }
      assert was[..i] == was;
      observers := observers[..out];
    }
  }

  class Iter {
    var list: List?
    var index: nat
    var limit: Limit

    /** The loop that passes over null slots. */
    method EnsureValidIndex()
      requires list != null
      modifies this`index
      ensures index == Skip(list.observers, old(index), Clamp(limit, |list.observers|))
    {
      var max := Clamp(limit, |list.observers|);
      while index < max && list.observers[index] == Null
        invariant old(index) <= index
        invariant Skip(list.observers, old(index), max) == Skip(list.observers, index, max)
      {
        index := index + 1;
      }
    }

    /** begin(): an iterator over a non-empty list counts itself, one over an empty list is end(). */
    constructor Begin(l: List)
      modifies l`liveIteratorCount
      ensures var c := Model.Fresh(l.policy, l.observers);
              && (list == if c.attached then l else null) && index == c.index && limit == c.limit
              && l.liveIteratorCount == old(l.liveIteratorCount) + Model.Count(c)
    {
      list, index, limit := null, 0, At(0);
      new;
      if l.observers != [] {
        list, limit := l, if l.policy.All? then NoLimit else At(|l.observers|);
        EnsureValidIndex();
        l.liveIteratorCount := l.liveIteratorCount + 1;
      }
    }

    constructor Copy(other: Iter)
      modifies if other.list != null then {other.list} else {}
      ensures list == other.list && index == other.index && limit == other.limit
      ensures other.list != null ==>
                && other.list.observers == old(other.list.observers)
                && other.list.liveIteratorCount == old(other.list.liveIteratorCount) + 1
    {
      list, index, limit := other.list, other.index, other.limit;
      new;
      if list != null { list.liveIteratorCount := list.liveIteratorCount + 1; }
    }

    /** operator++. */
    method Increment()
      modifies this`index
      ensures list == null ==> index == old(index)
      ensures list != null ==> index == Skip(list.observers, old(index) + 1, Clamp(limit, |list.observers|))
    {
      if list != null {
        index := index + 1;
        EnsureValidIndex();
      }
    }

    method IsEnd() returns (b: bool)
      ensures b <==> list == null || index == Clamp(limit, |list.observers|)
    {
      b := list == null || index == Clamp(limit, |list.observers|);
    }

    /** ~Iter. */
    method Destroy()
      modifies if list != null then {list} else {}
      ensures list != null ==>
                && list.liveIteratorCount == old(list.liveIteratorCount) - 1
                && list.observers
                   == if old(list.liveIteratorCount) == 1 then Compacted(old(list.observers)) else old(list.observers)
    {
      if list == null { return; }
      list.liveIteratorCount := list.liveIteratorCount - 1;
      if list.liveIteratorCount == 0 { list.Compact(); }
    }

    /** operator=: the by-value parameter is a copy that the swap fills with the old value and that dies. */
    method Assign(source: Iter)
      modifies this, if list != null then {list} else {}, if source.list != null then {source.list} else {}
      ensures list == old(source.list) && index == old(source.index) && limit == old(source.limit)
      ensures old(list) != null ==>
                var kept := if old(source.list) == old(list) then 1 else 0;
                var was := old(list.observers);
                && old(list).liveIteratorCount == old(list.liveIteratorCount) + kept - 1
                && old(list).observers == if old(list.liveIteratorCount) + kept == 1 then Compacted(was) else was
      ensures old(source.list) != null && old(source.list) != old(list) ==>
                && old(source.list).liveIteratorCount == old(source.list.liveIteratorCount) + 1
                && old(source.list).observers == old(source.list.observers)
    {
      var other := new Iter.Copy(source);
      list, other.list := other.list, list;
      index, other.index := other.index, index;
      limit, other.limit := other.limit, limit;
      other.Destroy();
    }
  }
}

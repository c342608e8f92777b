/** ObserverListThreadSafe's methods as they update its map, the posted tasks and the thread-local pointer. */
module ThreadSafeObserversCode {
  import opened ObserverPolicy
  import opened ThreadSafeObservers

  class SafeList {
    const policy: Policy
    var observers: map<Observer, Sequence>
    /** Tasks posted to the sequences and not yet run. */
    var pending: multiset<Task>
    /** Per thread, the value of tls_current_notification_ and the saved ones below it. */
    var current: map<Thread, seq<Frame>>
    var notes: nat
    /** The protocol's state, of which the fields above are the part the code holds. */
    ghost var state: State

    ghost predicate Valid()
      reads this
    {
      && observers == state.observers
      && pending == state.pending
      && current == state.dispatching
      && notes == |state.log.snapshots|
    }

    constructor (policy: Policy)
      ensures Valid() && state == START && this.policy == policy
    {
      this.policy := policy;
      observers, pending, current, notes := map[], multiset{}, map[], 0;
      state := START;
    }

    method Frames(th: Thread) returns (frames: seq<Frame>)
      requires Valid()
      ensures frames == Stack(state, th)
    {
      frames := if th in current then current[th] else [];
    }

    /** Under policy ALL, the notification being dispatched on the thread is posted to the new observer too. */
    method PostCurrent(o: Observer, q: Sequence, th: Thread)
      requires Valid()
      modifies this`pending
      ensures pending == AddTo(state, policy, o, q, th).pending
    {
      var frames := Frames(th);
      if policy == All && frames != [] && frames[|frames| - 1].Own? {
        pending := pending + multiset{Task(o, frames[|frames| - 1].note, q)};
      }
    }

    /** Called on sequence `q`, run by thread `th`, which is therefore not inside NotifyWrapper. */
    method AddObserver(o: Observer, q: Sequence, th: Thread)
      requires Valid() && o !in observers && th !in state.entering
      modifies this
      ensures Valid() && state == Next(old(state), policy, Add(o, q, th))
    {
      AddKeepsRest(state, policy, o, q, th);
      PostCurrent(o, q, th);
      observers := observers[o := q];
      state := Next(state, policy, Add(o, q, th));
    }

    method RemoveObserver(o: Observer)
      requires Valid()
      modifies this
      ensures Valid() && state == Next(old(state), policy, Remove(o))
    {
      state := Next(state, policy, Remove(o));
      observers := observers - {o};
    }

    /** The loop of Notify: posts one task for each observer. */
    method PostToAll()
      modifies this`pending
      ensures pending == old(pending) + multiset(Posts(observers, observers.Keys, notes))
    {
      var left := observers.Keys;
      ghost var sent := {};
      while left != {}
        invariant sent + left == observers.Keys && sent !! left
        invariant pending == old(pending) + multiset(Posts(observers, sent, notes))
        decreases |left|
      {
        var o :| o in left;
        PostOne(observers, sent, o, notes);
        MoveOne(observers.Keys, sent, left, o);
        pending := pending + multiset{Task(o, notes, observers[o])};
        sent, left := sent + {o}, left - {o};
      }
      assert sent == observers.Keys;
    }

    method Notify()
      requires Valid()
      modifies this
      ensures Valid() && state == Next(old(state), policy, Step.Notify)
    {
      PostToAll();
      assert Posts(observers, observers.Keys, notes) == PostsOf(state);
      state := Next(state, policy, Step.Notify);
      notes := notes + 1;
    }

    /** The critical section of NotifyWrapper: whether the observer still needs the notification. */
    method StillObserving(t: Task, th: Thread) returns (found: bool)
      requires Valid() && t in pending && th !in state.entering
      modifies this
      ensures Valid() && state == Next(old(state), policy, Check(t, th))
      ensures found == (th in state.entering) && (!found ==> t in state.dropped)
    {
      pending := pending - multiset{t};
      found := t.observer in observers;
      state := Next(state, policy, Check(t, th));
    }

    /** The rest of NotifyWrapper up to the callback: the thread-local points at this notification. */
    method Enter(t: Task, th: Thread)
      requires Valid() && th in state.entering && state.entering[th] == t && t in state.checked
      modifies this
      ensures Valid() && state == Next(old(state), policy, Invoke(th))
    {
      var frames := Frames(th);
      current := current[th := frames + [Own(t.note)]];
      state := Next(state, policy, Invoke(th));
    }

    /** After the callback: the thread-local gets its previous value back. */
    method Restore(th: Thread)
      requires Valid() && Stack(state, th) != [] && th !in state.entering
      modifies this
      ensures Valid() && state == Next(old(state), policy, Leave(th))
    {
      var frames := Frames(th);
      current := current[th := frames[..|frames| - 1]];
      state := Next(state, policy, Leave(th));
    }
  }

  ghost function Posts(observers: map<Observer, Sequence>, keys: set<Observer>, note: Note): set<Task>
    requires keys <= observers.Keys
  {
    set o | o in keys :: Task(o, note, observers[o])
  }

  lemma MoveOne(keys: set<Observer>, sent: set<Observer>, left: set<Observer>, o: Observer)
    requires sent + left == keys && sent !! left && o in left
    ensures (sent + {o}) + (left - {o}) == keys && (sent + {o}) !! (left - {o}) && |left - {o}| < |left|
  {
  }

  lemma PostOne(observers: map<Observer, Sequence>, keys: set<Observer>, o: Observer, note: Note)
    requires keys <= observers.Keys && o in observers && o !in keys
    ensures multiset(Posts(observers, keys + {o}, note))
         == multiset(Posts(observers, keys, note)) + multiset{Task(o, note, observers[o])}
  {
    var t := Task(o, note, observers[o]);
    assert Posts(observers, keys + {o}, note) == Posts(observers, keys, note) + {t};
    assert t !in Posts(observers, keys, note);
  }

  lemma AddKeepsRest(s: State, policy: Policy, o: Observer, q: Sequence, th: Thread)
    requires o !in s.observers && th !in s.entering
    ensures
      var s' := Next(s, policy, Add(o, q, th));
      && s' == AddTo(s, policy, o, q, th)
      && s'.observers == s.observers[o := q] && s'.dispatching == s.dispatching && s'.log.snapshots == s.log.snapshots
  {
  }
}

/** ObserverListThreadSafe for observers that stay, and for programs that add no observer twice. */
module ThreadSafeDelivery {
  import opened ObserverPolicy
  import Seqs
  import opened ThreadSafeObservers
  import opened ThreadSafeRejoining

  // ----- An observer that is never taken out -----

  /** None of the observer's tasks repeats another's news. */
  ghost predicate OnceFor(posted: multiset<Task>, o: Observer) {
    && (forall t: Task | t.observer == o :: posted[t] <= 1)
    && (forall t, u | t in posted && u in posted && SameNews(t, u) && t.observer == o :: t == u)
  }

  ghost predicate NoneFor(posted: multiset<Task>, o: Observer) { forall t | t in posted :: t.observer != o }

  /** Until it is registered nothing is posted to the observer, and then nothing twice. */
  ghost predicate Staying(s: State, o: Observer) {
    o !in s.removed ==> OnceFor(s.log.posted, o) && (o !in s.observers ==> NoneFor(s.log.posted, o))
  }

  lemma MoreOnceFor(posted: multiset<Task>, posts: multiset<Task>, o: Observer)
    requires OnceFor(posted, o) && OnceFor(posts, o)
    requires forall t, u | t in posted && u in posts && t.observer == o :: !SameNews(t, u)
    ensures OnceFor(posted + posts, o)
  {
    forall t: Task | t.observer == o ensures (posted + posts)[t] <= 1 {
      assert t in posted && t in posts ==> !SameNews(t, t);
    }
  }

  lemma AddKeepsStaying(s: State, policy: Policy, o: Observer, q: Sequence, th: Thread, p: Observer)
    requires Staying(s, p) && o !in s.observers
    ensures Staying(AddTo(s, policy, o, q, th), p)
  {
    if p !in s.removed && policy.All? { MoreOnceFor(s.log.posted, Joining(s, o, q, th), p); }
  }

  lemma NotifyKeepsStaying(s: State, policy: Policy, p: Observer)
    requires Staying(s, p) && Numbered(s)
    ensures Staying(Next(s, policy, Notify), p)
  {
    if p !in s.removed { MoreOnceFor(s.log.posted, multiset(PostsOf(s)), p); }
  }

  lemma StepKeepsStaying(s: State, policy: Policy, step: Step, p: Observer)
    requires Staying(s, p) && Numbered(s)
    ensures Staying(Next(s, policy, step), p)
  {
    match step
    case Add(o, q, th) =>
      if o !in s.observers && th !in s.entering { AddKeepsStaying(s, policy, o, q, th, p); }
    case Notify => NotifyKeepsStaying(s, policy, p);
    case _ =>
      QuietStep(s, policy, step);
  }

  lemma {:induction false} RunKeepsStaying(policy: Policy, script: seq<Step>, o: Observer)
    ensures Staying(Run(policy, script), o)
  {
    if script != [] {
      var n := |script| - 1;
      RunKeepsStaying(policy, script[..n], o);
      RunKeepsNumbered(policy, script[..n]);
      StepKeepsStaying(Run(policy, script[..n]), policy, script[n], o);
    }
  }

  /** Whatever other observers do, one that is never taken out hears no notification twice, on any sequence. */
  lemma StayingHearsOnce(policy: Policy, script: seq<Step>, o: Observer)
    requires o !in Run(policy, script).removed
    ensures OnceFor(Run(policy, script).started, o)
  {
    RunKeepsStaying(policy, script, o);
    StartedWasPosted(policy, script);
    var s := Run(policy, script);
    forall t: Task | t.observer == o ensures s.started[t] <= 1 { assert s.started[t] <= s.log.posted[t]; }
  }

  /** The observer was registered on that sequence at that Notify, or under policy ALL was added there inside it. */
  predicate Meant(log: Log, policy: Policy, t: Task) {
    || (t.note < |log.snapshots| && t.observer in log.snapshots[t.note] && log.snapshots[t.note][t.observer] == t.home)
    || (policy.All? && t in log.joined)
  }

  /**
   * Once everything has run, in any interleaving, an observer that was never taken out has heard each notification
   * meant for it exactly once, on the sequence it was meant for, and nothing else.
   */
  lemma DeliveredExactlyOnce(policy: Policy, script: seq<Step>, t: Task)
    requires Drained(Run(policy, script)) && t.observer !in Run(policy, script).removed
    ensures var s := Run(policy, script); s.started[t] == if Meant(s.log, policy, t) then 1 else 0
    ensures
      var s := Run(policy, script);
      Meant(s.log, policy, t) ==> forall u | u in s.started && SameNews(t, u) :: u == t
  {
    DrainedMeansDelivered(policy, script, t);
    StayingHearsOnce(policy, script, t.observer);
    var s := Run(policy, script);
    assert s.started[t] <= 1;
  }

  // ----- Programs that add no observer twice -----

  predicate Adds(step: Step, o: Observer) { step.Add? && step.observer == o }

  ghost predicate NeverAdds(script: seq<Step>, o: Observer) { forall i | 0 <= i < |script| :: !Adds(script[i], o) }

  /** No two steps add the same observer. */
  ghost predicate AddsOnce(script: seq<Step>) {
    forall i, j | 0 <= i < j < |script| && script[i].Add? :: !Adds(script[j], script[i].observer)
  }

  ghost predicate Stranger(s: State, o: Observer) { o !in s.observers && NoneFor(s.log.posted, o) }

  lemma StaysStranger(s: State, policy: Policy, step: Step, o: Observer)
    requires Stranger(s, o) && !Adds(step, o)
    ensures Stranger(Next(s, policy, step), o)
  {
    if !step.Add? && !step.Notify? { QuietStep(s, policy, step); }
  }

  lemma {:induction false} NeverAddedIsStranger(policy: Policy, script: seq<Step>, o: Observer)
    requires NeverAdds(script, o)
    ensures Stranger(Run(policy, script), o)
  {
    if script != [] {
      var n := |script| - 1;
      NeverAddedIsStranger(policy, script[..n], o);
      StaysStranger(Run(policy, script[..n]), policy, script[n], o);
    }
  }

  lemma FirstAdd(script: seq<Step>)
    requires script != [] && AddsOnce(script)
    ensures AddsOnce(script[..|script| - 1])
    ensures script[|script| - 1].Add? ==> NeverAdds(script[..|script| - 1], script[|script| - 1].observer)
  {
  }

  /** Whoever is added for the first time has nothing waiting. */
  lemma FirstAddFindsNothing(policy: Policy, script: seq<Step>, o: Observer)
    requires NeverAdds(script, o)
    ensures var s := Run(policy, script); NoneFor(s.log.posted, o) && !Waiting(s, o)
  {
    NeverAddedIsStranger(policy, script, o);
    StartedWasPosted(policy, script);
  }

  lemma {:induction false} AddsOnceIsSafe(policy: Policy, script: seq<Step>)
    requires AddsOnce(script)
    ensures NeverRepeats(policy, script) && NeverDisplaces(policy, script)
  {
    if script != [] {
      var n := |script| - 1;
      FirstAdd(script);
      AddsOnceIsSafe(policy, script[..n]);
      if script[n].Add? { FirstAddFindsNothing(policy, script[..n], script[n].observer); }
    }
  }

  lemma {:induction false} AddsOnceNeverRevives(policy: Policy, script: seq<Step>, more: seq<Step>, o: Observer)
    requires AddsOnce(script + more)
    ensures NeverRevives(policy, script, more, o)
  {
    if more != [] {
      var n := |more| - 1;
      Seqs.Snoc(more);
      Seqs.Associates(script, more[..n], [more[n]]);
      Seqs.TakeAppended(script + more[..n], [more[n]]);
      FirstAdd(script + more);
      AddsOnceNeverRevives(policy, script, more[..n], o);
      if Adds(more[n], o) { FirstAddFindsNothing(policy, script + more[..n], o); }
    }
  }

  /**
   * If no two steps add the same observer, then in any interleaving every observer hears every notification at most
   * once, the sequence assertion holds throughout, and a removal aborts everything that was sent before it.
   */
  lemma AddedOnceIsEnough(policy: Policy, script: seq<Step>, more: seq<Step>, o: Observer)
    requires AddsOnce(script + more)
    ensures OncePosted(Run(policy, script + more).started) && AlwaysAtHome(policy, script + more)
    ensures o !in Run(policy, script).observers ==> OnlyNewBegun(Run(policy, script), Run(policy, script + more), o)
  {
    AddsOnceIsSafe(policy, script + more);
    HeardOnce(policy, script + more);
    AtHomeExactly(policy, script + more);
    AddsOnceNeverRevives(policy, script, more, o);
    if o !in Run(policy, script).observers { RemovalAborts(policy, script, more, o); }
  }
}

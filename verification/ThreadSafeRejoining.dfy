/** ObserverListThreadSafe when observers leave and come back: exactly when its promises still hold. */
module ThreadSafeRejoining {
  import opened ObserverPolicy
  import Seqs
  import opened ThreadSafeObservers

  // ----- At most once -----

  ghost predicate TasksBelow(tasks: multiset<Task>, n: nat) { forall t | t in tasks :: t.note < n }

  ghost predicate FramesBelow(dispatching: map<Thread, seq<Frame>>, n: nat) {
    forall th | th in dispatching :: forall i | 0 <= i < |dispatching[th]| ::
      dispatching[th][i].Own? ==> dispatching[th][i].note < n
  }

  /** Notifications are numbered as they are sent. */
  ghost predicate Numbered(s: State) {
    TasksBelow(s.log.posted, |s.log.snapshots|) && FramesBelow(s.dispatching, |s.log.snapshots|)
  }

  lemma AddKeepsNumbered(s: State, policy: Policy, o: Observer, q: Sequence, th: Thread)
    requires Numbered(s)
    ensures Numbered(AddTo(s, policy, o, q, th))
  {
    assert forall t | t in Joining(s, o, q, th) :: t.note < |s.log.snapshots|;
  }

  lemma NotifyKeepsNumbered(s: State, policy: Policy)
    requires Numbered(s)
    ensures Numbered(Next(s, policy, Notify))
  {
  }

  lemma InvokeKeepsNumbered(s: State, policy: Policy, th: Thread)
    requires Numbered(s) && Conserved(s)
    ensures Numbered(Next(s, policy, Invoke(th)))
  {
    assert s.checked <= s.log.posted;
  }

  lemma StepKeepsNumbered(s: State, policy: Policy, step: Step)
    requires Numbered(s) && Conserved(s)
    ensures Numbered(Next(s, policy, step))
  {
    match step
    case Add(o, q, th) => AddKeepsNumbered(s, policy, o, q, th);
    case Notify => NotifyKeepsNumbered(s, policy);
    case Invoke(th) => InvokeKeepsNumbered(s, policy, th);
    case _ =>
      QuietStep(s, policy, step);
  }

  lemma {:induction false} RunKeepsNumbered(policy: Policy, script: seq<Step>)
    ensures Numbered(Run(policy, script))
  {
    if script != [] {
      RunKeepsNumbered(policy, script[..|script| - 1]);
      RunConserves(policy, script[..|script| - 1]);
      StepKeepsNumbered(Run(policy, script[..|script| - 1]), policy, script[|script| - 1]);
    }
  }

  predicate SameNews(t: Task, u: Task) { t.observer == u.observer && t.note == u.note }

  /** No observer has been posted the same notification twice, on whatever sequences. */
  ghost predicate OncePosted(posted: multiset<Task>) {
    && (forall t :: posted[t] <= 1)
    && (forall t, u | t in posted && u in posted && SameNews(t, u) :: t == u)
  }

  /** The step adds, under policy ALL and on a thread that is dispatching a notification of the list, an observer to
      which that notification has already been posted. */
  ghost predicate Repeats(s: State, policy: Policy, step: Step) {
    && step.Add? && step.observer !in s.observers && step.thread !in s.entering
    && policy.All?
    && exists t :: t in s.log.posted && t.observer == step.observer && Dispatches(s, step.thread, t.note)
  }

  lemma MorePostedOnce(posted: multiset<Task>, posts: multiset<Task>)
    requires OncePosted(posted) && OncePosted(posts)
    requires forall t, u | t in posted && u in posts :: !SameNews(t, u)
    ensures OncePosted(posted + posts)
  {
    forall t ensures (posted + posts)[t] <= 1 {
      assert t in posted && t in posts ==> !SameNews(t, t);
    }
  }

  lemma CleanStepPostsOnce(s: State, policy: Policy, step: Step)
    requires Numbered(s) && OncePosted(s.log.posted) && !Repeats(s, policy, step)
    ensures OncePosted(Next(s, policy, step).log.posted)
  {
    match step
    case Add(o, q, th) =>
      if o !in s.observers && th !in s.entering && policy.All? { MorePostedOnce(s.log.posted, Joining(s, o, q, th)); }
    case Notify => MorePostedOnce(s.log.posted, multiset(PostsOf(s)));
    case _ =>
      QuietStep(s, policy, step);
  }

  lemma RepeatPostsTwice(s: State, policy: Policy, step: Step)
    requires Repeats(s, policy, step)
    ensures !OncePosted(Next(s, policy, step).log.posted)
  {
    var t :| t in s.log.posted && t.observer == step.observer && Dispatches(s, step.thread, t.note);
    var u := Task(step.observer, t.note, step.on);
    var posted' := Next(s, policy, step).log.posted;
    assert posted' == s.log.posted + multiset{u};
    assert SameNews(t, u) && t in posted' && u in posted';
    assert t == u ==> posted'[t] >= 2;
  }

  lemma OncePostedBefore(posted: multiset<Task>, posted': multiset<Task>)
    requires posted <= posted' && OncePosted(posted')
    ensures OncePosted(posted)
  {
    forall t ensures posted[t] <= 1 { assert posted[t] <= posted'[t]; }
  }

  /** No step of the run was one of those. */
  ghost predicate NeverRepeats(policy: Policy, script: seq<Step>) {
    script != [] ==>
      && NeverRepeats(policy, script[..|script| - 1])
      && !Repeats(Run(policy, script[..|script| - 1]), policy, script[|script| - 1])
  }

  lemma OncePostedStep(s: State, policy: Policy, step: Step)
    requires Numbered(s)
    ensures OncePosted(Next(s, policy, step).log.posted) <==> OncePosted(s.log.posted) && !Repeats(s, policy, step)
  {
    var posted' := Next(s, policy, step).log.posted;
    StepGrows(s, policy, step);
    if OncePosted(posted') { OncePostedBefore(s.log.posted, posted'); }
    if Repeats(s, policy, step) {
      RepeatPostsTwice(s, policy, step);
    } else if OncePosted(s.log.posted) {
      CleanStepPostsOnce(s, policy, step);
    }
  }

  /**
   * In every run, no notification has been posted twice to one observer if and only if no step added, under policy ALL
   * and inside a dispatch of a notification, an observer to which that notification had been posted already.
   */
  lemma {:induction false} OncePostedExactly(policy: Policy, script: seq<Step>)
    ensures OncePosted(Run(policy, script).log.posted) <==> NeverRepeats(policy, script)
  {
    if script != [] {
      var n := |script| - 1;
      OncePostedExactly(policy, script[..n]);
      RunKeepsNumbered(policy, script[..n]);
      OncePostedStep(Run(policy, script[..n]), policy, script[n]);
    }
  }

  /** Without such a step every observer hears every notification at most once. */
  lemma HeardOnce(policy: Policy, script: seq<Step>)
    requires NeverRepeats(policy, script)
    ensures OncePosted(Run(policy, script).started)
  {
    OncePostedExactly(policy, script);
    StartedWasPosted(policy, script);
    OncePostedBefore(Run(policy, script).started, Run(policy, script).log.posted);
  }

  /** The same on one and the same sequence. */
  ghost predicate RepeatsThere(s: State, policy: Policy, step: Step) {
    && step.Add? && step.observer !in s.observers && step.thread !in s.entering
    && policy.All?
    && exists n :: Dispatches(s, step.thread, n) && Task(step.observer, n, step.on) in s.log.posted
  }

  ghost predicate NeverRepeatsThere(policy: Policy, script: seq<Step>) {
    script != [] ==>
      && NeverRepeatsThere(policy, script[..|script| - 1])
      && !RepeatsThere(Run(policy, script[..|script| - 1]), policy, script[|script| - 1])
  }

  ghost predicate EachOnce(posted: multiset<Task>) { forall t :: posted[t] <= 1 }

  lemma NotifyKeepsEachOnce(s: State, policy: Policy)
    requires Numbered(s)
    ensures EachOnce(Next(s, policy, Notify).log.posted) <==> EachOnce(s.log.posted)
  {
    var posted, posted' := s.log.posted, Next(s, policy, Notify).log.posted;
    forall t ensures posted'[t] == posted[t] + if t in PostsOf(s) then 1 else 0 {}
    assert forall t | t in PostsOf(s) :: posted[t] == 0;
  }

  lemma AddEachOnce(s: State, policy: Policy, o: Observer, q: Sequence, th: Thread)
    ensures
      EachOnce(Next(s, policy, Add(o, q, th)).log.posted)
      <==> EachOnce(s.log.posted) && !RepeatsThere(s, policy, Add(o, q, th))
  {
    var posted, posted' := s.log.posted, Next(s, policy, Add(o, q, th)).log.posted;
    assert forall t :: posted[t] <= posted'[t];
    if RepeatsThere(s, policy, Add(o, q, th)) {
      var n :| Dispatches(s, th, n) && Task(o, n, q) in posted;
      assert posted'[Task(o, n, q)] >= 2;
    }
  }

  lemma EachOnceStep(s: State, policy: Policy, step: Step)
    requires Numbered(s)
    ensures EachOnce(Next(s, policy, step).log.posted) <==> EachOnce(s.log.posted) && !RepeatsThere(s, policy, step)
  {
    match step
    case Notify => NotifyKeepsEachOnce(s, policy);
    case Add(o, q, th) => AddEachOnce(s, policy, o, q, th);
    case _ => QuietStep(s, policy, step);
  }

  /** Each task has been posted at most once if and only if no such step happened. */
  lemma {:induction false} EachOnceExactly(policy: Policy, script: seq<Step>)
    ensures EachOnce(Run(policy, script).log.posted) <==> NeverRepeatsThere(policy, script)
  {
    if script != [] {
      var n := |script| - 1;
      EachOnceExactly(policy, script[..n]);
      RunKeepsNumbered(policy, script[..n]);
      EachOnceStep(Run(policy, script[..n]), policy, script[n]);
    }
  }

  // ----- The assertion in NotifyWrapper -----

  /** Whichever waiting task runs next and finds its observer, it finds it registered on its own sequence. */
  ghost predicate AtHome(s: State) {
    forall t | t in s.pending && t.observer in s.observers :: s.observers[t.observer] == t.home
  }

  /** The step registers an observer on one sequence while a task for it waits on another. */
  ghost predicate Displaces(s: State, step: Step) {
    && step.Add? && step.observer !in s.observers && step.thread !in s.entering
    && exists t :: t in s.pending && t.observer == step.observer && t.home != step.on
  }

  ghost predicate AlwaysAtHome(policy: Policy, script: seq<Step>) {
    AtHome(Run(policy, script)) && (script != [] ==> AlwaysAtHome(policy, script[..|script| - 1]))
  }

  ghost predicate NeverDisplaces(policy: Policy, script: seq<Step>) {
    script != [] ==>
      && NeverDisplaces(policy, script[..|script| - 1])
      && !Displaces(Run(policy, script[..|script| - 1]), script[|script| - 1])
  }

  lemma AddAtHome(s: State, policy: Policy, o: Observer, q: Sequence, th: Thread)
    requires AtHome(s) && o !in s.observers && th !in s.entering
    ensures AtHome(AddTo(s, policy, o, q, th)) <==> !Displaces(s, Add(o, q, th))
  {
    var s' := AddTo(s, policy, o, q, th);
    if Displaces(s, Add(o, q, th)) {
      var t :| t in s.pending && t.observer == o && t.home != q;
      assert t in s'.pending;
    }
  }

  lemma NotifyAtHome(s: State, policy: Policy)
    requires AtHome(s)
    ensures AtHome(Next(s, policy, Notify))
  {
    assert forall t | t in PostsOf(s) :: s.observers[t.observer] == t.home;
  }

  lemma OtherAtHome(s: State, policy: Policy, step: Step)
    requires AtHome(s) && !step.Add? && !step.Notify?
    ensures AtHome(Next(s, policy, step))
  {
    var s' := Next(s, policy, step);
    assert s'.pending <= s.pending;
    forall t | t in s'.pending && t.observer in s'.observers ensures s'.observers[t.observer] == t.home {
      assert t in s.pending && t.observer in s.observers;
    }
  }

  lemma AtHomeStep(s: State, policy: Policy, step: Step)
    requires AtHome(s)
    ensures AtHome(Next(s, policy, step)) <==> !Displaces(s, step)
  {
    match step
    case Add(o, q, th) =>
      if o !in s.observers && th !in s.entering { AddAtHome(s, policy, o, q, th); }
    case Notify => NotifyAtHome(s, policy);
    case _ =>
      OtherAtHome(s, policy, step);
  }

  /**
   * Throughout a run the sequence assertion holds of whatever task may run next, if and only if no step registered an
   * observer on one sequence while a task for it was waiting on another.
   */
  lemma {:induction false} AtHomeExactly(policy: Policy, script: seq<Step>)
    ensures AlwaysAtHome(policy, script) <==> NeverDisplaces(policy, script)
  {
    if script != [] {
      var n := |script| - 1;
      AtHomeExactly(policy, script[..n]);
      if AtHome(Run(policy, script[..n])) { AtHomeStep(Run(policy, script[..n]), policy, script[n]); }
      AlwaysNow(policy, script[..n]);
    }
  }

  lemma AlwaysNow(policy: Policy, script: seq<Step>)
    ensures AlwaysAtHome(policy, script) ==> AtHome(Run(policy, script))
  {
  }

  // ----- Removal -----

  /** Callbacks entered, or past the critical section and about to be entered. */
  function Begun(s: State, t: Task): nat { s.checked[t] + s.started[t] }

  /** Of the observer's tasks, no more have begun since then than have been posted since then. */
  ghost predicate OnlyNewBegun(s: State, s': State, o: Observer) {
    forall t: Task | t.observer == o :: Begun(s', t) + s.log.posted[t] <= Begun(s, t) + s'.log.posted[t]
  }

  predicate Waiting(s: State, o: Observer) { exists t | t in s.pending :: t.observer == o }

  lemma NoneWaiting(policy: Policy, script: seq<Step>, more: seq<Step>, o: Observer)
    requires !Waiting(Run(policy, script), o)
    ensures OnlyNewBegun(Run(policy, script), Run(policy, script + more), o)
  {
    var s, s' := Run(policy, script), Run(policy, script + more);
    RunConserves(policy, script);
    RunConserves(policy, script + more);
    RunGrows(policy, script, more);
    forall t: Task | t.observer == o ensures Begun(s', t) + s.log.posted[t] <= Begun(s, t) + s'.log.posted[t] {
      assert s.pending[t] == 0;
      assert (s.pending + s.checked + s.started + s.dropped)[t] == s.log.posted[t];
      assert (s'.pending + s'.checked + s'.started + s'.dropped)[t] == s'.log.posted[t];
      assert s.dropped[t] <= s'.dropped[t];
    }
  }

  /** While the observer is out, none of its tasks begins. */
  lemma OutMeansNothingBegins(s: State, policy: Policy, step: Step, o: Observer)
    requires o !in s.observers
    ensures forall t: Task | t.observer == o :: Begun(Next(s, policy, step), t) == Begun(s, t)
  {
  }

  /** No step put the observer back while a task for it was waiting. */
  ghost predicate NeverRevives(policy: Policy, script: seq<Step>, more: seq<Step>, o: Observer) {
    more != [] ==>
      var n := |more| - 1;
      var s := Run(policy, script + more[..n]);
      && NeverRevives(policy, script, more[..n], o)
      && !(more[n].Add? && more[n].observer == o && o !in s.observers && more[n].thread !in s.entering && Waiting(s, o))
  }

  /** Up to `k` the observer stayed out; there the run ends, or nothing of it was waiting. */
  lemma {:induction false} OutUntil(policy: Policy, script: seq<Step>, more: seq<Step>, o: Observer) returns (k: nat)
    requires o !in Run(policy, script).observers && NeverRevives(policy, script, more, o)
    ensures k <= |more|
    ensures var s, s' := Run(policy, script), Run(policy, script + more[..k]);
            && o !in s'.observers
            && (forall t: Task | t.observer == o :: Begun(s', t) == Begun(s, t))
            && (k == |more| || !Waiting(s', o))
  {
    if more == [] {
      Seqs.Whole(script);
      return 0;
    }
    var n := |more| - 1;
    k := OutUntil(policy, script, more[..n], o);
    assert more[..n][..k] == more[..k];
    var s' := Run(policy, script + more[..n]);
    if k == n && Waiting(s', o) {
      Seqs.Snoc(more);
      Seqs.Associates(script, more[..n], [more[n]]);
      OneStep(policy, script + more[..n], more[n]);
      OutMeansNothingBegins(s', policy, more[n], o);
      StaysOut(s', policy, more[n], o);
      k := n + 1;
      Seqs.Whole(more);
    }
  }

  lemma StaysOut(s: State, policy: Policy, step: Step, o: Observer)
    requires o !in s.observers && !(step.Add? && step.observer == o && step.thread !in s.entering)
    ensures o !in Next(s, policy, step).observers
  {
  }

  lemma OnlyNewChains(s: State, m: State, s': State, o: Observer)
    requires forall t: Task | t.observer == o :: Begun(m, t) == Begun(s, t)
    requires s.log.posted <= m.log.posted && OnlyNewBegun(m, s', o)
    ensures OnlyNewBegun(s, s', o)
  {
    forall t: Task | t.observer == o ensures Begun(s', t) + s.log.posted[t] <= Begun(s, t) + s'.log.posted[t] {
      assert s.log.posted[t] <= m.log.posted[t];
    }
  }

  /** After a removal nothing that was posted before it begins, as long as the observer is not put back while a task for
      it is still waiting. */
  lemma RemovalAborts(policy: Policy, script: seq<Step>, more: seq<Step>, o: Observer)
    requires o !in Run(policy, script).observers && NeverRevives(policy, script, more, o)
    ensures OnlyNewBegun(Run(policy, script), Run(policy, script + more), o)
  {
    var k := OutUntil(policy, script, more, o);
    var m := Run(policy, script + more[..k]);
    RunGrows(policy, script, more[..k]);
    if k == |more| {
      Seqs.Whole(more);
      assert OnlyNewBegun(m, m, o);
    } else {
      Seqs.TakeAndDrop(more, k);
      Seqs.Associates(script, more[..k], more[k..]);
      NoneWaiting(policy, script + more[..k], more[k..], o);
    }
    OnlyNewChains(Run(policy, script), m, Run(policy, script + more), o);
  }

  lemma {:induction false} FreshThread(threads: set<Thread>) returns (f: Thread)
    ensures forall th | th in threads :: th < f
  {
    if threads == {} { return 0; }
    var th :| th in threads;
    assert threads == threads - {th} + {th};
    f := FreshThread(threads - {th});
    if f <= th { f := th + 1; }
  }

  lemma TwoChecks(s: State, policy: Policy, t: Task, f: Thread)
    requires t in s.pending && t.observer in s.observers && f !in s.entering && f + 1 !in s.entering
    ensures
      var s' := Next(Next(s, policy, Check(t, f)), policy, Check(t, f + 1));
      && s'.log == s.log
      && Begun(s', t) == Begun(s, t) + if s.pending[t] >= 2 then 2 else 1
  {
  }

  lemma ThreeSteps(policy: Policy, script: seq<Step>, a: Step, b: Step, c: Step)
    ensures
      Run(policy, script + ([a] + [b, c])) == Next(Next(Next(Run(policy, script), policy, a), policy, b), policy, c)
  {
    OneStep(policy, script, a);
    OneStep(policy, script + [a], b);
    OneStep(policy, script + [a] + [b], c);
    Seqs.ThreeMore(script, a, b, c);
  }

  lemma RevivedBegins(s: State, policy: Policy, o: Observer, q: Sequence, th: Thread, t: Task, f: Thread)
    requires o !in s.observers && th !in s.entering && t in s.pending && t.observer == o
    requires f !in s.entering && f + 1 !in s.entering
    ensures
      var s' := Next(Next(Next(s, policy, Add(o, q, th)), policy, Check(t, f)), policy, Check(t, f + 1));
      Begun(s', t) + s.log.posted[t] > Begun(s, t) + s'.log.posted[t]
  {
    var s1 := Next(s, policy, Add(o, q, th));
    assert s1 == AddTo(s, policy, o, q, th);
    TwoChecks(s1, policy, t, f);
    assert Joining(s, o, q, th)[t] <= 1;
  }

  lemma Revived(policy: Policy, script: seq<Step>, o: Observer, q: Sequence, th: Thread) returns (more: seq<Step>)
    requires var s := Run(policy, script); o !in s.observers && th !in s.entering && Waiting(s, o)
    ensures !OnlyNewBegun(Run(policy, script), Run(policy, script + ([Add(o, q, th)] + more)), o)
  {
    var s := Run(policy, script);
    var t :| t in s.pending && t.observer == o;
    var f := FreshThread(s.entering.Keys);
    more := [Check(t, f), Check(t, f + 1)];
    ThreeSteps(policy, script, Add(o, q, th), more[0], more[1]);
    RevivedBegins(s, policy, o, q, th, t, f);
  }

  /** Putting an observer back revives what was posted before if and only if a task for it was still waiting. */
  lemma RevivalExactly(policy: Policy, script: seq<Step>, o: Observer, q: Sequence, th: Thread)
    requires var s := Run(policy, script); o !in s.observers && th !in s.entering
    ensures
      (forall more :: OnlyNewBegun(Run(policy, script), Run(policy, script + ([Add(o, q, th)] + more)), o))
      <==> !Waiting(Run(policy, script), o)
  {
    if Waiting(Run(policy, script), o) {
      var more := Revived(policy, script, o, q, th);
    } else {
      forall more ensures OnlyNewBegun(Run(policy, script), Run(policy, script + ([Add(o, q, th)] + more)), o) {
        NoneWaiting(policy, script, [Add(o, q, th)] + more, o);
      }
    }
  }

  // ----- Runs that show each of the three failures -----

  const NEWS := Task(0, 0, 0)

  /** One observer, one notification, posted and waiting. */
  lemma Begin(policy: Policy, script: seq<Step>)
    requires script == [Add(0, 0, 0)] + [Notify]
    ensures
      Run(policy, script)
      == START.(observers := map[0 := 0], pending := multiset{NEWS},
                log := Log(multiset{NEWS}, [map[0 := 0]], multiset{}))
  {
    OneStep(policy, [], Add(0, 0, 0));
    OneStep(policy, [Add(0, 0, 0)], Notify);
    var s := Next(START, policy, Add(0, 0, 0));
    assert s == START.(observers := map[0 := 0]);
    assert PostsOf(s) == {NEWS};
  }

  /** Taken out while the notification waits, and put back on another sequence: the assertion would fail. */
  lemma RejoiningElsewhere(policy: Policy) returns (script: seq<Step>)
    ensures !AtHome(Run(policy, script))
  {
    script := [Add(0, 0, 0)] + [Notify];
    Begin(policy, script);
    OneStep(policy, script, Remove(0));
    OneStep(policy, script + [Remove(0)], Add(0, 1, 1));
    script := script + [Remove(0)] + [Add(0, 1, 1)];
    assert NEWS in Run(policy, script).pending;
  }

  lemma HearNews(s: State, policy: Policy)
    requires NEWS in s.pending && 0 in s.observers && 0 !in s.entering
    ensures
      var s' := Next(Next(s, policy, Check(NEWS, 0)), policy, Invoke(0));
      && s'.started == s.started + multiset{NEWS} && s'.log == s.log
      && s'.observers == s.observers && 0 !in s'.entering && Dispatches(s', 0, 0)
  {
  }

  lemma PutBack(s: State, policy: Policy)
    requires 0 !in s.observers && 0 !in s.entering
    ensures
      var s' := Next(s, policy, Add(0, 0, 0));
      && s'.started == s.started && 0 in s'.observers && 0 !in s'.entering && s.pending <= s'.pending
      && (Stack(s, 0) == [] ==> s'.log.posted == s.log.posted)
      && (policy.All? && Dispatches(s, 0, 0) ==> NEWS in s'.pending)
  {
  }

  lemma TakeOut(s: State, policy: Policy)
    requires 0 in s.observers
    ensures
      var s' := Next(s, policy, Remove(0));
      && 0 !in s'.observers && s'.pending == s.pending && s'.started == s.started && s'.log == s.log
      && s'.entering == s.entering && s'.dispatching == s.dispatching
  {
  }

  /** Taken out while the notification waits, and put back: the notification sent before the removal is heard. */
  lemma RejoiningHearsOldNews(policy: Policy) returns (script: seq<Step>, more: seq<Step>)
    ensures 0 !in Run(policy, script).observers && Run(policy, script).started == multiset{}
    ensures Run(policy, script + more).started == multiset{NEWS}
    ensures Run(policy, script + more).log.posted == Run(policy, script).log.posted
  {
    script := [Add(0, 0, 0)] + [Notify];
    Begin(policy, script);
    TakeOut(Run(policy, script), policy);
    OneStep(policy, script, Remove(0));
    script := script + [Remove(0)];
    var s := Run(policy, script);
    PutBack(s, policy);
    HearNews(Next(s, policy, Add(0, 0, 0)), policy);
    ThreeSteps(policy, script, Add(0, 0, 0), Check(NEWS, 0), Invoke(0));
    more := [Add(0, 0, 0)] + [Check(NEWS, 0), Invoke(0)];
  }

  ghost predicate Hearing(s: State) { s.started == multiset{NEWS} && 0 !in s.entering && Dispatches(s, 0, 0) }

  lemma HeardFirst() returns (script: seq<Step>)
    ensures Hearing(Run(All, script)) && 0 in Run(All, script).observers
  {
    script := [Add(0, 0, 0)] + [Notify];
    Begin(All, script);
    HearNews(Run(All, script), All);
    OneStep(All, script, Check(NEWS, 0));
    OneStep(All, script + [Check(NEWS, 0)], Invoke(0));
    script := script + [Check(NEWS, 0)] + [Invoke(0)];
  }

  lemma StillHearing(s: State)
    requires Hearing(s) && 0 in s.observers
    ensures var s' := Next(s, All, Remove(0)); Hearing(s') && 0 !in s'.observers
  {
    TakeOut(s, All);
  }

  lemma TakenOutInside() returns (script: seq<Step>)
    ensures Hearing(Run(All, script)) && 0 !in Run(All, script).observers
  {
    var before := HeardFirst();
    StillHearing(Run(All, before));
    OneStep(All, before, Remove(0));
    script := before + [Remove(0)];
  }

  lemma HeardAgain(s: State)
    requires Hearing(s) && 0 !in s.observers
    ensures Next(Next(Next(s, All, Add(0, 0, 0)), All, Check(NEWS, 0)), All, Invoke(0)).started[NEWS] == 2
  {
    PutBack(s, All);
    HearNews(Next(s, All, Add(0, 0, 0)), All);
  }

  /** Taken out and put back inside the very dispatch it is hearing, an observer hears the notification twice. */
  lemma RejoiningHearsTwice() returns (script: seq<Step>)
    ensures Run(All, script).started[NEWS] == 2
  {
    var before := TakenOutInside();
    HeardAgain(Run(All, before));
    ThreeSteps(All, before, Add(0, 0, 0), Check(NEWS, 0), Invoke(0));
    script := before + ([Add(0, 0, 0)] + [Check(NEWS, 0), Invoke(0)]);
  }
}

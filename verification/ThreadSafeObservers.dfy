/** ObserverListThreadSafe as a protocol: locked additions, removals and notifications, tasks posted to the
    sequences observers registered on, and dispatches that can nest. Every step is one critical section or
    one event local to a thread; a script of steps is one interleaving, in any order tasks may run. */
module ThreadSafeObservers {
  import opened ObserverPolicy
  import Seqs

  type Observer = nat
  type Sequence = nat
  type Thread = nat
  type Note = nat

  /** A NotifyWrapper call bound for `home`. */
  datatype Task = Task(observer: Observer, note: Note, home: Sequence)

  /** What tls_current_notification_ points at: a notification of this list, or of another list. */
  datatype Frame = Own(note: Note) | Foreign

  /** What has happened so far. */
  datatype Log = Log(
    posted: multiset<Task>,
    snapshots: seq<map<Observer, Sequence>>,  // observers_ at each Notify
    joined: multiset<Task>)                   // additions on a thread that was dispatching that note

  datatype State = State(
    observers: map<Observer, Sequence>,       // observers_
    pending: multiset<Task>,                  // posted, not yet run
    checked: multiset<Task>,                  // past NotifyWrapper's critical section, callback not yet entered
    entering: map<Thread, Task>,              // the same, by the thread that runs it
    dispatching: map<Thread, seq<Frame>>,     // current and saved notifications, innermost last
    started: multiset<Task>,                  // callback entered
    dropped: multiset<Task>,                  // NotifyWrapper found the observer gone
    removed: set<Observer>,                   // every observer that was ever taken out
    log: Log)

  datatype Step =
    | Add(observer: Observer, on: Sequence, thread: Thread)
    | Remove(observer: Observer)
    | Notify
    | Check(task: Task, thread: Thread)       // NotifyWrapper: the critical section
    | Invoke(thread: Thread)                  // NotifyWrapper: set the thread-local, run the callback
    | Leave(thread: Thread)                   // the callback returns: restore the thread-local
    | EnterForeign(thread: Thread)            // a dispatch of another list begins on the thread

  const START :=
    State(map[], multiset{}, multiset{}, map[], map[], multiset{}, multiset{}, {}, Log(multiset{}, [], multiset{}))

  function Stack(s: State, th: Thread): seq<Frame> { if th in s.dispatching then s.dispatching[th] else [] }

  function PostsOf(s: State): set<Task> {
    set o | o in s.observers :: Task(o, |s.log.snapshots|, s.observers[o])
  }

  /** The thread's innermost dispatch is of this list's notification `n`. */
  predicate Dispatches(s: State, th: Thread, n: Note) {
    var stack := Stack(s, th);
    stack != [] && stack[|stack| - 1] == Own(n)
  }

  /** The call that AddObserver posts under policy ALL, if the thread is dispatching a notification of this list. */
  function Joining(s: State, o: Observer, q: Sequence, th: Thread): multiset<Task> {
    var stack := Stack(s, th);
    if stack == [] || stack[|stack| - 1].Foreign? then multiset{} else multiset{Task(o, stack[|stack| - 1].note, q)}
  }

  function AddTo(s: State, policy: Policy, o: Observer, q: Sequence, th: Thread): State {
    var joining := Joining(s, o, q, th);
    var posts := if policy.All? then joining else multiset{};
    s.(observers := s.observers[o := q], pending := s.pending + posts,
       log := s.log.(posted := s.log.posted + posts, joined := s.log.joined + joining))
  }

  /** One step; a step whose guard fails is not possible and changes nothing. */
  function Next(s: State, policy: Policy, step: Step): State {
    match step
    case Add(o, q, th) => if o in s.observers || th in s.entering then s else AddTo(s, policy, o, q, th)
    case Remove(o) =>
      if o in s.observers then s.(observers := s.observers - {o}, removed := s.removed + {o}) else s
    case Notify =>
      var posts := multiset(PostsOf(s));
      s.(pending := s.pending + posts,
         log := s.log.(posted := s.log.posted + posts, snapshots := s.log.snapshots + [s.observers]))
    case Check(t, th) =>
      if t !in s.pending || th in s.entering then s
      else
        var s' := s.(pending := s.pending - multiset{t});
        if t.observer in s.observers then s'.(checked := s.checked + multiset{t}, entering := s.entering[th := t])
        else s'.(dropped := s.dropped + multiset{t})
    case Invoke(th) =>
      if th !in s.entering || s.entering[th] !in s.checked then s
      else
        var t := s.entering[th];
        s.(checked := s.checked - multiset{t}, entering := s.entering - {th}, started := s.started + multiset{t},
           dispatching := s.dispatching[th := Stack(s, th) + [Own(t.note)]])
    case Leave(th) =>
      var stack := Stack(s, th);
      if stack == [] || th in s.entering then s else s.(dispatching := s.dispatching[th := stack[..|stack| - 1]])
    case EnterForeign(th) =>
      if th in s.entering then s else s.(dispatching := s.dispatching[th := Stack(s, th) + [Foreign]])
  }

  function Run(policy: Policy, script: seq<Step>): State {
    if script == [] then START else Next(Run(policy, script[..|script| - 1]), policy, script[|script| - 1])
  }

  lemma OneStep(policy: Policy, script: seq<Step>, a: Step)
    ensures Run(policy, script + [a]) == Next(Run(policy, script), policy, a)
  {
    Seqs.TakeAppended(script, [a]);
  }

  // ----- Conservation -----

  /** Every posted task is waiting, about to call back, has called back, or was dropped. */
  predicate Conserved(s: State) {
    s.pending + s.checked + s.started + s.dropped == s.log.posted
  }

  lemma MoveConserves(s: State, policy: Policy, step: Step)
    requires Conserved(s) && (step.Check? || step.Invoke?)
    ensures Conserved(Next(s, policy, step))
  {
  }

  lemma StepConserves(s: State, policy: Policy, step: Step)
    requires Conserved(s)
    ensures Conserved(Next(s, policy, step))
  {
    if step.Check? || step.Invoke? { MoveConserves(s, policy, step); }
  }

  lemma {:induction false} RunConserves(policy: Policy, script: seq<Step>)
    ensures Conserved(Run(policy, script))
  {
    if script != [] {
      RunConserves(policy, script[..|script| - 1]);
      StepConserves(Run(policy, script[..|script| - 1]), policy, script[|script| - 1]);
    }
  }

  lemma StartedWasPosted(policy: Policy, script: seq<Step>)
    ensures var s := Run(policy, script); s.pending <= s.log.posted && s.started <= s.log.posted
  {
    RunConserves(policy, script);
    var s := Run(policy, script);
    forall t ensures s.pending[t] <= s.log.posted[t] && s.started[t] <= s.log.posted[t] {
      assert (s.pending + s.checked + s.started + s.dropped)[t] == s.log.posted[t];
    }
  }

  /** What has happened is never undone. */
  predicate Grows(s: State, s': State) {
    && s.log.posted <= s'.log.posted
    && s.started <= s'.started
    && s.dropped <= s'.dropped
    && s.removed <= s'.removed
  }

  lemma MoveGrows(s: State, policy: Policy, step: Step)
    requires step.Check? || step.Invoke?
    ensures Grows(s, Next(s, policy, step))
  {
  }

  lemma StepGrows(s: State, policy: Policy, step: Step)
    ensures Grows(s, Next(s, policy, step))
  {
    if step.Check? || step.Invoke? { MoveGrows(s, policy, step); }
  }

  lemma {:induction false} RunGrows(policy: Policy, script: seq<Step>, more: seq<Step>)
    ensures Grows(Run(policy, script), Run(policy, script + more))
  {
    if more == [] {
      Seqs.Whole(script);
    } else {
      var n := |more| - 1;
      RunGrows(policy, script, more[..n]);
      Seqs.Snoc(more);
      Seqs.Associates(script, more[..n], [more[n]]);
      OneStep(policy, script + more[..n], more[n]);
      StepGrows(Run(policy, script + more[..n]), policy, more[n]);
    }
  }

  // ----- How often each task is posted -----

  /** Once for being registered on that sequence at Notify and, under policy ALL, once for each addition there on a
      thread that was dispatching the notification. */
  function Expected(log: Log, policy: Policy, t: Task): nat {
    (if t.note < |log.snapshots| && t.observer in log.snapshots[t.note] && log.snapshots[t.note][t.observer] == t.home
     then 1 else 0)
    + if policy.All? then log.joined[t] else 0
  }

  ghost predicate PostedAsExpected(log: Log, policy: Policy) { forall t :: log.posted[t] == Expected(log, policy, t) }

  lemma NotifyPostsAsExpected(s: State, policy: Policy)
    requires PostedAsExpected(s.log, policy)
    ensures PostedAsExpected(Next(s, policy, Notify).log, policy)
  {
    var log' := Next(s, policy, Notify).log;
    forall t ensures log'.posted[t] == Expected(log', policy, t) {
      assert log'.posted[t] == s.log.posted[t] + if t in PostsOf(s) then 1 else 0;
    }
  }

  lemma QuietStep(s: State, policy: Policy, step: Step)
    requires !step.Add? && !step.Notify?
    ensures Next(s, policy, step).log == s.log
  {
  }

  lemma StepPostsAsExpected(s: State, policy: Policy, step: Step)
    requires PostedAsExpected(s.log, policy)
    ensures PostedAsExpected(Next(s, policy, step).log, policy)
  {
    if step.Notify? {
      NotifyPostsAsExpected(s, policy);
    } else if !step.Add? {
      QuietStep(s, policy, step);
    }
  }

  /** In every run each task has been posted exactly as often as the list's history says. */
  lemma {:induction false} RunPostsAsExpected(policy: Policy, script: seq<Step>)
    ensures PostedAsExpected(Run(policy, script).log, policy)
  {
    if script != [] {
      var n := |script| - 1;
      RunPostsAsExpected(policy, script[..n]);
      StepPostsAsExpected(Run(policy, script[..n]), policy, script[n]);
    }
  }

  /** In every run nothing is heard more often than that, nor by anyone else or elsewhere. */
  lemma HeardAtMostAsExpected(policy: Policy, script: seq<Step>, t: Task)
    ensures var s := Run(policy, script); s.started[t] <= Expected(s.log, policy, t)
  {
    RunPostsAsExpected(policy, script);
    StartedWasPosted(policy, script);
    var s := Run(policy, script);
    assert s.started[t] <= s.log.posted[t];
  }

  // ----- Delivery -----

  /** A task is waiting or was dropped only for an observer that was registered; dropped, only if it was taken out. */
  ghost predicate Accounted(s: State) {
    && (forall t | t in s.pending :: t.observer in s.observers || t.observer in s.removed)
    && (forall t | t in s.dropped :: t.observer in s.removed)
  }

  lemma MoveKeepsAccounted(s: State, policy: Policy, step: Step)
    requires Accounted(s) && (step.Check? || step.Invoke?)
    ensures Accounted(Next(s, policy, step))
  {
  }

  lemma StepKeepsAccounted(s: State, policy: Policy, step: Step)
    requires Accounted(s)
    ensures Accounted(Next(s, policy, step))
  {
    if step.Check? || step.Invoke? { MoveKeepsAccounted(s, policy, step); }
  }

  lemma {:induction false} RunKeepsAccounted(policy: Policy, script: seq<Step>)
    ensures Accounted(Run(policy, script))
  {
    if script != [] {
      RunKeepsAccounted(policy, script[..|script| - 1]);
      StepKeepsAccounted(Run(policy, script[..|script| - 1]), policy, script[|script| - 1]);
    }
  }

  /** Nothing is waiting to run and no callback is about to be entered. */
  predicate Drained(s: State) { s.pending == multiset{} && s.checked == multiset{} }

  /** Once everything has run, a never-removed observer has heard exactly what it should: the notifications sent while
      it was registered and, under policy ALL, those it was added inside of. */
  lemma DrainedMeansDelivered(policy: Policy, script: seq<Step>, t: Task)
    requires Drained(Run(policy, script)) && t.observer !in Run(policy, script).removed
    ensures var s := Run(policy, script); s.started[t] == Expected(s.log, policy, t)
  {
    RunPostsAsExpected(policy, script);
    RunConserves(policy, script);
    RunKeepsAccounted(policy, script);
    var s := Run(policy, script);
    assert (s.pending + s.checked + s.started + s.dropped)[t] == s.log.posted[t];
    assert s.dropped[t] == 0;
  }
}

/** What the history of an ObserverListThreadSafe means, read off the script: who is registered where, how many
    notifications were sent, which dispatch is open on a thread, and for whom each notification is meant. */
module ThreadSafeHistory {
  import opened ObserverPolicy
  import Seqs
  import opened ThreadSafeDelivery
  import opened ThreadSafeObservers
  import ThreadSafeRepeats
  import opened Wrappers

  // ----- Nested dispatches -----

  /** Leaving a callback restores what was being dispatched on the thread before it, on this list or another. */
  lemma LeaveUndoesInvoke(s: State, policy: Policy, th: Thread)
    requires th in s.entering && s.entering[th] in s.checked
    ensures
      var inside := Next(s, policy, Invoke(th));
      && Dispatches(inside, th, s.entering[th].note)
      && Stack(Next(inside, policy, Leave(th)), th) == Stack(s, th)
      && forall other | other != th :: Stack(Next(inside, policy, Leave(th)), other) == Stack(s, other)
  {
    Seqs.TakeAppended(Stack(s, th), [Own(s.entering[th].note)]);
  }

  lemma LeaveUndoesEnterForeign(s: State, policy: Policy, th: Thread)
    requires th !in s.entering
    ensures
      var inside := Next(s, policy, EnterForeign(th));
      && (forall n :: !Dispatches(inside, th, n))
      && Stack(Next(inside, policy, Leave(th)), th) == Stack(s, th)
  {
    Seqs.TakeAppended(Stack(s, th), [Foreign]);
  }

  datatype Move = Enter(frame: Frame) | Exit | Stay

  /** What a step does to the dispatches of a thread; `open` says whether there is one to leave. */
  function MoveOf(s: State, step: Step, th: Thread, open: bool): Move {
    if step == Invoke(th) && th in s.entering then Enter(Own(s.entering[th].note))
    else if step == EnterForeign(th) && th !in s.entering then Enter(Foreign)
    else if step == Leave(th) && th !in s.entering && open then Exit
    else Stay
  }

  function Moved(open: seq<Frame>, move: Move): seq<Frame> {
    match move
    case Enter(frame) => open + [frame]
    case Exit => if open == [] then [] else open[..|open| - 1]
    case Stay => open
  }

  /** The dispatches that are open on the thread, the innermost last: those that were entered and not left since. */
  ghost function Open(policy: Policy, script: seq<Step>, th: Thread): seq<Frame> {
    if script == [] then []
    else
      var init, step := script[..|script| - 1], script[|script| - 1];
      var before := Open(policy, init, th);
      Moved(before, MoveOf(Run(policy, init), step, th, before != []))
  }

  lemma CheckStays(s: State, policy: Policy, t: Task, at: Thread)
    ensures
      var s' := Next(s, policy, Check(t, at));
      s'.dispatching == s.dispatching && s'.observers == s.observers && s'.removed == s.removed
  {
    if t in s.pending && at !in s.entering {
      var s' := s.(pending := s.pending - multiset{t});
      assert s'.dispatching == s.dispatching;
    }
  }

  lemma AddStays(s: State, policy: Policy, o: Observer, q: Sequence, at: Thread)
    ensures Next(s, policy, Add(o, q, at)).dispatching == s.dispatching
  {
  }

  lemma OtherStepsStay(s: State, policy: Policy, step: Step)
    requires !step.Invoke? && !step.Leave? && !step.EnterForeign?
    ensures Next(s, policy, step).dispatching == s.dispatching
  {
    match step
    case Check(t, at) => CheckStays(s, policy, t, at);
    case Add(o, q, at) => AddStays(s, policy, o, q, at);
    case Remove(_) =>
    case Notify =>
  }

  lemma InvokeMoves(s: State, policy: Policy, at: Thread, th: Thread)
    requires at in s.entering ==> s.entering[at] in s.checked
    ensures Stack(Next(s, policy, Invoke(at)), th) == Moved(Stack(s, th), MoveOf(s, Invoke(at), th, Stack(s, th) != []))
  {
  }

  lemma StackMoves(s: State, policy: Policy, step: Step, th: Thread)
    requires step.Invoke? && step.thread in s.entering ==> s.entering[step.thread] in s.checked
    ensures Stack(Next(s, policy, step), th) == Moved(Stack(s, th), MoveOf(s, step, th, Stack(s, th) != []))
  {
    match step
    case Invoke(at) => InvokeMoves(s, policy, at, th);
    case Leave(_) =>
    case EnterForeign(_) =>
    case _ => OtherStepsStay(s, policy, step);
  }

  /** The thread-local and the values it will be restored to are exactly the open dispatches. */
  lemma {:induction false} OpenIsStack(policy: Policy, script: seq<Step>, th: Thread)
    ensures Stack(Run(policy, script), th) == Open(policy, script, th)
  {
    if script != [] {
      var n := |script| - 1;
      var s, step := Run(policy, script[..n]), script[n];
      OpenIsStack(policy, script[..n], th);
      if step.Invoke? && step.thread in s.entering {
        ThreadSafeRepeats.EnteringIsChecked(policy, script[..n], step.thread);
      }
      StackMoves(s, policy, step, th);
    }
  }

  /** The notification whose dispatch is innermost on the thread, if it is one of this list. */
  ghost predicate InnermostIs(policy: Policy, script: seq<Step>, th: Thread, n: Note) {
    var open := Open(policy, script, th);
    open != [] && open[|open| - 1] == Own(n)
  }

  lemma InnermostIsDispatched(policy: Policy, script: seq<Step>, th: Thread, n: Note)
    ensures InnermostIs(policy, script, th, n) <==> Dispatches(Run(policy, script), th, n)
  {
    OpenIsStack(policy, script, th);
  }

  /** An observer added under policy ALL while a dispatch of this list is innermost on the thread gets exactly that
      notification posted, on its own sequence; otherwise nothing is posted. */
  lemma AddPostsInnermost(policy: Policy, script: seq<Step>, o: Observer, q: Sequence, th: Thread)
    requires var s := Run(policy, script); o !in s.observers && th !in s.entering
    ensures
      var s, s' := Run(policy, script), Run(policy, script + [Add(o, q, th)]);
      var open := Open(policy, script, th);
      var heard := policy.All? && open != [] && open[|open| - 1].Own?;
      var posts := if heard then multiset{Task(o, open[|open| - 1].note, q)} else multiset{};
      s'.pending == s.pending + posts && s'.log.posted == s.log.posted + posts
  {
    OneStep(policy, script, Add(o, q, th));
    OpenIsStack(policy, script, th);
  }

  // ----- Registration and notifications -----

  /** The sequence the observer is registered on: that of its last addition, unless it was taken out since. */
  ghost function RegisteredOn(policy: Policy, script: seq<Step>, o: Observer): Option<Sequence> {
    if script == [] then None
    else
      var init, step := script[..|script| - 1], script[|script| - 1];
      var before := RegisteredOn(policy, init, o);
      var busy := step.Add? && step.thread in Run(policy, init).entering;
      if step.Add? && step.observer == o && before.None? && !busy then Some(step.on)
      else if step == Remove(o) then None
      else before
  }

  lemma ObserversStay(s: State, policy: Policy, step: Step)
    requires !step.Add? && !step.Remove?
    ensures Next(s, policy, step).observers == s.observers
  {
    match step
    case Check(t, at) => CheckStays(s, policy, t, at);
    case Invoke(at) => InvokeKeepsObservers(s, policy, at);
    case Notify =>
    case Leave(_) =>
    case EnterForeign(_) =>
  }

  lemma InvokeKeepsObservers(s: State, policy: Policy, at: Thread)
    ensures Next(s, policy, Invoke(at)).observers == s.observers
  {
  }

  function On(observers: map<Observer, Sequence>, o: Observer): Option<Sequence> {
    if o in observers then Some(observers[o]) else None
  }

  lemma AddRegisters(s: State, policy: Policy, p: Observer, q: Sequence, at: Thread, o: Observer)
    ensures
      var before, after := On(s.observers, o), On(Next(s, policy, Add(p, q, at)).observers, o);
      after == if p == o && before.None? && at !in s.entering then Some(q) else before
  {
  }

  lemma RemoveUnregisters(s: State, policy: Policy, p: Observer, o: Observer)
    ensures On(Next(s, policy, Remove(p)).observers, o) == if p == o then None else On(s.observers, o)
  {
  }

  lemma {:induction false} RegisteredExactly(policy: Policy, script: seq<Step>, o: Observer)
    ensures RegisteredOn(policy, script, o) == On(Run(policy, script).observers, o)
  {
    if script != [] {
      var init, step := script[..|script| - 1], script[|script| - 1];
      var s := Run(policy, init);
      RegisteredExactly(policy, init, o);
      match step
      case Add(p, q, at) => AddRegisters(s, policy, p, q, at, o);
      case Remove(p) => RemoveUnregisters(s, policy, p, o);
      case _ => ObserversStay(s, policy, step);
    }
  }

  /** Whether the observer was ever taken out while it was registered. */
  ghost predicate EverTakenOut(policy: Policy, script: seq<Step>, o: Observer) {
    script != [] &&
    var init, step := script[..|script| - 1], script[|script| - 1];
    EverTakenOut(policy, init, o) || (step == Remove(o) && RegisteredOn(policy, init, o).Some?)
  }

  lemma RemovedStep(s: State, policy: Policy, step: Step, o: Observer)
    ensures o in Next(s, policy, step).removed <==> o in s.removed || (step == Remove(o) && o in s.observers)
  {
    match step
    case Check(t, at) => CheckStays(s, policy, t, at);
    case _ =>
  }

  lemma {:induction false} RemovedExactly(policy: Policy, script: seq<Step>, o: Observer)
    ensures o in Run(policy, script).removed <==> EverTakenOut(policy, script, o)
  {
    if script != [] {
      var n := |script| - 1;
      RemovedExactly(policy, script[..n], o);
      RegisteredExactly(policy, script[..n], o);
      RemovedStep(Run(policy, script[..n]), policy, script[n], o);
    }
  }

  function Notifies(script: seq<Step>): nat {
    if script == [] then 0 else Notifies(script[..|script| - 1]) + if script[|script| - 1].Notify? then 1 else 0
  }

  lemma {:induction false} NotesAreCounted(policy: Policy, script: seq<Step>)
    ensures |Run(policy, script).log.snapshots| == Notifies(script)
  {
    if script != [] {
      var init, step := script[..|script| - 1], script[|script| - 1];
      NotesAreCounted(policy, init);
      if !step.Add? && !step.Notify? { QuietStep(Run(policy, init), policy, step); }
    }
  }

  // ----- For whom a notification is meant -----

  /** The step, taken after `script`, means the notification for the observer on that sequence: a Notify while it is
      registered there or, under policy ALL, its addition there inside a dispatch of the notification. */
  ghost predicate Sends(policy: Policy, script: seq<Step>, step: Step, t: Task) {
    var registered := RegisteredOn(policy, script, t.observer);
    || (step.Notify? && t.note == Notifies(script) && registered == Some(t.home))
    || (&& policy.All? && step.Add? && step.observer == t.observer && step.on == t.home
        && registered.None? && step.thread !in Run(policy, script).entering
        && InnermostIs(policy, script, step.thread, t.note))
  }

  ghost predicate MeantFor(policy: Policy, script: seq<Step>, t: Task) {
    script != [] &&
    var init, step := script[..|script| - 1], script[|script| - 1];
    MeantFor(policy, init, t) || Sends(policy, init, step, t)
  }

  lemma NotifyMeans(policy: Policy, script: seq<Step>, t: Task)
    ensures
      var s := Run(policy, script);
      Meant(Next(s, policy, Notify).log, policy, t) <==> Meant(s.log, policy, t) || Sends(policy, script, Notify, t)
  {
    RegisteredExactly(policy, script, t.observer);
    NotesAreCounted(policy, script);
  }

  /** The addition joins the dispatch that the task is of. */
  predicate Joins(s: State, o: Observer, q: Sequence, th: Thread, t: Task) {
    o == t.observer && q == t.home && o !in s.observers && th !in s.entering && Dispatches(s, th, t.note)
  }

  lemma AddJoins(s: State, policy: Policy, o: Observer, q: Sequence, th: Thread, t: Task)
    ensures
      Meant(Next(s, policy, Add(o, q, th)).log, policy, t)
      <==> Meant(s.log, policy, t) || (policy.All? && Joins(s, o, q, th, t))
  {
  }

  lemma AddMeans(policy: Policy, script: seq<Step>, o: Observer, q: Sequence, th: Thread, t: Task)
    ensures Sends(policy, script, Add(o, q, th), t) <==> policy.All? && Joins(Run(policy, script), o, q, th, t)
  {
    RegisteredExactly(policy, script, t.observer);
    InnermostIsDispatched(policy, script, th, t.note);
  }

  /** The recorded history means what the script says. */
  lemma {:induction false} MeantExactly(policy: Policy, script: seq<Step>, t: Task)
    ensures Meant(Run(policy, script).log, policy, t) <==> MeantFor(policy, script, t)
  {
    if script != [] {
      var n := |script| - 1;
      var init, step := script[..n], script[n];
      MeantExactly(policy, init, t);
      match step
      case Notify => NotifyMeans(policy, init, t);
      case Add(o, q, th) =>
        AddMeans(policy, init, o, q, th, t);
        AddJoins(Run(policy, init), policy, o, q, th, t);
      case _ => QuietStep(Run(policy, init), policy, step);
    }
  }

  /**
   * Once everything has run, in any interleaving, an observer that was never taken out has heard exactly once each
   * notification that was sent while it was registered or that, under policy ALL, it was added inside of, however
   * dispatches were nested; and no other.
   */
  lemma DeliveredAsScripted(policy: Policy, script: seq<Step>, t: Task)
    requires Drained(Run(policy, script)) && !EverTakenOut(policy, script, t.observer)
    ensures Run(policy, script).started[t] == if MeantFor(policy, script, t) then 1 else 0
  {
    RemovedExactly(policy, script, t.observer);
    MeantExactly(policy, script, t);
    DeliveredExactlyOnce(policy, script, t);
  }
}

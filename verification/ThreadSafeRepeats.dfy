/** When an observer that was put back inside a dispatch comes to hear that notification twice. */
module ThreadSafeRepeats {
  import opened ObserverPolicy
  import Seqs
  import opened ThreadSafeObservers
  import opened ThreadSafeRejoining

  // ----- Tasks about to call back -----

  /** Every task that is about to call back has its thread. */
  ghost predicate Entered(checked: multiset<Task>, entering: map<Thread, Task>) {
    forall t :: |Entering(entering, t)| == checked[t]
  }

  function Entering(entering: map<Thread, Task>, t: Task): set<Thread> {
    set th | th in entering && entering[th] == t
  }

  lemma OneMoreEntering(entering: map<Thread, Task>, t: Task, th: Thread, u: Task)
    requires th !in entering
    ensures |Entering(entering[th := t], u)| == |Entering(entering, u)| + if u == t then 1 else 0
  {
    var was, now := Entering(entering, u), Entering(entering[th := t], u);
    if u == t { assert now == was + {th}; } else { assert now == was; }
  }

  lemma OneLessEntering(entering: map<Thread, Task>, th: Thread, u: Task)
    requires th in entering
    ensures |Entering(entering - {th}, u)| == |Entering(entering, u)| - if u == entering[th] then 1 else 0
  {
    var was, now := Entering(entering, u), Entering(entering - {th}, u);
    if u == entering[th] { assert now == was - {th} && th in was; } else { assert now == was; }
  }

  lemma CheckKeepsEntered(checked: multiset<Task>, entering: map<Thread, Task>, t: Task, th: Thread)
    requires Entered(checked, entering) && th !in entering
    ensures Entered(checked + multiset{t}, entering[th := t])
  {
    forall u ensures |Entering(entering[th := t], u)| == (checked + multiset{t})[u] {
      OneMoreEntering(entering, t, th, u);
      assert |Entering(entering, u)| == checked[u];
    }
  }

  lemma InvokeKeepsEntered(checked: multiset<Task>, entering: map<Thread, Task>, t: Task, th: Thread)
    requires Entered(checked, entering) && th in entering && entering[th] == t
    ensures t in checked && Entered(checked - multiset{t}, entering - {th})
  {
    OneLessEntering(entering, th, t);
    assert |Entering(entering, t)| == checked[t];
    forall u ensures |Entering(entering - {th}, u)| == (checked - multiset{t})[u] {
      OneLessEntering(entering, th, u);
      assert |Entering(entering, u)| == checked[u];
    }
  }

  lemma StepKeepsEntered(s: State, policy: Policy, step: Step)
    requires Entered(s.checked, s.entering)
    ensures var s' := Next(s, policy, step); Entered(s'.checked, s'.entering)
  {
    if step.Check? && step.thread !in s.entering {
      CheckKeepsEntered(s.checked, s.entering, step.task, step.thread);
    } else if step.Invoke? && step.thread in s.entering {
      InvokeKeepsEntered(s.checked, s.entering, s.entering[step.thread], step.thread);
    }
  }

  lemma {:induction false} RunKeepsEntered(policy: Policy, script: seq<Step>)
    ensures var s := Run(policy, script); Entered(s.checked, s.entering)
  {
    if script != [] {
      RunKeepsEntered(policy, script[..|script| - 1]);
      StepKeepsEntered(Run(policy, script[..|script| - 1]), policy, script[|script| - 1]);
    }
  }

  /** Tasks run and callbacks return; nothing else happens to the list. */
  predicate OnlyRuns(more: seq<Step>) {
    forall i | 0 <= i < |more| :: more[i].Check? || more[i].Invoke? || more[i].Leave?
  }

  function Live(s: State): multiset<Task> { s.pending + s.checked + s.started }

  lemma CheckShrinksLive(s: State, policy: Policy, t: Task, th: Thread)
    ensures Live(Next(s, policy, Check(t, th))) <= Live(s)
  {
  }

  lemma InvokeKeepsLive(s: State, policy: Policy, th: Thread)
    ensures Live(Next(s, policy, Invoke(th))) == Live(s)
  {
  }

  lemma RunningShrinksLive(s: State, policy: Policy, step: Step)
    requires step.Check? || step.Invoke? || step.Leave?
    ensures Live(Next(s, policy, step)) <= Live(s)
  {
    match step
    case Check(t, th) => CheckShrinksLive(s, policy, t, th);
    case Invoke(th) => InvokeKeepsLive(s, policy, th);
    case Leave(_) =>
  }

  lemma {:induction false} RunsShrinkLive(policy: Policy, script: seq<Step>, more: seq<Step>)
    requires OnlyRuns(more)
    ensures Live(Run(policy, script + more)) <= Live(Run(policy, script))
  {
    if more == [] {
      Seqs.Whole(script);
    } else {
      var n := |more| - 1;
      RunsShrinkLive(policy, script, more[..n]);
      Seqs.Snoc(more);
      Seqs.Associates(script, more[..n], [more[n]]);
      OneStep(policy, script + more[..n], more[n]);
      RunningShrinksLive(Run(policy, script + more[..n]), policy, more[n]);
    }
  }

  /** The observer has heard the notification at least twice. */
  ghost predicate HeardTwice(started: multiset<Task>, o: Observer, n: Note) {
    exists t, u ::
      && t in started && u in started && SameNews(t, u) && t.observer == o && t.note == n
      && (t == u ==> started[t] >= 2)
  }

  ghost predicate LiveNews(s: State, o: Observer, n: Note) { exists t | t in Live(s) :: t.observer == o && t.note == n }

  // ----- One task at a time -----

  /** No callback is running or about to. */
  ghost predicate Idle(s: State) {
    s.entering == map[] && forall th | th in s.dispatching :: s.dispatching[th] == []
  }

  /** Every task that begins to run finds everything idle. */
  ghost predicate Serial(policy: Policy, script: seq<Step>, more: seq<Step>) {
    more != [] ==>
      var n := |more| - 1;
      Serial(policy, script, more[..n]) && (more[n].Check? ==> Idle(Run(policy, script + more[..n])))
  }

  lemma {:induction false} SerialJoins(policy: Policy, script: seq<Step>, a: seq<Step>, b: seq<Step>)
    requires Serial(policy, script, a) && Serial(policy, script + a, b)
    ensures Serial(policy, script, a + b)
  {
    if b == [] {
      Seqs.Whole(a);
    } else {
      var n := |b| - 1;
      SerialJoins(policy, script, a, b[..n]);
      Seqs.Snoc(b);
      Seqs.Associates(a, b[..n], [b[n]]);
      Seqs.TakeAppended(a + b[..n], [b[n]]);
      Seqs.Associates(script, a, b[..n]);
    }
  }

  /** Tasks run, one at a time. */
  ghost predicate Continues(policy: Policy, script: seq<Step>, more: seq<Step>) {
    OnlyRuns(more) && Serial(policy, script, more)
  }

  lemma ContinuesJoins(policy: Policy, script: seq<Step>, a: seq<Step>, b: seq<Step>)
    requires Continues(policy, script, a) && Continues(policy, script + a, b)
    ensures Continues(policy, script, a + b) && script + (a + b) == script + a + b
  {
    SerialJoins(policy, script, a, b);
    Seqs.Associates(script, a, b);
  }

  lemma ContinuesOne(policy: Policy, script: seq<Step>, step: Step)
    requires if step.Check? then Idle(Run(policy, script)) else step.Invoke? || step.Leave?
    ensures Continues(policy, script, [step]) && Run(policy, script + [step]) == Next(Run(policy, script), policy, step)
  {
    OneStep(policy, script, step);
    Seqs.Whole(script);
    assert [step][..0] == [];
  }

  lemma ContinuesNone(policy: Policy, script: seq<Step>)
    ensures Continues(policy, script, []) && script + [] == script
  {
  }

  /** Callbacks that were about to run may have; nothing else has changed but where threads are. */
  ghost predicate Settles(s: State, s': State) {
    && s'.observers == s.observers && s'.pending == s.pending
    && s'.checked + s'.started == s.checked + s.started && s.started <= s'.started
  }

  lemma SettlesChains(a: State, b: State, c: State)
    requires Settles(a, b) && Settles(b, c)
    ensures Settles(a, c)
  {
  }

  lemma InvokeSettles(s: State, policy: Policy, th: Thread)
    requires th in s.entering && s.entering[th] in s.checked
    ensures var s' := Next(s, policy, Invoke(th)); Settles(s, s') && s'.entering == s.entering - {th}
  {
  }

  lemma EnteringIsChecked(policy: Policy, script: seq<Step>, th: Thread)
    requires th in Run(policy, script).entering
    ensures var s := Run(policy, script); s.entering[th] in s.checked
  {
    RunKeepsEntered(policy, script);
    var s := Run(policy, script);
    assert th in Entering(s.entering, s.entering[th]);
  }

  lemma {:induction false} EnterAll(policy: Policy, script: seq<Step>) returns (more: seq<Step>)
    ensures Continues(policy, script, more)
    ensures var s' := Run(policy, script + more); Settles(Run(policy, script), s') && s'.entering == map[]
    decreases |Run(policy, script).entering|
  {
    var s := Run(policy, script);
    if s.entering == map[] {
      ContinuesNone(policy, script);
      return [];
    }
    var th :| th in s.entering;
    EnteringIsChecked(policy, script, th);
    InvokeSettles(s, policy, th);
    ContinuesOne(policy, script, Invoke(th));
    var next := script + [Invoke(th)];
    assert Run(policy, next).entering.Keys == s.entering.Keys - {th};
    var rest := EnterAll(policy, next);
    ContinuesJoins(policy, script, [Invoke(th)], rest);
    SettlesChains(s, Run(policy, next), Run(policy, next + rest));
    more := [Invoke(th)] + rest;
  }

  /** Threads whose thread-local is set. */
  function Busy(dispatching: map<Thread, seq<Frame>>): set<Thread> {
    set th | th in dispatching && dispatching[th] != []
  }

  lemma LeaveSettles(s: State, policy: Policy, th: Thread)
    requires th in Busy(s.dispatching) && s.entering == map[]
    ensures var s', stack := Next(s, policy, Leave(th)), Stack(s, th); Popped(s, s', th, stack[..|stack| - 1])
  {
  }

  ghost predicate Popped(s: State, s': State, th: Thread, stack: seq<Frame>) {
    Settles(s, s') && s'.entering == map[] && s'.dispatching == s.dispatching[th := stack]
  }

  ghost predicate Left(s: State, s': State, th: Thread) { Popped(s, s', th, []) }

  lemma LeftChains(s: State, m: State, s': State, th: Thread)
    requires th in m.dispatching && Popped(s, m, th, m.dispatching[th]) && Left(m, s', th)
    ensures Left(s, s', th)
  {
    SettlesChains(s, m, s');
    assert s.dispatching[th := m.dispatching[th]][th := []] == s.dispatching[th := []];
  }

  /** The thread's callbacks return, the innermost first. */
  lemma {:induction false} LeaveThread(policy: Policy, script: seq<Step>, th: Thread) returns (more: seq<Step>)
    requires var s := Run(policy, script); s.entering == map[] && th in s.dispatching
    ensures Continues(policy, script, more)
    ensures Left(Run(policy, script), Run(policy, script + more), th)
    decreases |Run(policy, script).dispatching[th]|
  {
    var s := Run(policy, script);
    if s.dispatching[th] == [] {
      ContinuesNone(policy, script);
      return [];
    }
    LeaveSettles(s, policy, th);
    ContinuesOne(policy, script, Leave(th));
    var next := script + [Leave(th)];
    var rest := LeaveThread(policy, next, th);
    ContinuesJoins(policy, script, [Leave(th)], rest);
    LeftChains(s, Run(policy, next), Run(policy, next + rest), th);
    more := [Leave(th)] + rest;
  }

  lemma {:induction false} LeaveAll(policy: Policy, script: seq<Step>) returns (more: seq<Step>)
    requires Run(policy, script).entering == map[]
    ensures Continues(policy, script, more)
    ensures var s' := Run(policy, script + more); Settles(Run(policy, script), s') && Idle(s')
    decreases |Busy(Run(policy, script).dispatching)|
  {
    var s := Run(policy, script);
    if Busy(s.dispatching) == {} {
      ContinuesNone(policy, script);
      forall th | th in s.dispatching ensures s.dispatching[th] == [] { assert th !in Busy(s.dispatching); }
      return [];
    }
    var th :| th in Busy(s.dispatching);
    var first := LeaveThread(policy, script, th);
    assert Busy(s.dispatching[th := []]) == Busy(s.dispatching) - {th};
    var rest := LeaveAll(policy, script + first);
    ContinuesJoins(policy, script, first, rest);
    SettlesChains(s, Run(policy, script + first), Run(policy, script + first + rest));
    more := first + rest;
  }

  lemma NoneChecked(policy: Policy, script: seq<Step>)
    requires Run(policy, script).entering == map[]
    ensures Run(policy, script).checked == multiset{}
  {
    RunKeepsEntered(policy, script);
    var s := Run(policy, script);
    forall t ensures s.checked[t] == 0 { assert Entering(s.entering, t) == {}; }
  }

  /** Everything under way can finish, and then nothing is about to call back. */
  lemma Settled(policy: Policy, script: seq<Step>) returns (more: seq<Step>)
    ensures Continues(policy, script, more)
    ensures
      var s, s' := Run(policy, script), Run(policy, script + more);
      Settles(s, s') && Idle(s') && s'.checked == multiset{}
  {
    var first := EnterAll(policy, script);
    var rest := LeaveAll(policy, script + first);
    ContinuesJoins(policy, script, first, rest);
    SettlesChains(Run(policy, script), Run(policy, script + first), Run(policy, script + first + rest));
    more := first + rest;
    NoneChecked(policy, script + more);
  }

  ghost predicate Starts(s: State, s': State, t: Task) {
    && s'.started == s.started + multiset{t} && s'.pending == s.pending - multiset{t}
    && s'.observers == s.observers && s'.checked == s.checked
  }

  lemma TaskRuns(s: State, policy: Policy, t: Task)
    requires t in s.pending && t.observer in s.observers && Idle(s)
    ensures
      var s' := Next(Next(Next(s, policy, Check(t, 0)), policy, Invoke(0)), policy, Leave(0));
      Starts(s, s', t) && Idle(s')
  {
  }

  /** A waiting task of a registered observer can run from beginning to end. */
  lemma CanStart(policy: Policy, script: seq<Step>, t: Task) returns (more: seq<Step>)
    requires var s := Run(policy, script); t in s.pending && t.observer in s.observers && Idle(s)
    ensures Continues(policy, script, more)
    ensures var s' := Run(policy, script + more); Starts(Run(policy, script), s', t) && Idle(s')
  {
    TaskRuns(Run(policy, script), policy, t);
    var a, b, c := [Check(t, 0)], [Invoke(0)], [Leave(0)];
    ContinuesOne(policy, script, Check(t, 0));
    ContinuesOne(policy, script + a, Invoke(0));
    ContinuesOne(policy, script + a + b, Leave(0));
    ContinuesJoins(policy, script, a, b);
    ContinuesJoins(policy, script, a + b, c);
    more := a + b + c;
  }

  /** With nothing under way, one waiting task runs, and another with the same news, unless it has already. */
  lemma HeardTwiceFromIdle(policy: Policy, script: seq<Step>, t: Task, u: Task) returns (more: seq<Step>)
    requires SameNews(t, u)
    requires var s := Run(policy, script); Idle(s) && u in s.pending && u.observer in s.observers
    requires var s := Run(policy, script); t in s.pending + s.started && (t == u ==> (s.pending + s.started)[u] >= 2)
    ensures Continues(policy, script, more)
    ensures HeardTwice(Run(policy, script + more).started, u.observer, u.note)
  {
    var s := Run(policy, script);
    more := CanStart(policy, script, u);
    var s1 := Run(policy, script + more);
    assert u in s1.started && s1.pending + s1.started == s.pending + s.started;
    if t !in s1.started || (t == u && s1.started[t] < 2) {
      assert t in s1.pending;
      var again := CanStart(policy, script + more, t);
      ContinuesJoins(policy, script, more, again);
      more := more + again;
      assert Run(policy, script + more).started == s1.started + multiset{t};
    }
  }

  lemma HeardTwiceIfLive(policy: Policy, script: seq<Step>, t: Task, u: Task) returns (more: seq<Step>)
    requires SameNews(t, u) && u.observer in Run(policy, script).observers
    requires var s := Run(policy, script); u in s.pending && t in Live(s) && (t == u ==> Live(s)[u] >= 2)
    ensures Continues(policy, script, more)
    ensures HeardTwice(Run(policy, script + more).started, u.observer, u.note)
  {
    var first := Settled(policy, script);
    LiveWhenSettled(Run(policy, script), Run(policy, script + first));
    var rest := HeardTwiceFromIdle(policy, script + first, t, u);
    ContinuesJoins(policy, script, first, rest);
    more := first + rest;
  }

  lemma LiveWhenSettled(s: State, s': State)
    requires Settles(s, s') && s'.checked == multiset{}
    ensures s'.pending + s'.started == Live(s)
  {
    assert s.pending + (s.checked + s.started) == Live(s);
  }

  lemma JoiningIs(s: State, o: Observer, q: Sequence, th: Thread, n: Note)
    requires Dispatches(s, th, n) && o !in s.observers && th !in s.entering
    ensures
      var s', joining := Next(s, All, Add(o, q, th)), multiset{Task(o, n, q)};
      s'.pending == s.pending + joining && Live(s') == Live(s) + joining && o in s'.observers
  {
  }

  lemma NotHeardTwice(policy: Policy, script: seq<Step>, more: seq<Step>, u: Task)
    requires OnlyRuns(more)
    requires Live(Run(policy, script))[u] <= 1
    requires forall t | t in Live(Run(policy, script)) && SameNews(t, u) :: t == u
    ensures !HeardTwice(Run(policy, script + more).started, u.observer, u.note)
  {
    RunsShrinkLive(policy, script, more);
    var s, s' := Run(policy, script), Run(policy, script + more);
    forall t ensures s'.started[t] <= Live(s)[t] { assert Live(s')[t] <= Live(s)[t]; }
  }

  /**
   * An observer put back inside a dispatch can come to hear that notification twice if and only if the first time it
   * was posted to the observer it was not dropped: that call is still waiting, about to be made, or was made. It can
   * even if from then on all callbacks return before the next task begins.
   */
  lemma HeardTwiceExactly(script: seq<Step>, o: Observer, q: Sequence, th: Thread, n: Note)
    requires var s := Run(All, script); o !in s.observers && th !in s.entering && Dispatches(s, th, n)
    ensures
      (exists more | OnlyRuns(more) :: HeardTwice(Run(All, script + [Add(o, q, th)] + more).started, o, n))
      <==> LiveNews(Run(All, script), o, n)
    ensures
      LiveNews(Run(All, script), o, n) ==>
        exists more | Continues(All, script + [Add(o, q, th)], more) ::
          HeardTwice(Run(All, script + [Add(o, q, th)] + more).started, o, n)
  {
    var s, joined, u := Run(All, script), script + [Add(o, q, th)], Task(o, n, q);
    OneStep(All, script, Add(o, q, th));
    JoiningIs(s, o, q, th, n);
    if LiveNews(s, o, n) {
      var t :| t in Live(s) && t.observer == o && t.note == n;
      var more := HeardTwiceIfLive(All, joined, t, u);
      assert Continues(All, joined, more) && HeardTwice(Run(All, joined + more).started, o, n);
    } else {
      assert u !in Live(s);
      forall more | OnlyRuns(more) ensures !HeardTwice(Run(All, joined + more).started, o, n) {
        NotHeardTwice(All, joined, more, u);
      }
    }
  }
}

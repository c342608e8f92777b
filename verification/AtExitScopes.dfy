/** What happens between the construction of an AtExitManager and its destruction: everything registered in between
    is run by that manager, in reverse, and nothing else is touched. */
module AtExitScopes {
  import opened AtExit
  import LazyProtocol
  import Seqs

  /** Registers something in any case: a task, or an instance that is used for the first time. */
  predicate Registers(lazies: seq<Lazy>, op: Op) {
    match op
    case AddTask(_) => true
    case Use(i, address) =>
      i < |lazies| && !LazyProtocol.Created(lazies[i].word) && LazyProtocol.Created(address)
    case _ => false
  }

  /** No instance is used twice. */
  ghost predicate UsedOnce(ops: seq<Op>) {
    forall j, k | 0 <= j < k < |ops| && ops[j].Use? && ops[k].Use? :: ops[j].lazy != ops[k].lazy
  }

  ghost predicate Body(w: World, ops: seq<Op>) {
    UsedOnce(ops) && forall k | 0 <= k < |ops| :: Registers(w.lazies, ops[k])
  }

  function CallbackOf(op: Op): Callback { if op.Use? then OnExit(op.lazy) else Task(if op.AddTask? then op.id else 0) }

  function Callbacks(ops: seq<Op>): (cbs: seq<Callback>)
    ensures |cbs| == |ops|
  {
    seq(|ops|, k requires 0 <= k < |ops| => CallbackOf(ops[k]))
  }

  ghost predicate Uses(ops: seq<Op>, i: nat) { exists k | 0 <= k < |ops| :: ops[k].Use? && ops[k].lazy == i }

  // ----- While the manager lives -----

  /** A manager has been put on top that holds these callbacks; the instances they belong to exist. */
  ghost predicate Inside(w: World, w': World, ops: seq<Op>) {
    && w'.managers == w.managers + [Callbacks(ops)] && w'.log == w.log && w'.disabled == w.disabled
    && |w'.lazies| == |w.lazies|
    && forall i | 0 <= i < |w.lazies| ::
         var l, l' := w.lazies[i], w'.lazies[i];
         if Uses(ops, i) then l'.constructed == l.constructed + 1 && l'.destroyed == l.destroyed else l' == l
  }

  lemma UsesStep(ops: seq<Op>, op: Op, i: nat)
    ensures Uses(ops + [op], i) <==> Uses(ops, i) || (op.Use? && op.lazy == i)
  {
    var all := ops + [op];
    if Uses(ops, i) {
      var k :| 0 <= k < |ops| && ops[k].Use? && ops[k].lazy == i;
      assert all[k] == ops[k];
    }
    if op.Use? && op.lazy == i { assert all[|ops|] == op; }
  }

  lemma RegisteredOnTop(w: World, w': World, ops: seq<Op>, op: Op)
    requires Inside(w, w', ops) && Registers(w.lazies, op) && (op.Use? ==> !Uses(ops, op.lazy))
    ensures Inside(w, Apply(w', op), ops + [op])
  {
    var cbs := Callbacks(ops);
    assert Callbacks(ops + [op]) == cbs + [CallbackOf(op)];
    assert (w.managers + [cbs])[|w.managers| := cbs + [CallbackOf(op)]] == w.managers + [cbs + [CallbackOf(op)]];
    forall i: nat ensures Uses(ops + [op], i) <==> Uses(ops, i) || (op.Use? && op.lazy == i) { UsesStep(ops, op, i); }
  }

  lemma NotUsedBefore(ops: seq<Op>)
    requires ops != [] && UsedOnce(ops) && ops[|ops| - 1].Use?
    ensures !Uses(ops[..|ops| - 1], ops[|ops| - 1].lazy)
  {
  }

  lemma {:induction false} InsideAfter(w: World, ops: seq<Op>)
    requires Body(w, ops)
    ensures Inside(w, ApplyAll(w, [NewManager] + ops), ops)
  {
    if ops == [] {
      Seqs.Whole([NewManager]);
      assert ApplyAll(w, [NewManager][..0]) == w;
    } else {
      var n := |ops| - 1;
      InsideAfter(w, ops[..n]);
      Seqs.Snoc(ops);
      Seqs.Associates([NewManager], ops[..n], [ops[n]]);
      Seqs.TakeAppended([NewManager] + ops[..n], [ops[n]]);
      if ops[n].Use? { NotUsedBefore(ops); }
      RegisteredOnTop(w, ApplyAll(w, [NewManager] + ops[..n]), ops[..n], ops[n]);
    }
  }

  // ----- When it dies -----

  lemma {:induction false} RunAllDestroys(w: World, tasks: seq<Callback>, i: nat)
    requires i < |w.lazies|
    ensures
      var w', n := RunAll(w, tasks), multiset(tasks)[OnExit(i)];
      |w'.lazies| == |w.lazies| && var l := w.lazies[i];
      w'.lazies[i] == if n == 0 then l else Lazy(0, l.constructed, l.destroyed + n)
    decreases |tasks|
  {
    if tasks != [] {
      var n := |tasks| - 1;
      RunAllDestroys(RunOne(w, tasks[n]), tasks[..n], i);
      Seqs.Snoc(tasks);
      assert multiset(tasks) == multiset(tasks[..n]) + multiset{tasks[n]};
    }
  }

  lemma {:induction false} OnceEach(ops: seq<Op>, i: nat)
    requires UsedOnce(ops) && forall k | 0 <= k < |ops| :: ops[k].Use? || ops[k].AddTask?
    ensures multiset(Callbacks(ops))[OnExit(i)] == if Uses(ops, i) then 1 else 0
  {
    if ops != [] {
      var n := |ops| - 1;
      var init, op := ops[..n], ops[n];
      OnceEach(init, i);
      Seqs.Snoc(ops);
      assert Callbacks(ops) == Callbacks(init) + [CallbackOf(op)];
      UsesStep(init, op, i);
      if op.Use? { NotUsedBefore(ops); }
    }
  }

  lemma {:induction false} ReversedAt(s: seq<Callback>, k: nat)
    requires k < |s|
    ensures |Reversed(s)| == |s| && Reversed(s)[k] == s[|s| - 1 - k]
    decreases |s|
  {
    var n := |s| - 1;
    if k > 0 { ReversedAt(s[..n], k - 1); } else if n > 0 { ReversedAt(s[..n], 0); }
  }

  /** The callbacks of the operations, the last operation's first. */
  ghost predicate LastFirst(ran: seq<Callback>, ops: seq<Op>) {
    |ran| == |ops| && forall k | 0 <= k < |ran| :: ran[k] == CallbackOf(ops[|ops| - 1 - k])
  }

  /** Back where the scope began, but for the log and the counts of the instances that came and went. */
  ghost predicate Outside(w: World, w': World, ops: seq<Op>) {
    && w'.managers == w.managers && w'.disabled == w.disabled
    && |w'.log| == |w.log| + |ops| && w'.log[..|w.log|] == w.log
    && LastFirst(w'.log[|w.log|..], ops)
    && |w'.lazies| == |w.lazies|
    && forall i | 0 <= i < |w.lazies| ::
         var l, l' := w.lazies[i], w'.lazies[i];
         l' == if Uses(ops, i) then Lazy(0, l.constructed + 1, l.destroyed + 1) else l
  }

  lemma LogIsReversed(log: seq<Callback>, log': seq<Callback>, ops: seq<Op>)
    requires log' == log + Reversed(Callbacks(ops))
    ensures |log'| == |log| + |ops| && log'[..|log|] == log && LastFirst(log'[|log|..], ops)
  {
    var cbs := Callbacks(ops);
    if ops == [] { assert cbs == []; } else { ReversedAt(cbs, 0); }
    var ran := log'[|log|..];
    assert ran == Reversed(cbs);
    forall k | 0 <= k < |ran| ensures ran[k] == CallbackOf(ops[|ops| - 1 - k]) { ReversedAt(cbs, k); }
  }

  lemma LeavesScope(w: World, w': World, ops: seq<Op>)
    requires Body(w, ops) && Inside(w, w', ops) && !w.disabled
    ensures Outside(w, Apply(w', EndManager), ops)
  {
    var top := |w.managers|;
    var cbs, inner, w2 := Callbacks(ops), w'.(managers := w'.managers[top := []]), Apply(w', EndManager);
    assert w'.managers[..top] == w.managers && w'.managers[top] == cbs;
    DestroyRunsInReverse(w');
    RunAllLogs(inner, cbs);
    LogIsReversed(w.log, w2.log, ops);
    assert w2.lazies == RunAll(inner, cbs).lazies;
    forall i | 0 <= i < |w.lazies|
      ensures
        var l := w.lazies[i];
        w2.lazies[i] == if Uses(ops, i) then Lazy(0, l.constructed + 1, l.destroyed + 1) else l
    {
      RunAllDestroys(inner, cbs, i);
      OnceEach(ops, i);
    }
  }

  /**
   * Whatever managers there are and whatever they hold, a manager that is constructed runs, when it is destroyed,
   * exactly what was registered in between, last first. Every instance first used in between is gone again, and the
   * managers below are as they were.
   */
  lemma ScopeRunsItsOwn(w: World, ops: seq<Op>)
    requires Body(w, ops) && !w.disabled
    ensures Outside(w, ApplyAll(w, [NewManager] + ops + [EndManager]), ops)
  {
    InsideAfter(w, ops);
    Seqs.TakeAppended([NewManager] + ops, [EndManager]);
    LeavesScope(w, ApplyAll(w, [NewManager] + ops), ops);
  }
}

/** The stack of AtExitManagers together with DestructorAtExit lazy instances: who registers a destructor,
    in what order destructors run, and what that does to each instance's state word. Exit is single-threaded
    and callbacks register nothing while they run. */
module AtExit {
  import LazyProtocol

  /** A registered callback: LazyInstance::OnExit of one instance, or any other task. */
  datatype Callback = OnExit(lazy: nat) | Task(id: nat)

  /** One LazyInstance: its state word and how often its object was constructed and destroyed. */
  datatype Lazy = Lazy(word: int, constructed: nat, destroyed: nat)

  datatype World = World(
    managers: seq<seq<Callback>>,  // one callback stack per manager; the top manager is last
    disabled: bool,                // g_disable_managers
    lazies: seq<Lazy>,
    log: seq<Callback>)            // callbacks in the order they ran

  function Start(lazies: nat): World { World([], false, seq(lazies, i => Lazy(0, 0, 0)), []) }

  // ----- The operations as functions of the world -----

  function Register(w: World, cb: Callback): World {
    if w.managers == [] then w
    else
      var top := |w.managers| - 1;
      w.(managers := w.managers[top := w.managers[top] + [cb]])
  }

  /** LazyInstance::Pointer: constructs at `address` on first use and registers OnExit. */
  function Pointer(w: World, i: nat, address: int): World {
    if i >= |w.lazies| || LazyProtocol.Created(w.lazies[i].word) then w
    else
      var l := w.lazies[i];
      Register(w.(lazies := w.lazies[i := Lazy(address, l.constructed + 1, l.destroyed)]), OnExit(i))
  }

  function RunOne(w: World, cb: Callback): World {
    var logged := w.(log := w.log + [cb]);
    match cb
    case OnExit(i) =>
      if i >= |w.lazies| then logged
      else logged.(lazies := w.lazies[i := Lazy(0, w.lazies[i].constructed, w.lazies[i].destroyed + 1)])
    case Task(_) => logged
  }

  /** Runs a callback stack from its top down. */
  function RunAll(w: World, tasks: seq<Callback>): World
    decreases |tasks|
  {
    if tasks == [] then w else RunAll(RunOne(w, tasks[|tasks| - 1]), tasks[..|tasks| - 1])
  }

  function ProcessCallbacks(w: World): World {
    if w.managers == [] then w
    else
      var top := |w.managers| - 1;
      RunAll(w.(managers := w.managers[top := []]), w.managers[top])
  }

  function DestroyManager(w: World): World {
    if w.managers == [] then w
    else
      var w' := if w.disabled then w else ProcessCallbacks(w);
      w'.(managers := w.managers[..|w.managers| - 1])
  }

  datatype Op =
    | NewManager | EndManager | AddTask(id: nat) | Use(lazy: nat, address: int) | ProcessNow | DisableAll

  function Apply(w: World, op: Op): World {
    match op
    case NewManager => w.(managers := w.managers + [[]])
    case EndManager => DestroyManager(w)
    case AddTask(id) => Register(w, Task(id))
    case Use(i, address) => Pointer(w, i, address)
    case ProcessNow => ProcessCallbacks(w)
    case DisableAll => w.(disabled := true)
  }

  function ApplyAll(w: World, ops: seq<Op>): World {
    if ops == [] then w else Apply(ApplyAll(w, ops[..|ops| - 1]), ops[|ops| - 1])
  }

  // ----- Order -----

  function Reversed(s: seq<Callback>): seq<Callback> {
    if s == [] then [] else [s[|s| - 1]] + Reversed(s[..|s| - 1])
  }

  lemma {:induction false} RunAllLogs(w: World, tasks: seq<Callback>)
    ensures var w' := RunAll(w, tasks);
            && w'.log == w.log + Reversed(tasks)
            && w'.managers == w.managers && w'.disabled == w.disabled && |w'.lazies| == |w.lazies|
    decreases |tasks|
  {
    if tasks != [] {
      RunAllLogs(RunOne(w, tasks[|tasks| - 1]), tasks[..|tasks| - 1]);
    }
  }

  /** A dying manager runs each of its callbacks once, last registered first, and the manager it shadowed is
      on top again with its callbacks untouched. */
  lemma DestroyRunsInReverse(w: World)
    requires w.managers != []
    ensures var w' := DestroyManager(w);
            && w'.managers == w.managers[..|w.managers| - 1]
            && w'.log == w.log + (if w.disabled then [] else Reversed(w.managers[|w.managers| - 1]))
  {
    var top := |w.managers| - 1;
    RunAllLogs(w.(managers := w.managers[top := []]), w.managers[top]);
  }

  /** ProcessCallbacksNow does the same to the top manager, disabled or not, and leaves it there. */
  lemma ProcessRunsInReverse(w: World)
    requires w.managers != []
    ensures var w', top := Apply(w, ProcessNow), |w.managers| - 1;
            && w'.managers == w.managers[top := []] && w'.disabled == w.disabled
            && w'.log == w.log + Reversed(w.managers[top])
  {
    var top := |w.managers| - 1;
    RunAllLogs(w.(managers := w.managers[top := []]), w.managers[top]);
  }

  // ----- Construction and destruction balance -----

  /** Every callback still to run, the next one last. */
  function Pending(managers: seq<seq<Callback>>): seq<Callback> {
    if managers == [] then [] else Pending(managers[..|managers| - 1]) + managers[|managers| - 1]
  }

  function Alive(l: Lazy): nat { if l.word == 0 then 0 else 1 }

  /** Constructions minus destructions is one exactly while the word holds a pointer, and an instance with
      a pending destructor (never more than one) is alive. `exact` adds that every live one has it. */
  ghost predicate Balanced(lazies: seq<Lazy>, pending: seq<Callback>, exact: bool) {
    forall i | 0 <= i < |lazies| ::
      && lazies[i].word != LazyProtocol.CREATING
      && lazies[i].constructed == lazies[i].destroyed + Alive(lazies[i])
      && multiset(pending)[OnExit(i)] <= Alive(lazies[i])
      && (exact ==> multiset(pending)[OnExit(i)] == Alive(lazies[i]))
  }

  lemma RunOneKeepsBalance(w: World, pending: seq<Callback>, cb: Callback, exact: bool)
    requires Balanced(w.lazies, pending + [cb], exact)
    ensures Balanced(RunOne(w, cb).lazies, pending, exact)
    ensures cb.OnExit? && cb.lazy < |w.lazies| ==> w.lazies[cb.lazy].word != 0
  {
    assert multiset(pending + [cb])[cb] >= 1;
  }

  lemma {:induction false} RunAllKeepsBalance(w: World, below: seq<Callback>, tasks: seq<Callback>, exact: bool)
    requires Balanced(w.lazies, below + tasks, exact)
    ensures Balanced(RunAll(w, tasks).lazies, below, exact)
    decreases |tasks|
  {
    if tasks == [] {
      assert below + tasks == below;
    } else {
      var rest, cb := tasks[..|tasks| - 1], tasks[|tasks| - 1];
      assert below + tasks == below + rest + [cb];
      RunOneKeepsBalance(w, below + rest, cb, exact);
      RunAllKeepsBalance(RunOne(w, cb), below, rest, exact);
    }
  }

  lemma PendingOfTop(managers: seq<seq<Callback>>, top: seq<Callback>)
    ensures Pending(managers + [top]) == Pending(managers) + top
  {
    assert (managers + [top])[..|managers|] == managers;
  }

  lemma PendingAfterRegister(w: World, cb: Callback)
    ensures Pending(Register(w, cb).managers) == Pending(w.managers) + if w.managers != [] then [cb] else []
    ensures Register(w, cb).lazies == w.lazies
  {
    if w.managers == [] {
      assert Pending(w.managers) + [] == Pending(w.managers);
    } else {
      var below, top := w.managers[..|w.managers| - 1], w.managers[|w.managers| - 1];
      assert Register(w, cb).managers == below + [top + [cb]];
      PendingOfTop(below, top + [cb]);
      assert Pending(below) + (top + [cb]) == Pending(w.managers) + [cb];
    }
  }

  lemma ProcessKeepsBalance(w: World, exact: bool)
    requires w.managers != [] && Balanced(w.lazies, Pending(w.managers), exact)
    ensures var w' := ProcessCallbacks(w);
            && Balanced(w'.lazies, Pending(w.managers[..|w.managers| - 1]), exact)
            && Pending(w'.managers) == Pending(w.managers[..|w.managers| - 1])
  {
    var below, top := w.managers[..|w.managers| - 1], w.managers[|w.managers| - 1];
    var cleared := w.(managers := w.managers[|w.managers| - 1 := []]);
    RunAllKeepsBalance(cleared, Pending(below), top, exact);
    RunAllLogs(cleared, top);
    assert cleared.managers == below + [[]];
    PendingOfTop(below, []);
  }

  lemma DroppingPending(lazies: seq<Lazy>, below: seq<Callback>, top: seq<Callback>)
    requires Balanced(lazies, below + top, false)
    ensures Balanced(lazies, below, false)
  {
    forall i | 0 <= i < |lazies| ensures multiset(below)[OnExit(i)] <= multiset(below + top)[OnExit(i)] {
      assert multiset(below + top) == multiset(below) + multiset(top);
    }
  }

  /** Operations that keep the exit machinery in charge: a manager exists whenever an instance is created,
      and the managers are not disabled. */
  ghost predicate Tidy(w: World, op: Op) {
    op != DisableAll && !w.disabled && (op.Use? ==> w.managers != [])
  }

  /** A new instance and, if some manager is there to take it, its callback. */
  lemma CreatingKeepsBalance(lazies: seq<Lazy>, p: seq<Callback>, i: nat, address: int, managed: bool, exact: bool)
    requires Balanced(lazies, p, exact) && LazyProtocol.Created(address) && (exact ==> managed)
    requires i < |lazies| && !LazyProtocol.Created(lazies[i].word)
    ensures
      Balanced(lazies[i := Lazy(address, lazies[i].constructed + 1, lazies[i].destroyed)],
               p + if managed then [OnExit(i)] else [], exact)
  {
    if managed {
      assert multiset(p + [OnExit(i)]) == multiset(p)[OnExit(i) := multiset(p)[OnExit(i)] + 1];
    } else {
      assert p + [] == p;
    }
  }

  lemma PointerIs(w: World, i: nat, address: int)
    requires i < |w.lazies| && !LazyProtocol.Created(w.lazies[i].word)
    ensures
      var w', l := Pointer(w, i, address), w.lazies[i];
      && w'.lazies == w.lazies[i := Lazy(address, l.constructed + 1, l.destroyed)]
      && Pending(w'.managers) == Pending(w.managers) + if w.managers != [] then [OnExit(i)] else []
  {
    var l := w.lazies[i];
    PendingAfterRegister(w.(lazies := w.lazies[i := Lazy(address, l.constructed + 1, l.destroyed)]), OnExit(i));
  }

  lemma PointerKeepsBalance(w: World, i: nat, address: int, exact: bool)
    requires Balanced(w.lazies, Pending(w.managers), exact)
    requires LazyProtocol.Created(address) && (exact ==> w.managers != [])
    ensures var w' := Pointer(w, i, address);
            Balanced(w'.lazies, Pending(w'.managers), exact) && |w'.lazies| == |w.lazies|
  {
    if i < |w.lazies| && !LazyProtocol.Created(w.lazies[i].word) {
      CreatingKeepsBalance(w.lazies, Pending(w.managers), i, address, w.managers != [], exact);
      PointerIs(w, i, address);
    }
  }

  lemma TaskKeepsBalance(lazies: seq<Lazy>, pending: seq<Callback>, id: nat, exact: bool)
    requires Balanced(lazies, pending, exact)
    ensures Balanced(lazies, pending + [Task(id)], exact)
  {
    assert multiset(pending + [Task(id)]) == multiset(pending)[Task(id) := multiset(pending)[Task(id)] + 1];
  }

  lemma DestroyKeepsBalance(w: World, exact: bool)
    requires Balanced(w.lazies, Pending(w.managers), exact) && (exact ==> !w.disabled)
    ensures var w' := DestroyManager(w);
            Balanced(w'.lazies, Pending(w'.managers), exact) && |w'.lazies| == |w.lazies|
  {
    if w.managers != [] {
      var top := |w.managers| - 1;
      if w.disabled {
        DroppingPending(w.lazies, Pending(w.managers[..top]), w.managers[top]);
      } else {
        ProcessKeepsBalance(w, exact);
        RunAllLogs(w.(managers := w.managers[top := []]), w.managers[top]);
      }
    }
  }

  lemma ApplyKeepsBalance(w: World, op: Op, exact: bool)
    requires Balanced(w.lazies, Pending(w.managers), exact)
    requires op.Use? ==> LazyProtocol.Created(op.address)
    requires exact ==> Tidy(w, op)
    ensures var w' := Apply(w, op); Balanced(w'.lazies, Pending(w'.managers), exact) && |w'.lazies| == |w.lazies|
  {
    match op
    case NewManager =>
      PendingOfTop(w.managers, []);
      assert Pending(w.managers) + [] == Pending(w.managers);
    case AddTask(id) =>
      if w.managers != [] {
        TaskKeepsBalance(w.lazies, Pending(w.managers), id, exact);
        PendingAfterRegister(w, Task(id));
      }
    case Use(i, address) => PointerKeepsBalance(w, i, address, exact);
    case DisableAll =>
    case EndManager => DestroyKeepsBalance(w, exact);
    case ProcessNow =>
      if w.managers != [] {
        ProcessKeepsBalance(w, exact);
        RunAllLogs(w.(managers := w.managers[|w.managers| - 1 := []]), w.managers[|w.managers| - 1]);
      }
  }

  /** Every operation of the run is tidy where it happens. */
  ghost predicate TidyRun(lazies: nat, ops: seq<Op>) {
    forall k | 0 <= k < |ops| :: Tidy(ApplyAll(Start(lazies), ops[..k]), ops[k])
  }

  /** In every run, each instance has been constructed once more often than destroyed exactly while its word
      holds a pointer, and a destructor is pending at most once and only for a live instance. */
  lemma {:induction false} RunsAreBalanced(lazies: nat, ops: seq<Op>, exact: bool)
    requires forall op | op in ops && op.Use? :: LazyProtocol.Created(op.address)
    requires exact ==> TidyRun(lazies, ops)
    ensures var w := ApplyAll(Start(lazies), ops);
            Balanced(w.lazies, Pending(w.managers), exact) && |w.lazies| == lazies
  {
    if ops != [] {
      var n := |ops| - 1;
      if exact {
        assert forall k | 0 <= k < n :: ops[..n][..k] == ops[..k] && ops[..n][k] == ops[k];
      }
      RunsAreBalanced(lazies, ops[..n], exact);
      ApplyKeepsBalance(ApplyAll(Start(lazies), ops[..n]), ops[n], exact);
    }
  }

  /** After a tidy run in which all managers have gone, no instance is left: everything that was constructed
      has been destroyed, the same number of times. */
  lemma EverythingDestroyedAtExit(lazies: nat, ops: seq<Op>)
    requires forall op | op in ops && op.Use? :: LazyProtocol.Created(op.address)
    requires TidyRun(lazies, ops) && ApplyAll(Start(lazies), ops).managers == []
    ensures forall l | l in ApplyAll(Start(lazies), ops).lazies :: l.word == 0 && l.constructed == l.destroyed
  {
    RunsAreBalanced(lazies, ops, true);
  }

  // ----- The code, updating the process-wide variables in place -----

  class ExitState {
    var managers: seq<seq<Callback>>
    var disabled: bool
    var lazies: seq<Lazy>
    var log: seq<Callback>

    function View(): World
      reads this
    {
      World(managers, disabled, lazies, log)
    }

    constructor (count: nat)
      ensures View() == Start(count)
    {
      managers, disabled, lazies, log := [], false, seq(count, i => Lazy(0, 0, 0)), [];
    }

    method ConstructManager()
      modifies this
      ensures View() == Apply(old(View()), NewManager)
    {
      managers := managers + [[]];
    }

    method RegisterTask(task: Callback)
      modifies this
      ensures View() == Register(old(View()), task)
    {
      if managers == [] { return; }
      var top := |managers| - 1;
      managers := managers[top := managers[top] + [task]];
    }

    method Run(task: Callback)
      modifies this
      ensures View() == RunOne(old(View()), task)
    {
      log := log + [task];
      if task.OnExit? && task.lazy < |lazies| {
        var me := lazies[task.lazy];
        lazies := lazies[task.lazy := me.(destroyed := me.destroyed + 1)];
        lazies := lazies[task.lazy := lazies[task.lazy].(word := 0)];
      }
    }

    method ProcessCallbacksNow()
      modifies this
      ensures View() == ProcessCallbacks(old(View()))
    {
      if managers == [] { return; }
      var top := |managers| - 1;
      var tasks := managers[top];
      managers := managers[top := []];
      while tasks != []
        invariant RunAll(View(), tasks) == ProcessCallbacks(old(View()))
        decreases |tasks|
      {
        Run(tasks[|tasks| - 1]);
        tasks := tasks[..|tasks| - 1];
      }
    }

    method DestructManager()
      modifies this
      ensures View() == DestroyManager(old(View()))
    {
      if managers == [] { return; }
      if !disabled {
        RunAllLogs(View().(managers := managers[|managers| - 1 := []]), managers[|managers| - 1]);
        ProcessCallbacksNow();
      }
      managers := managers[..|managers| - 1];
    }

    method GetPointer(i: nat, address: int) returns (p: int)
      requires i < |lazies| && LazyProtocol.Created(address) && lazies[i].word != LazyProtocol.CREATING
      modifies this
      ensures View() == Pointer(old(View()), i, address)
      ensures i < |lazies| && p == lazies[i].word && LazyProtocol.Created(p)
    {
      p := lazies[i].word;
      if !LazyProtocol.Created(p) {
        lazies := lazies[i := lazies[i].(constructed := lazies[i].constructed + 1)];
        p := address;
        lazies := lazies[i := lazies[i].(word := p)];
        RegisterTask(OnExit(i));
      }
    }
  }
}

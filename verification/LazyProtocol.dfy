/** GetOrCreateLazyPointer run by any number of threads on one zero state word. Every atomic access is one
    sequentially consistent step of one thread; a script chooses which thread moves next and what its
    creator returns, so all scripts together are all interleavings. */
module LazyProtocol {

  /** kLazyInstanceStateCreating. */
  const CREATING: int := 1

  /** instance & ~kLazyInstanceStateCreating is non-zero. */
  predicate Created(word: int) { word != 0 && word != CREATING }

  /** Where a thread stands: what its next atomic access or call is. */
  datatype Pc =
    | FirstLoad            // fast-path load of the state word
    | Cas                  // NeedsLazyInstance: compare-and-swap 0 -> CREATING
    | CheckLoad            // the load after a lost compare-and-swap
    | SpinLoad             // the load that ends each turn of the spin loop
    | Create               // the compare-and-swap was won; the creator is about to run
    | Publish(made: int)   // CompleteLazyInstance: release-store of the new instance
    | Register(made: int)  // registration of the destructor with the exit manager
    | Reload               // a loser reads the pointer it will return
    | Done(result: int)

  /** The shared word, all program counters, and a history of who did what. */
  datatype State = State(
    word: int,
    pcs: seq<Pc>,
    winners: seq<nat>,      // threads that won the compare-and-swap
    created: seq<int>,      // results of creator runs
    storers: seq<nat>,      // threads that stored an instance
    registrations: nat)

  /** Thread `thread` moves; if it runs the creator, the creator returns `made`. */
  datatype Choice = Choice(thread: nat, made: int)

  function Start(threads: nat): State { State(0, seq(threads, i => FirstLoad), [], [], [], 0) }

  function Goto(s: State, t: nat, pc: Pc): State
    requires t < |s.pcs|
  {
    s.(pcs := s.pcs[t := pc])
  }

  function Step(s: State, c: Choice, destructor: bool): State {
    var t := c.thread;
    if t >= |s.pcs| then s else
    match s.pcs[t]
    case FirstLoad => Goto(s, t, if Created(s.word) then Done(s.word) else Cas)
    case Cas =>
      if s.word == 0 then Goto(s.(word := CREATING, winners := s.winners + [t]), t, Create)
      else Goto(s, t, CheckLoad)
    case CheckLoad => Goto(s, t, if s.word == CREATING then SpinLoad else Reload)
    case SpinLoad => Goto(s, t, if s.word == CREATING then SpinLoad else Reload)
    case Create => Goto(s.(created := s.created + [c.made]), t, Publish(c.made))
    case Publish(p) =>
      Goto(s.(word := p, storers := s.storers + [t]), t, if p != 0 && destructor then Register(p) else Done(p))
    case Register(p) => Goto(s.(registrations := s.registrations + 1), t, Done(p))
    case Reload => Goto(s, t, Done(s.word))
    case Done(_) => s
  }

  function Run(threads: nat, script: seq<Choice>, destructor: bool): State {
    if script == [] then Start(threads)
    else Step(Run(threads, script[..|script| - 1], destructor), script[|script| - 1], destructor)
  }

  /** Every creator run of the script returns one of `results`. */
  ghost predicate Uses(script: seq<Choice>, results: iset<int>) {
    forall c | c in script :: c.made in results
  }

  // ----- Safety: three phases, as long as no creator returns null or the marker -----

  predicate Entering(pc: Pc) { pc.FirstLoad? || pc.Cas? }

  predicate Waiting(pc: Pc) { Entering(pc) || pc.CheckLoad? || pc.SpinLoad? }

  /** Nobody has won the compare-and-swap yet. */
  ghost predicate Idle(s: State) {
    && s.word == 0 && s.winners == [] && s.created == [] && s.storers == [] && s.registrations == 0
    && forall t | 0 <= t < |s.pcs| :: Entering(s.pcs[t])
  }

  /** Thread `w` won and has not published; everybody else is entering or waiting. */
  ghost predicate Building(s: State, w: nat) {
    && s.word == CREATING && s.winners == [w] && s.storers == [] && s.registrations == 0
    && w < |s.pcs|
    && (match s.pcs[w]
        case Create => s.created == []
        case Publish(p) => Created(p) && s.created == [p]
        case _ => false)
    && forall t | 0 <= t < |s.pcs| && t != w :: Waiting(s.pcs[t])
  }

  /** Thread `w` has published; the word is the one instance and never changes again. */
  ghost predicate Built(s: State, w: nat, destructor: bool) {
    && Created(s.word) && s.winners == [w] && s.storers == [w] && s.created == [s.word]
    && w < |s.pcs|
    && (if destructor && s.pcs[w] == Register(s.word) then s.registrations == 0
        else s.pcs[w] == Done(s.word) && s.registrations == if destructor then 1 else 0)
    && forall t | 0 <= t < |s.pcs| && t != w :: Waiting(s.pcs[t]) || s.pcs[t] in {Reload, Done(s.word)}
  }

  ghost predicate Inv(s: State, destructor: bool) {
    Idle(s) || (|s.winners| == 1 && (Building(s, s.winners[0]) || Built(s, s.winners[0], destructor)))
  }

  lemma StepFromIdle(s: State, c: Choice, destructor: bool)
    requires Idle(s)
    ensures Idle(Step(s, c, destructor)) || Building(Step(s, c, destructor), c.thread)
  {
  }

  lemma StepFromBuilding(s: State, w: nat, c: Choice, destructor: bool)
    requires Building(s, w) && Created(c.made)
    ensures Building(Step(s, c, destructor), w) || Built(Step(s, c, destructor), w, destructor)
  {
  }

  lemma StepFromBuilt(s: State, w: nat, c: Choice, destructor: bool)
    requires Built(s, w, destructor)
    ensures Built(Step(s, c, destructor), w, destructor) && Step(s, c, destructor).word == s.word
  {
  }

  lemma {:induction false} RunKeepsInv(threads: nat, script: seq<Choice>, destructor: bool)
    requires forall c | c in script :: Created(c.made)
    ensures Inv(Run(threads, script, destructor), destructor) && |Run(threads, script, destructor).pcs| == threads
  {
    if script != [] {
      RunKeepsInv(threads, script[..|script| - 1], destructor);
      var s, c := Run(threads, script[..|script| - 1], destructor), script[|script| - 1];
      if Idle(s) {
        StepFromIdle(s, c, destructor);
      } else if Building(s, s.winners[0]) {
        StepFromBuilding(s, s.winners[0], c, destructor);
      } else {
        StepFromBuilt(s, s.winners[0], c, destructor);
      }
    }
  }

  /** In every interleaving the creator runs at most once, only the winner of the compare-and-swap stores, at
      most one destructor is registered, and every thread that returns returns that one instance. */
  lemma OneInstance(threads: nat, script: seq<Choice>, destructor: bool)
    requires forall c | c in script :: Created(c.made)
    ensures var s := Run(threads, script, destructor);
            && |s.created| <= 1 && |s.winners| <= 1 && s.storers <= s.winners
            && s.registrations <= (if destructor then |s.storers| else 0)
            && (forall t | 0 <= t < |s.pcs| && s.pcs[t].Done? ::
                  Created(s.pcs[t].result) && s.created == [s.pcs[t].result] && s.word == s.pcs[t].result)
  {
    RunKeepsInv(threads, script, destructor);
  }

  /** Once an instance is in the word it stays there, whatever runs afterwards. */
  lemma {:induction false} StoreIsFinal(threads: nat, script: seq<Choice>, more: seq<Choice>, destructor: bool)
    requires forall c | c in script + more :: Created(c.made)
    requires Created(Run(threads, script, destructor).word)
    ensures Run(threads, script + more, destructor).word == Run(threads, script, destructor).word
  {
    if more == [] {
      assert script + more == script;
    } else {
      var rest, c := more[..|more| - 1], more[|more| - 1];
      assert (script + more)[..|script + more| - 1] == script + rest;
      assert forall d | d in script + rest :: d in script + more;
      StoreIsFinal(threads, script, rest, destructor);
      RunKeepsInv(threads, script + rest, destructor);
      var s := Run(threads, script + rest, destructor);
      StepFromBuilt(s, s.winners[0], c, destructor);
    }
  }

  // ----- Progress -----

  /** An upper bound on the moves a thread still has to make, turns of the spin loop aside. */
  function Rank(pc: Pc): nat {
    match pc
    case FirstLoad => 5 case Cas => 4 case Create => 3 case CheckLoad => 3 case Publish(_) => 2
    case SpinLoad => 2 case Register(_) => 1 case Reload => 1 case Done(_) => 0
  }

  function Work(pcs: seq<Pc>): nat { if pcs == [] then 0 else Work(pcs[..|pcs| - 1]) + Rank(pcs[|pcs| - 1]) }

  lemma {:induction false} WorkOfUpdate(pcs: seq<Pc>, t: nat, pc: Pc)
    requires t < |pcs|
    ensures Work(pcs[t := pc]) == Work(pcs) - Rank(pcs[t]) + Rank(pc)
  {
    var n := |pcs| - 1;
    if t == n {
      assert pcs[t := pc][..n] == pcs[..n];
    } else {
      assert pcs[t := pc][..n] == pcs[..n][t := pc];
      WorkOfUpdate(pcs[..n], t, pc);
    }
  }

  /** A step either changes nothing or uses up work; only a finished thread and a turn of the spin loop
      while the instance is being created change nothing. */
  lemma StepUsesWork(s: State, c: Choice, destructor: bool)
    ensures var s' := Step(s, c, destructor);
            && |s'.pcs| == |s.pcs|
            && (s' == s || Work(s'.pcs) < Work(s.pcs))
            && (c.thread < |s.pcs| && s' == s ==>
                  s.pcs[c.thread].Done? || (s.pcs[c.thread].SpinLoad? && s.word == CREATING))
  {
    var t, s' := c.thread, Step(s, c, destructor);
    if t < |s.pcs| {
      WorkOfUpdate(s.pcs, t, s'.pcs[t]);
      assert s.pcs[t].Done? || s'.pcs == s.pcs[t := s'.pcs[t]];
    }
  }

  /** How many steps of a run changed something. */
  function Moves(threads: nat, script: seq<Choice>, destructor: bool): nat {
    if script == [] then 0
    else
      var rest := script[..|script| - 1];
      Moves(threads, rest, destructor)
      + if Run(threads, script, destructor) == Run(threads, rest, destructor) then 0 else 1
  }

  lemma {:induction false} StartWork(threads: nat)
    ensures Work(Start(threads).pcs) == 5 * threads
  {
    if threads > 0 {
      StartWork(threads - 1);
      assert Start(threads).pcs[..threads - 1] == Start(threads - 1).pcs;
    }
  }

  /** No run makes more than five moves per thread, whatever the creators return. */
  lemma {:induction false} MovesAreBounded(threads: nat, script: seq<Choice>, destructor: bool)
    ensures Moves(threads, script, destructor) + Work(Run(threads, script, destructor).pcs) <= 5 * threads
  {
    if script == [] {
      StartWork(threads);
    } else {
      var rest := script[..|script| - 1];
      MovesAreBounded(threads, rest, destructor);
      StepUsesWork(Run(threads, rest, destructor), script[|script| - 1], destructor);
    }
  }

  /** No thread can change anything any more. */
  ghost predicate Finished(s: State, destructor: bool) {
    forall c :: Step(s, c, destructor) == s
  }

  /** Where nothing can move any more, every thread has returned the one instance; so a spinner never
      spins for ever: the winner can always move until it has stored, and then every spinner can. */
  lemma FinishedMeansReturned(threads: nat, script: seq<Choice>, destructor: bool)
    requires forall c | c in script :: Created(c.made)
    requires Finished(Run(threads, script, destructor), destructor)
    ensures var s := Run(threads, script, destructor);
            && (forall t | 0 <= t < |s.pcs| :: s.pcs[t] == Done(s.word) && Created(s.word))
            && (threads > 0 ==> |s.created| == 1 && s.registrations == if destructor then 1 else 0)
  {
    RunKeepsInv(threads, script, destructor);
    var s := Run(threads, script, destructor);
    forall t | 0 <= t < |s.pcs| ensures |s.winners| == 1 && Built(s, s.winners[0], destructor) && s.pcs[t].Done? {
      StepUsesWork(s, Choice(t, 2), destructor);
      assert Step(s, Choice(t, 2), destructor) == s;
      if s.word == CREATING {
        var w := Choice(s.winners[0], 2);
        StepUsesWork(s, w, destructor);
        assert Step(s, w, destructor) == s;
      }
    }
    if threads > 0 { assert s.pcs[0].Done?; }
  }

  // ----- Creators that return null -----

  /** No thread has returned null or the marker. */
  ghost predicate Sound(s: State) {
    forall t | 0 <= t < |s.pcs| && s.pcs[t].Done? :: Created(s.pcs[t].result)
  }

  lemma RunExtends(threads: nat, script: seq<Choice>, c: Choice, destructor: bool)
    ensures Run(threads, script + [c], destructor) == Step(Run(threads, script, destructor), c, destructor)
  {
    assert (script + [c])[..|script|] == script;
  }

  /** One thread alone returns whatever its creator made. */
  lemma SoloRun(made: int, destructor: bool) returns (script: seq<Choice>)
    ensures Uses(script, iset{made})
    ensures Run(1, script, destructor).pcs == [Done(made)]
  {
    var c := Choice(0, made);
    script := [];
    var s := Start(1);
    for i := 0 to 5
      invariant Uses(script, iset{made}) && s == Run(1, script, destructor)
      invariant i == 0 ==> s.word == 0 && s.pcs == [FirstLoad]
      invariant i == 1 ==> s.word == 0 && s.pcs == [Cas]
      invariant i == 2 ==> s.pcs == [Create]
      invariant i == 3 ==> s.pcs == [Publish(made)]
      invariant i == 4 ==> s.pcs == [Register(made)] || s.pcs == [Done(made)]
      invariant i == 5 ==> s.pcs == [Done(made)]
    {
      RunExtends(1, script, c, destructor);
      script, s := script + [c], Step(s, c, destructor);
    }
  }

  lemma OneCreating(destructor: bool) returns (script: seq<Choice>)
    ensures Uses(script, iset{0})
    ensures var s := Run(3, script, destructor); s.word == CREATING && s.pcs == [Create, FirstLoad, FirstLoad]
  {
    script := [];
    var s := Start(3);
    script, s := Extend(3, script, s, 0, destructor);
    assert s.word == 0 && s.pcs == [Cas, FirstLoad, FirstLoad];
    script, s := Extend(3, script, s, 0, destructor);
  }

  lemma OneSpinning(destructor: bool) returns (script: seq<Choice>)
    ensures Uses(script, iset{0})
    ensures var s := Run(3, script, destructor); s.word == CREATING && s.pcs == [Create, SpinLoad, FirstLoad]
  {
    script := OneCreating(destructor);
    var s := Run(3, script, destructor);
    script, s := Extend(3, script, s, 1, destructor);
    assert s.word == 1 && s.pcs == [Create, Cas, FirstLoad];
    script, s := Extend(3, script, s, 1, destructor);
    assert s.word == 1 && s.pcs == [Create, CheckLoad, FirstLoad];
    script, s := Extend(3, script, s, 1, destructor);
    assert s.word == 1 && s.pcs == [Create, SpinLoad, FirstLoad];
  }

  lemma WinnerResets(destructor: bool) returns (script: seq<Choice>)
    ensures Uses(script, iset{0})
    ensures var s := Run(3, script, destructor); s.word == 0 && s.pcs == [Done(0), Reload, FirstLoad]
  {
    script := OneSpinning(destructor);
    var s := Run(3, script, destructor);
    script, s := Extend(3, script, s, 0, destructor);
    assert s.word == 1 && s.pcs == [Publish(0), SpinLoad, FirstLoad];
    script, s := Extend(3, script, s, 0, destructor);
    assert s.word == 0 && s.pcs == [Done(0), SpinLoad, FirstLoad];
    script, s := Extend(3, script, s, 1, destructor);
  }

  /** With a creator that returns null, a thread that lost the race can even return the marker: it leaves the
      spin loop when the winner resets the word, and reloads after a third thread has won again. */
  lemma LoserCanReturnMarker(destructor: bool) returns (script: seq<Choice>)
    ensures Uses(script, iset{0})
    ensures Run(3, script, destructor).pcs == [Done(0), Done(CREATING), Create]
  {
    script := WinnerResets(destructor);
    var s := Run(3, script, destructor);
    script, s := Extend(3, script, s, 2, destructor);
    assert s.word == 0 && s.pcs == [Done(0), Reload, Cas];
    script, s := Extend(3, script, s, 2, destructor);
    assert s.word == 1 && s.pcs == [Done(0), Reload, Create];
    script, s := Extend(3, script, s, 1, destructor);
    assert s.word == 1 && s.pcs == [Done(0), Done(1), Create];
  }

  lemma Extend(threads: nat, script: seq<Choice>, s: State, t: nat, destructor: bool)
    returns (script': seq<Choice>, s': State)
    requires Uses(script, iset{0}) && s == Run(threads, script, destructor)
    ensures Uses(script', iset{0}) && s' == Run(threads, script', destructor) && s' == Step(s, Choice(t, 0), destructor)
  {
    RunExtends(threads, script, Choice(t, 0), destructor);
    script', s' := script + [Choice(t, 0)], Step(s, Choice(t, 0), destructor);
  }

  /** Returning a real instance in every interleaving is exactly the creator never returning null (nor the
      marker, which is no address). */
  lemma SoundExactlyWhenNonNull(results: iset<int>, destructor: bool)
    ensures (forall threads, script | Uses(script, results) :: Sound(Run(threads, script, destructor)))
        <==> 0 !in results && CREATING !in results
  {
    if 0 !in results && CREATING !in results {
      forall threads, script | Uses(script, results) ensures Sound(Run(threads, script, destructor)) {
        OneInstance(threads, script, destructor);
      }
    } else {
      var bad := if 0 in results then 0 else CREATING;
      var script := SoloRun(bad, destructor);
      assert Uses(script, results);
      assert Run(1, script, destructor).pcs[0] == Done(bad);
    }
  }

  /** No thread has returned the marker; returning null is allowed to creators that no longer want an instance. */
  ghost predicate NoMarker(s: State) { forall t | 0 <= t < |s.pcs| :: s.pcs[t] != Done(CREATING) }

  /** No interleaving returns the marker if and only if no creator returns null (or the marker itself). */
  lemma MarkerNeverReturnedExactly(results: iset<int>, destructor: bool)
    ensures (forall threads, script | Uses(script, results) :: NoMarker(Run(threads, script, destructor)))
        <==> 0 !in results && CREATING !in results
  {
    if 0 !in results && CREATING !in results {
      forall threads, script | Uses(script, results) ensures NoMarker(Run(threads, script, destructor)) {
        OneInstance(threads, script, destructor);
      }
    } else if 0 in results {
      var script := LoserCanReturnMarker(destructor);
      assert Uses(script, results);
      assert Run(3, script, destructor).pcs[1] == Done(CREATING);
    } else {
      var script := SoloRun(CREATING, destructor);
      assert Uses(script, results);
      assert Run(1, script, destructor).pcs[0] == Done(CREATING);
    }
  }
}

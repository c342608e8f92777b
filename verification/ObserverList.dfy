/** ObserverList and its iterators under any nesting of range-for loops with additions, removals, clears,
    iterator copies and assignments, and destruction of the list, in any order. */
module ObserverList {
  import opened ObserverPolicy
  import opened ObserverSlots
  import Seqs

  /** An iterator. `visited` lists the slots it has yielded; `ended` says its loop has met end(). An iterator
      is attached while it refers to the list: made by begin() on a non-empty list that still exists. */
  datatype Cursor = Cursor(attached: bool, index: nat, limit: Limit, visited: seq<nat>, ended: bool)

  datatype World = World(
    alive: bool,
    policy: Policy,
    slots: seq<Slot>,          // observers_
    live: int,                 // live_iterator_count_
    iters: map<nat, Cursor>)

  datatype Step =
    | Add(observer: nat) | Remove(observer: nat) | Clear | DestroyList
    | Begin(id: nat) | Advance(id: nat) | End(id: nat) | Copy(source: nat, id: nat) | Assign(id: nat, source: nat)

  function Start(policy: Policy): World { World(true, policy, [], 0, map[]) }

  /** EnsureValidIndex, then a look at the slot the loop body will get. */
  function Positioned(c: Cursor, slots: seq<Slot>): Cursor {
    var max := Clamp(c.limit, |slots|);
    var i := Skip(slots, c.index, max);
    if i < max then c.(index := i, visited := c.visited + [i]) else c.(index := i, ended := true)
  }

  /** begin(). */
  function Fresh(policy: Policy, slots: seq<Slot>): Cursor {
    if slots == [] then Cursor(false, 0, At(0), [], true)
    else Positioned(Cursor(true, 0, if policy.All? then NoLimit else At(|slots|), [], false), slots)
  }

  /** operator++ of a loop that has not ended. */
  function Moved(c: Cursor, slots: seq<Slot>): Cursor {
    if !c.attached then c.(ended := true) else Positioned(c.(index := c.index + 1), slots)
  }

  function Count(c: Cursor): nat { if c.attached then 1 else 0 }

  /** ~Iter of an iterator with the value `c`: the last attached one to go compacts the list. */
  function Released(w: World, c: Cursor): World {
    if !c.attached then w
    else w.(live := w.live - 1, slots := if w.live == 1 then Compacted(w.slots) else w.slots)
  }

  function Next(w: World, step: Step): World {
    match step
    case Add(o) => if w.alive then w.(slots := AddSlot(w.slots, o)) else w
    case Remove(o) => if w.alive then w.(slots := RemoveSlot(w.slots, w.live, o)) else w
    case Clear => if w.alive then w.(slots := ClearSlots(w.slots, w.live)) else w
    case DestroyList =>
      World(false, w.policy, [], 0, map id | id in w.iters :: w.iters[id].(attached := false))
    case Begin(id) =>
      if id in w.iters || !w.alive then w
      else
        var c := Fresh(w.policy, w.slots);
        w.(iters := w.iters[id := c], live := w.live + Count(c))
    case Advance(id) =>
      if id !in w.iters || w.iters[id].ended then w else w.(iters := w.iters[id := Moved(w.iters[id], w.slots)])
    case End(id) =>
      if id !in w.iters then w else Released(w.(iters := w.iters - {id}), w.iters[id])
    case Copy(source, id) =>
      if source !in w.iters || id in w.iters then w
      else w.(iters := w.iters[id := w.iters[source]], live := w.live + Count(w.iters[source]))
    case Assign(id, source) =>
      if source !in w.iters || id !in w.iters then w
      else
        var swapped := w.(iters := w.iters[id := w.iters[source]], live := w.live + Count(w.iters[source]));
        Released(swapped, w.iters[id])
  }

  // ----- What every step keeps -----

  function Attached(iters: map<nat, Cursor>): set<nat> { set id | id in iters && iters[id].attached }

  /** True of every iterator, attached or not: it yields strictly increasing slots, and under a limit only
      slots that existed when the loop began. */
  ghost predicate Orderly(c: Cursor) {
    && Increasing(c.visited)
    && (c.limit.At? ==> forall v | v in c.visited :: v < c.limit.size)
  }

  /** An attached iterator has passed only slots it yielded or that are null, and unless its loop has ended
      it stands on the slot it yielded last. */
  ghost predicate Thorough(c: Cursor, slots: seq<Slot>) {
    && c.index <= Clamp(c.limit, |slots|) && (c.limit.At? ==> c.limit.size <= |slots|)
    && (forall v | v in c.visited :: v < c.index + if c.ended then 0 else 1)
    && (forall k | 0 <= k < c.index :: k in c.visited || slots[k] == Null)
    && (!c.ended ==> c.visited != [] && c.visited[|c.visited| - 1] == c.index < Clamp(c.limit, |slots|))
  }

  ghost predicate Inv(w: World) {
    && w.live == |Attached(w.iters)|
    && (w.live == 0 ==> Null !in w.slots)
    && (!w.alive ==> w.live == 0)
    && Distinct(w.slots)
    && (forall id | id in w.iters :: Orderly(w.iters[id]))
    && (forall id | id in w.iters && w.iters[id].attached :: Thorough(w.iters[id], w.slots))
  }

  // Set sizes under the three ways an iterator map changes.

  lemma AttachedAfterUpdate(iters: map<nat, Cursor>, id: nat, c: Cursor)
    ensures |Attached(iters[id := c])| == |Attached(iters)| + Count(c) - (if id in iters then Count(iters[id]) else 0)
  {
    var a, b := Attached(iters), Attached(iters[id := c]);
    if c.attached {
      assert b == a + {id};
    } else {
      assert b == a - {id};
    }
  }

  lemma AttachedAfterRemoval(iters: map<nat, Cursor>, id: nat)
    requires id in iters
    ensures |Attached(iters - {id})| == |Attached(iters)| - Count(iters[id])
  {
    assert Attached(iters - {id}) == Attached(iters) - {id};
  }

  lemma NoneAttached(iters: map<nat, Cursor>)
    ensures |Attached(iters)| == 0 <==> forall id | id in iters :: !iters[id].attached
  {
    if |Attached(iters)| == 0 {
      forall id | id in iters ensures !iters[id].attached { assert id !in Attached(iters); }
    } else {
      var id :| id in Attached(iters);
    }
  }

  /** A cursor about to be positioned: everything before its index has been yielded or is null. */
  ghost predicate Ready(c: Cursor, slots: seq<Slot>) {
    && Orderly(c) && !c.ended
    && c.index <= Clamp(c.limit, |slots|) && (c.limit.At? ==> c.limit.size <= |slots|)
    && (forall v | v in c.visited :: v < c.index)
    && (forall k | 0 <= k < c.index :: k in c.visited || slots[k] == Null)
  }

  lemma PositionedIsOrderly(c: Cursor, slots: seq<Slot>)
    requires Ready(c, slots)
    ensures Orderly(Positioned(c, slots))
  {
    var d := Positioned(c, slots);
    assert forall i | 0 <= i < |c.visited| :: c.visited[i] in c.visited;
    assert forall v | v in d.visited :: v in c.visited || v == d.index;
  }

  lemma PositionedIsThorough(c: Cursor, slots: seq<Slot>)
    requires Ready(c, slots)
    ensures var d := Positioned(c, slots);
            && Orderly(d) && Thorough(d, slots) && d.attached == c.attached
            && (if d.ended then d.index == Clamp(c.limit, |slots|) && d.visited == c.visited
                else slots[d.index] != Null && d.visited == c.visited + [d.index])
  {
    var d := Positioned(c, slots);
    PositionedIsOrderly(c, slots);
    assert forall v | v in d.visited :: v in c.visited || v == d.index;
    assert forall v | v in c.visited :: v in d.visited;
    assert !d.ended ==> d.index in d.visited;
  }

  lemma MovingOnIsReady(c: Cursor, slots: seq<Slot>)
    requires Orderly(c) && Thorough(c, slots) && !c.ended
    ensures Ready(c.(index := c.index + 1), slots)
  {
    assert c.index in c.visited;
  }

  lemma WeatheredStaysThorough(c: Cursor, slots: seq<Slot>, slots': seq<Slot>)
    requires Thorough(c, slots) && Weathered(slots, slots')
    ensures Thorough(c, slots')
  {
  }

  lemma ListStepWeathers(w: World, step: Step)
    requires Inv(w) && (step.Add? || step.Remove? || step.Clear?)
    ensures var w' := Next(w, step);
            && w'.iters == w.iters && w'.live == w.live && w'.alive == w.alive
            && (w.live != 0 ==> Weathered(w.slots, w'.slots))
            && (w.live == 0 ==> Null !in w'.slots)
            && Distinct(w'.slots)
  {
    match step
    case Add(o) => AddContents(w.slots, o);
    case Remove(o) => RemoveDistinct(w.slots, w.live, o);
    case Clear => ClearContents(w.slots, w.live);
  }

  lemma ListStepKeepsInv(w: World, step: Step)
    requires Inv(w) && (step.Add? || step.Remove? || step.Clear?)
    ensures Inv(Next(w, step))
  {
    ListStepWeathers(w, step);
    NoneAttached(w.iters);
    var w' := Next(w, step);
    forall id | id in w.iters && w.iters[id].attached ensures Thorough(w.iters[id], w'.slots) {
      WeatheredStaysThorough(w.iters[id], w.slots, w'.slots);
    }
  }

  lemma BeginKeepsInv(w: World, id: nat)
    requires Inv(w)
    ensures Inv(Next(w, Begin(id)))
  {
    if id !in w.iters && w.alive {
      var c := Fresh(w.policy, w.slots);
      AttachedAfterUpdate(w.iters, id, c);
      if w.slots != [] {
        PositionedIsThorough(Cursor(true, 0, if w.policy.All? then NoLimit else At(|w.slots|), [], false), w.slots);
      }
    }
  }

  lemma MovedIsThorough(c: Cursor, slots: seq<Slot>)
    requires Orderly(c) && (c.attached ==> Thorough(c, slots)) && !c.ended
    ensures var d := Moved(c, slots); d.attached == c.attached && Orderly(d) && (d.attached ==> Thorough(d, slots))
  {
    if c.attached {
      MovingOnIsReady(c, slots);
      PositionedIsThorough(c.(index := c.index + 1), slots);
    }
  }

  lemma ReplacingKeepsInv(w: World, id: nat, c: Cursor)
    requires Inv(w) && id in w.iters && c.attached == w.iters[id].attached
    requires Orderly(c) && (c.attached ==> Thorough(c, w.slots))
    ensures Inv(w.(iters := w.iters[id := c]))
  {
    AttachedAfterUpdate(w.iters, id, c);
  }

  lemma AdvanceKeepsInv(w: World, id: nat)
    requires Inv(w)
    ensures Inv(Next(w, Advance(id)))
  {
    if id in w.iters && !w.iters[id].ended {
      MovedIsThorough(w.iters[id], w.slots);
      ReplacingKeepsInv(w, id, Moved(w.iters[id], w.slots));
    }
  }

  /** ~Iter for an iterator that has left the map but is still counted. */
  lemma ReleaseKeepsInv(w: World, c: Cursor)
    requires w.live == |Attached(w.iters)| + Count(c)
    requires Distinct(w.slots) && (!w.alive ==> w.live == 0) && (w.live == 0 ==> Null !in w.slots)
    requires forall i | i in w.iters :: Orderly(w.iters[i])
    requires forall i | i in w.iters && w.iters[i].attached :: Thorough(w.iters[i], w.slots)
    ensures Inv(Released(w, c))
  {
    if c.attached && w.live == 1 {
      CompactedContents(w.slots);
      NoneAttached(w.iters);
    }
  }

  lemma EndKeepsInv(w: World, id: nat)
    requires Inv(w)
    ensures Inv(Next(w, End(id)))
  {
    if id in w.iters {
      AttachedAfterRemoval(w.iters, id);
      ReleaseKeepsInv(w.(iters := w.iters - {id}), w.iters[id]);
    }
  }

  lemma CopyKeepsInv(w: World, source: nat, id: nat)
    requires Inv(w)
    ensures Inv(Next(w, Copy(source, id)))
  {
    if source in w.iters && id !in w.iters {
      AttachedAfterUpdate(w.iters, id, w.iters[source]);
      NoneAttached(w.iters);
    }
  }

  lemma AssignKeepsInv(w: World, id: nat, source: nat)
    requires Inv(w)
    ensures Inv(Next(w, Assign(id, source)))
  {
    if source in w.iters && id in w.iters {
      var iters := w.iters[id := w.iters[source]];
      AttachedAfterUpdate(w.iters, id, w.iters[source]);
      NoneAttached(w.iters);
      ReleaseKeepsInv(w.(iters := iters, live := w.live + Count(w.iters[source])), w.iters[id]);
    }
  }

  lemma DestroyKeepsInv(w: World)
    requires Inv(w)
    ensures Inv(Next(w, DestroyList))
  {
    NoneAttached(Next(w, DestroyList).iters);
  }

  lemma StepKeepsInv(w: World, step: Step)
    requires Inv(w)
    ensures Inv(Next(w, step))
  {
    match step
    case Add(_) => ListStepKeepsInv(w, step);
    case Remove(_) => ListStepKeepsInv(w, step);
    case Clear => ListStepKeepsInv(w, step);
    case DestroyList => DestroyKeepsInv(w);
    case Begin(id) => BeginKeepsInv(w, id);
    case Advance(id) => AdvanceKeepsInv(w, id);
    case End(id) => EndKeepsInv(w, id);
    case Copy(source, id) => CopyKeepsInv(w, source, id);
    case Assign(id, source) => AssignKeepsInv(w, id, source);
  }

  function Run(policy: Policy, steps: seq<Step>): World {
    if steps == [] then Start(policy) else Next(Run(policy, steps[..|steps| - 1]), steps[|steps| - 1])
  }

  /** In every reachable state: the counter counts the attached iterators, null slots exist only while one is
      live, and every iterator is orderly and, while attached, thorough. */
  lemma {:induction false} RunKeepsInv(policy: Policy, steps: seq<Step>)
    ensures Inv(Run(policy, steps))
  {
    if steps != [] {
      RunKeepsInv(policy, steps[..|steps| - 1]);
      StepKeepsInv(Run(policy, steps[..|steps| - 1]), steps[|steps| - 1]);
    }
  }

  // ----- Nothing moves under a live iterator -----

  lemma OneStep(policy: Policy, steps: seq<Step>, step: Step)
    ensures Run(policy, steps + [step]) == Next(Run(policy, steps), step)
  {
    Seqs.TakeAppended(steps, [step]);
  }

  /** A step before and after which some iterator is live appends and nulls slots and does nothing else to them. */
  lemma StepWeathers(w: World, step: Step)
    requires w.live > 0 && Next(w, step).live > 0
    ensures Weathered(w.slots, Next(w, step).slots)
  {
  }

  /** Whether some iterator is live at the end of `steps` and after each further step. */
  ghost predicate LiveThrough(policy: Policy, steps: seq<Step>, more: seq<Step>) {
    && (more != [] ==> LiveThrough(policy, steps, more[..|more| - 1]))
    && Run(policy, steps + more).live > 0
  }

  /** From any reachable state, for as long as there are live iterators, every slot keeps its place and its
      observer until that observer is removed. */
  lemma {:induction false} NothingMoves(policy: Policy, steps: seq<Step>, more: seq<Step>)
    requires LiveThrough(policy, steps, more)
    ensures Weathered(Run(policy, steps).slots, Run(policy, steps + more).slots)
  {
    if more == [] {
      Seqs.Whole(steps);
    } else {
      var n := |more| - 1;
      NothingMoves(policy, steps, more[..n]);
      Seqs.Snoc(more);
      Seqs.Associates(steps, more[..n], [more[n]]);
      OneStep(policy, steps + more[..n], more[n]);
      StepWeathers(Run(policy, steps + more[..n]), more[n]);
      WeatheredThrough(Run(policy, steps).slots, Run(policy, steps + more[..n]).slots, Run(policy, steps + more).slots);
    }
  }

  // ----- The list as a plain sequence -----

  datatype Plain = Plain(alive: bool, contents: seq<nat>)

  function PlainNext(p: Plain, step: Step): Plain {
    if !p.alive then p else
    match step
    case Add(o) => if o in p.contents then p else p.(contents := p.contents + [o])
    case Remove(o) => p.(contents := Without(p.contents, o))
    case Clear => p.(contents := [])
    case DestroyList => Plain(false, [])
    case _ => p
  }

  function PlainRun(steps: seq<Step>): Plain {
    if steps == [] then Plain(true, []) else PlainNext(PlainRun(steps[..|steps| - 1]), steps[|steps| - 1])
  }

  function View(w: World): Plain { Plain(w.alive, Contents(w.slots)) }

  lemma StepIsPlain(w: World, step: Step)
    requires Inv(w) && (!w.alive ==> w.slots == [])
    ensures View(Next(w, step)) == PlainNext(View(w), step)
    ensures !Next(w, step).alive ==> Next(w, step).slots == []
  {
    match step
    case Add(o) => AddContents(w.slots, o);
    case Remove(o) => RemoveContents(w.slots, w.live, o);
    case Clear => ClearContents(w.slots, w.live);
    case End(_) => CompactedContents(w.slots); CompactedNone();
    case Assign(_, _) => CompactedContents(w.slots); CompactedNone();
    case _ =>
  }

  lemma CompactedNone()
    ensures Compacted([]) == []
  {
  }

  /** Whatever iterators come and go, the occupied slots are, in order, the plain sequence that the same
      additions, removals and clears produce. */
  lemma {:induction false} RunIsPlain(policy: Policy, steps: seq<Step>)
    ensures View(Run(policy, steps)) == PlainRun(steps)
    ensures !Run(policy, steps).alive ==> Run(policy, steps).slots == []
  {
    if steps != [] {
      RunIsPlain(policy, steps[..|steps| - 1]);
      RunKeepsInv(policy, steps[..|steps| - 1]);
      StepIsPlain(Run(policy, steps[..|steps| - 1]), steps[|steps| - 1]);
    }
  }

  // ----- What one loop sees -----

  /** What a loop that has yielded `before` gets from the slots: either it ends, every slot in its range being
      yielded before or null now; or it yields the next occupied slot, all slots it passed being such. */
  ghost predicate Sees(before: seq<nat>, c: Cursor, slots: seq<Slot>) {
    if c.ended then
      && c.visited == before
      && forall k | 0 <= k < Clamp(c.limit, |slots|) :: k in before || slots[k] == Null
    else
      && c.index < |slots| && slots[c.index] != Null
      && c.visited == before + [c.index] && (forall v | v in before :: v < c.index)
      && forall k | 0 <= k < c.index :: k in before || slots[k] == Null
  }

  lemma PositionedSees(c: Cursor, slots: seq<Slot>)
    requires Ready(c, slots)
    ensures Sees(c.visited, Positioned(c, slots), slots)
  {
  }

  /** Each turn of a loop, in any reachable state, whatever has happened to the list in between. */
  lemma EachTurnSees(policy: Policy, steps: seq<Step>, id: nat)
    requires var w := Run(policy, steps); id in w.iters && w.iters[id].attached && !w.iters[id].ended
    ensures var w := Run(policy, steps); Sees(w.iters[id].visited, Next(w, Advance(id)).iters[id], w.slots)
  {
    RunKeepsInv(policy, steps);
    var w := Run(policy, steps);
    MovingOnIsReady(w.iters[id], w.slots);
    PositionedSees(w.iters[id].(index := w.iters[id].index + 1), w.slots);
  }

  lemma FirstTurnSees(policy: Policy, steps: seq<Step>, id: nat)
    requires var w := Run(policy, steps); id !in w.iters && w.alive && w.slots != []
    ensures var w := Run(policy, steps); Sees([], Next(w, Begin(id)).iters[id], w.slots)
  {
    var w := Run(policy, steps);
    PositionedSees(Cursor(true, 0, if w.policy.All? then NoLimit else At(|w.slots|), [], false), w.slots);
  }

  // ----- What a whole loop sees -----

  /** How many slots an iterator has passed, the one it stands on included. */
  function Passed(c: Cursor): nat { c.index + if c.ended then 0 else 1 }

  /** The step gives the iterator another one's value. */
  predicate TakesOver(w: World, step: Step, id: nat) {
    || (step.Copy? && step.id == id && step.source in w.iters && id !in w.iters)
    || (step.Assign? && step.id == id && step.source in w.iters && id in w.iters)
  }

  lemma TakingOver(w: World, step: Step, id: nat)
    requires TakesOver(w, step, id)
    ensures step.source in w.iters && id in Next(w, step).iters && Next(w, step).iters[id] == w.iters[step.source]
  {
  }

  /** Whether slot `k` was occupied when iterator `id`, or the one its value came from, passed it. */
  ghost predicate OccupiedAtTurn(policy: Policy, steps: seq<Step>, id: nat, k: nat) {
    steps != [] &&
    var init, step := steps[..|steps| - 1], steps[|steps| - 1];
    var w := Run(policy, init);
    if TakesOver(w, step, id) then OccupiedAtTurn(policy, init, step.source, k)
    else if id in w.iters && k < Passed(w.iters[id]) then OccupiedAtTurn(policy, init, id, k)
    else k < |w.slots| && w.slots[k] != Null
  }

  lemma PositionedYields(c: Cursor, slots: seq<Slot>, k: nat)
    requires Ready(c, slots) && k < Passed(Positioned(c, slots))
    ensures k < |slots|
    ensures k in Positioned(c, slots).visited <==> if k < c.index then k in c.visited else slots[k] != Null
  {
    var d := Positioned(c, slots);
    if !d.ended { assert forall v :: v in d.visited <==> v in c.visited || v == d.index; }
  }

  lemma AdvanceYields(w: World, id: nat, k: nat)
    requires Inv(w) && id in w.iters && w.iters[id].attached && !w.iters[id].ended
    requires k < Passed(Next(w, Advance(id)).iters[id])
    ensures
      k in Next(w, Advance(id)).iters[id].visited
      <==> if k < Passed(w.iters[id]) then k in w.iters[id].visited else k < |w.slots| && w.slots[k] != Null
  {
    var c := w.iters[id];
    MovingOnIsReady(c, w.slots);
    PositionedYields(c.(index := c.index + 1), w.slots, k);
  }

  lemma OthersKeep(w: World, step: Step, id: nat)
    requires id in w.iters && id in Next(w, step).iters && Next(w, step).iters[id].attached
    requires !TakesOver(w, step, id)
    ensures w.iters[id].attached
    ensures !(step == Advance(id) && !w.iters[id].ended) ==> Next(w, step).iters[id] == w.iters[id]
  {
  }

  /** A step that neither copies nor assigns an iterator. */
  lemma StepYields(w: World, step: Step, id: nat, k: nat)
    requires Inv(w) && id in w.iters && id in Next(w, step).iters && Next(w, step).iters[id].attached
    requires !TakesOver(w, step, id) && k < Passed(Next(w, step).iters[id])
    ensures
      k in Next(w, step).iters[id].visited
      <==> if k < Passed(w.iters[id]) then k in w.iters[id].visited else k < |w.slots| && w.slots[k] != Null
  {
    OthersKeep(w, step, id);
    if step == Advance(id) && !w.iters[id].ended { AdvanceYields(w, id, k); }
  }

  lemma BeginYields(w: World, id: nat, k: nat)
    requires id !in w.iters && id in Next(w, Begin(id)).iters && Next(w, Begin(id)).iters[id].attached
    requires k < Passed(Next(w, Begin(id)).iters[id])
    ensures k in Next(w, Begin(id)).iters[id].visited <==> k < |w.slots| && w.slots[k] != Null
  {
    PositionedYields(Cursor(true, 0, if w.policy.All? then NoLimit else At(|w.slots|), [], false), w.slots, k);
  }

  /** In every reachable state an attached iterator has yielded exactly those of the slots it has passed that were
      occupied at their turn, whatever happened to them before and after. */
  lemma {:induction false} YieldedExactly(policy: Policy, steps: seq<Step>, id: nat, k: nat)
    requires var w := Run(policy, steps); id in w.iters && w.iters[id].attached && k < Passed(w.iters[id])
    ensures k in Run(policy, steps).iters[id].visited <==> OccupiedAtTurn(policy, steps, id, k)
  {
    var init, step := steps[..|steps| - 1], steps[|steps| - 1];
    var w := Run(policy, init);
    RunKeepsInv(policy, init);
    if TakesOver(w, step, id) {
      TakingOver(w, step, id);
      YieldedExactly(policy, init, step.source, k);
    } else if id in w.iters {
      StepYields(w, step, id, k);
      if k < Passed(w.iters[id]) { YieldedExactly(policy, init, id, k); }
    } else {
      assert step == Begin(id);
      BeginYields(w, id, k);
    }
  }

  lemma {:induction false} IncreasingBelow(s: seq<nat>, n: nat)
    requires Increasing(s) && forall i | 0 <= i < |s| :: s[i] < n
    ensures |s| <= n
  {
    if s != [] { IncreasingBelow(s[..|s| - 1], s[|s| - 1]); }
  }

  // ----- The two policies -----

  /** How many slots there were at the Begin that the iterator's value came from. */
  ghost function SlotsAtBegin(policy: Policy, steps: seq<Step>, id: nat): nat {
    if steps == [] then 0
    else
      var init, step := steps[..|steps| - 1], steps[|steps| - 1];
      var w := Run(policy, init);
      if TakesOver(w, step, id) then SlotsAtBegin(policy, init, step.source)
      else if id in w.iters then SlotsAtBegin(policy, init, id)
      else |w.slots|
  }

  /** The limit an iterator was given: an iterator over a list that was empty has none to go by. */
  ghost predicate LimitedBy(policy: Policy, limit: Limit, attached: bool, atBegin: nat) {
    if policy.ExistingOnly? then limit == At(atBegin) else attached ==> limit == NoLimit
  }

  lemma StepKeepsLimit(w: World, step: Step, id: nat)
    requires id in w.iters && id in Next(w, step).iters && !TakesOver(w, step, id)
    ensures
      var c, d := w.iters[id], Next(w, step).iters[id];
      d.limit == c.limit && (d.attached ==> c.attached)
  {
  }

  lemma BeginLimits(w: World, id: nat)
    requires id !in w.iters && w.alive
    ensures var c := Next(w, Begin(id)).iters[id]; LimitedBy(w.policy, c.limit, c.attached, |w.slots|)
  {
  }

  lemma {:induction false} PolicyStays(policy: Policy, steps: seq<Step>)
    ensures Run(policy, steps).policy == policy
  {
    if steps != [] { PolicyStays(policy, steps[..|steps| - 1]); }
  }

  lemma {:induction false} RunLimits(policy: Policy, steps: seq<Step>, id: nat)
    requires id in Run(policy, steps).iters
    ensures
      var c := Run(policy, steps).iters[id];
      LimitedBy(policy, c.limit, c.attached, SlotsAtBegin(policy, steps, id))
  {
    var init, step := steps[..|steps| - 1], steps[|steps| - 1];
    var w := Run(policy, init);
    if TakesOver(w, step, id) {
      TakingOver(w, step, id);
      RunLimits(policy, init, step.source);
    } else if id in w.iters {
      StepKeepsLimit(w, step, id);
      RunLimits(policy, init, id);
    } else {
      PolicyStays(policy, init);
      assert step == Begin(id);
      BeginLimits(w, id);
    }
  }

  /** Under EXISTING_ONLY an iterator yields only slots that existed when its loop began, hence at most that many. */
  lemma ExistingOnlyIsBounded(steps: seq<Step>, id: nat)
    requires id in Run(ExistingOnly, steps).iters
    ensures
      var visited, n := Run(ExistingOnly, steps).iters[id].visited, SlotsAtBegin(ExistingOnly, steps, id);
      |visited| <= n && forall v | v in visited :: v < n
  {
    RunKeepsInv(ExistingOnly, steps);
    RunLimits(ExistingOnly, steps, id);
    var visited := Run(ExistingOnly, steps).iters[id].visited;
    assert forall i | 0 <= i < |visited| :: visited[i] in visited;
    IncreasingBelow(visited, SlotsAtBegin(ExistingOnly, steps, id));
  }

  /** How far a loop over the given slots goes: to their end, or to where that was when the loop began. */
  ghost function Reach(policy: Policy, steps: seq<Step>, id: nat, slots: seq<Slot>): nat {
    if policy.All? then |slots| else SlotsAtBegin(policy, steps, id)
  }

  /** No occupied slot below `n` is left out. */
  ghost predicate SeenAll(visited: seq<nat>, slots: seq<Slot>, n: nat) {
    n <= |slots| && forall k | 0 <= k < n :: k in visited || slots[k] == Null
  }

  /** A turn that ends a loop leaves out no occupied slot: under ALL none there is, observers added during the loop
      included, under EXISTING_ONLY none of those there were at the beginning. */
  lemma EndingTurnHasSeenAll(policy: Policy, steps: seq<Step>, id: nat)
    requires var w := Run(policy, steps); id in w.iters && w.iters[id].attached && !w.iters[id].ended
    requires Run(policy, steps + [Advance(id)]).iters[id].ended
    ensures
      var slots := Run(policy, steps).slots;
      SeenAll(Run(policy, steps + [Advance(id)]).iters[id].visited, slots, Reach(policy, steps, id, slots))
  {
    OneStep(policy, steps, Advance(id));
    RunKeepsInv(policy, steps);
    RunLimits(policy, steps, id);
    EachTurnSees(policy, steps, id);
  }

  /** A turn that does not end the loop yields an occupied slot within its reach. */
  lemma OtherTurnsYield(policy: Policy, steps: seq<Step>, id: nat)
    requires var w := Run(policy, steps); id in w.iters && w.iters[id].attached && !w.iters[id].ended
    requires !Run(policy, steps + [Advance(id)]).iters[id].ended
    ensures
      var slots, before := Run(policy, steps).slots, Run(policy, steps).iters[id].visited;
      var visited := Run(policy, steps + [Advance(id)]).iters[id].visited;
      && |visited| == |before| + 1 && visited[..|before|] == before
      && visited[|before|] < Reach(policy, steps, id, slots) <= |slots| && slots[visited[|before|]] != Null
  {
    OneStep(policy, steps, Advance(id));
    RunKeepsInv(policy, steps);
    RunLimits(policy, steps, id);
    EachTurnSees(policy, steps, id);
    RunKeepsInv(policy, steps + [Advance(id)]);
  }
}

/** CallbackList: callbacks that are added, unsubscribed and notified again from inside callbacks. List nodes
    are slots in registration order; while an iterator is active a node is only ever reset, never erased. */
module CallbackList {
  import opened ObserverSlots
  import Seqs

  /** list_iter_: the node GetNext will look at next, or end(). An iterator at end() stays there even if nodes
      are appended; `size` records how many nodes there were when it got there. */
  datatype Position = Node(node: nat) | End(size: nat)

  /** An iterator of one Notify; `begun` is how many nodes there were when it was made and `ran` lists the
      nodes whose callback it has handed out. */
  datatype Cursor = Cursor(next: Position, begun: nat, ran: seq<nat>)

  datatype World = World(
    nodes: seq<Slot>,         // callbacks_
    active: int,              // active_iterator_count_
    iters: map<nat, Cursor>,
    removals: nat)            // how often removal_callback_ has run

  datatype Step =
    | Add(id: nat)            // registers a callback under a new identity
    | Unsubscribe(id: nat)    // ~Subscription
    | Begin(iter: nat)        // GetIterator
    | Copy(source: nat, iter: nat)
    | GetNext(iter: nat)
    | Finish(iter: nat)       // ~Iterator

  const START := World([], 0, map[], 0)

  function PositionAt(nodes: seq<Slot>, i: nat): Position { if i < |nodes| then Node(i) else End(|nodes|) }

  /** The search loop of GetNext: the node whose callback it hands out, or end(). */
  function Found(c: Cursor, nodes: seq<Slot>): Position {
    match c.next
    case End(_) => c.next
    case Node(i) => PositionAt(nodes, Skip(nodes, i, |nodes|))
  }

  function Got(c: Cursor, nodes: seq<Slot>): Cursor {
    match Found(c, nodes)
    case End(n) => c.(next := End(n))
    case Node(i) => Cursor(PositionAt(nodes, i + 1), c.begun, c.ran + [i])
  }

  /** Compact, and the removal callback if anything was erased. */
  function CompactNodes(w: World): World {
    w.(nodes := Compacted(w.nodes), removals := w.removals + if Null in w.nodes then 1 else 0)
  }

  function Next(w: World, step: Step): World {
    match step
    case Add(id) => if Held(id) in w.nodes then w else w.(nodes := w.nodes + [Held(id)])
    case Unsubscribe(id) =>
      if Held(id) !in w.nodes then w
      else w.(nodes := RemoveSlot(w.nodes, w.active, id), removals := w.removals + if w.active == 0 then 1 else 0)
    case Begin(k) =>
      if k in w.iters then w
      else w.(iters := w.iters[k := Cursor(PositionAt(w.nodes, 0), |w.nodes|, [])], active := w.active + 1)
    case Copy(j, k) =>
      if j !in w.iters || k in w.iters then w
      else w.(iters := w.iters[k := w.iters[j]], active := w.active + 1)
    case GetNext(k) =>
      if k !in w.iters then w else w.(iters := w.iters[k := Got(w.iters[k], w.nodes)])
    case Finish(k) =>
      if k !in w.iters then w
      else
        var w' := w.(iters := w.iters - {k}, active := w.active - 1);
        if w'.active == 0 then CompactNodes(w') else w'
  }

  function Run(steps: seq<Step>): World {
    if steps == [] then START else Next(Run(steps[..|steps| - 1]), steps[|steps| - 1])
  }

  // ----- What every step keeps -----

  /** How many nodes an iterator has passed. */
  function Passed(p: Position): nat { match p case Node(i) => i case End(n) => n }

  /** An iterator has run nodes in order, and every node it passed it ran or is reset. */
  ghost predicate Thorough(c: Cursor, nodes: seq<Slot>) {
    && Increasing(c.ran)
    && Passed(c.next) <= |nodes| && c.begun <= (if c.next.End? then c.next.size else |nodes|)
    && (c.next.Node? ==> c.next.node < |nodes|)
    && (forall i | 0 <= i < |c.ran| :: c.ran[i] < Passed(c.next))
    && (forall k | 0 <= k < Passed(c.next) :: k in c.ran || nodes[k] == Null)
  }

  ghost predicate Inv(w: World) {
    && w.active == |w.iters|
    && (w.active == 0 ==> Null !in w.nodes)
    && Distinct(w.nodes)
    && (forall k | k in w.iters :: Thorough(w.iters[k], w.nodes))
  }

  lemma WeatheredStaysThorough(c: Cursor, nodes: seq<Slot>, nodes': seq<Slot>)
    requires Thorough(c, nodes) && Weathered(nodes, nodes')
    ensures Thorough(c, nodes')
  {
  }

  lemma AddKeepsInv(w: World, id: nat)
    requires Inv(w)
    ensures Inv(Next(w, Add(id)))
  {
    forall k | k in w.iters ensures Thorough(w.iters[k], Next(w, Add(id)).nodes) {
      WeatheredStaysThorough(w.iters[k], w.nodes, Next(w, Add(id)).nodes);
    }
  }

  lemma UnsubscribeKeepsInv(w: World, id: nat)
    requires Inv(w)
    ensures Inv(Next(w, Unsubscribe(id)))
  {
    RemoveDistinct(w.nodes, w.active, id);
    var w' := Next(w, Unsubscribe(id));
    forall k | k in w.iters ensures Thorough(w.iters[k], w'.nodes) {
      assert |w.iters| != 0;
      WeatheredStaysThorough(w.iters[k], w.nodes, w'.nodes);
    }
  }

  /** What GetNext gives a Notify: the next registered callback, everything passed on the way being reset; or
      nothing, every node up to where the iterator met the end having run or been reset. */
  lemma GetNextIsThorough(c: Cursor, nodes: seq<Slot>)
    requires Thorough(c, nodes)
    ensures Thorough(Got(c, nodes), nodes)
    ensures var d := Got(c, nodes);
            if d.ran == c.ran then
              d.next == (if c.next.Node? then End(|nodes|) else c.next)
            else
              && c.next.Node? && |d.ran| == |c.ran| + 1 && d.ran[..|c.ran|] == c.ran
              && var i := d.ran[|c.ran|];
              && c.next.node <= i < |nodes| && nodes[i] != Null
              && forall k | c.next.node <= k < i :: nodes[k] == Null
  {
    var d := Got(c, nodes);
    assert forall k | k in c.ran :: k in d.ran;
    if Found(c, nodes).Node? { assert d.ran[|c.ran|] in d.ran; }
  }

  lemma IteratorStepKeepsInv(w: World, step: Step)
    requires Inv(w) && (step.Begin? || step.Copy? || step.GetNext?)
    ensures Inv(Next(w, step))
  {
    if step.GetNext? && step.iter in w.iters {
      GetNextIsThorough(w.iters[step.iter], w.nodes);
      assert w.iters[step.iter := Got(w.iters[step.iter], w.nodes)].Keys == w.iters.Keys;
    }
  }

  lemma FinishKeepsInv(w: World, k: nat)
    requires Inv(w)
    ensures Inv(Next(w, Finish(k)))
  {
    if k in w.iters {
      var left := w.iters - {k};
      assert left.Keys == w.iters.Keys - {k};
      assert |left| == |w.iters| - 1;
      if |left| == 0 { CompactedContents(w.nodes); }
    }
  }

  lemma StepKeepsInv(w: World, step: Step)
    requires Inv(w)
    ensures Inv(Next(w, step))
  {
    match step
    case Add(id) => AddKeepsInv(w, id);
    case Unsubscribe(id) => UnsubscribeKeepsInv(w, id);
    case Begin(_) => IteratorStepKeepsInv(w, step);
    case Copy(_, _) => IteratorStepKeepsInv(w, step);
    case GetNext(_) => IteratorStepKeepsInv(w, step);
    case Finish(k) => FinishKeepsInv(w, k);
  }

  lemma {:induction false} RunKeepsInv(steps: seq<Step>)
    ensures Inv(Run(steps))
  {
    if steps != [] {
      RunKeepsInv(steps[..|steps| - 1]);
      StepKeepsInv(Run(steps[..|steps| - 1]), steps[|steps| - 1]);
    }
  }

  lemma OneStep(steps: seq<Step>, step: Step)
    ensures Run(steps + [step]) == Next(Run(steps), step)
  {
    Seqs.TakeAppended(steps, [step]);
  }

  /** A step before and after which some iterator is active appends and resets nodes and does nothing else to them. */
  lemma StepWeathers(w: World, step: Step)
    requires w.active > 0 && Next(w, step).active > 0
    ensures Weathered(w.nodes, Next(w, step).nodes)
  {
  }

  /** Whether some iterator is active at the end of `steps` and after each further step. */
  ghost predicate ActiveThrough(steps: seq<Step>, more: seq<Step>) {
    && (more != [] ==> ActiveThrough(steps, more[..|more| - 1]))
    && Run(steps + more).active > 0
  }

  /** From any reachable state, for as long as a Notify is under way, no node is erased or moved. */
  lemma {:induction false} NothingMoves(steps: seq<Step>, more: seq<Step>)
    requires ActiveThrough(steps, more)
    ensures Weathered(Run(steps).nodes, Run(steps + more).nodes)
  {
    if more == [] {
      Seqs.Whole(steps);
    } else {
      var n := |more| - 1;
      NothingMoves(steps, more[..n]);
      Seqs.Snoc(more);
      Seqs.Associates(steps, more[..n], [more[n]]);
      OneStep(steps + more[..n], more[n]);
      StepWeathers(Run(steps + more[..n]), more[n]);
      WeatheredThrough(Run(steps).nodes, Run(steps + more[..n]).nodes, Run(steps + more).nodes);
    }
  }

  /** Whether node `i` had its callback when iterator `k`, or the one it was copied from, passed it. */
  ghost predicate LiveAtTurn(steps: seq<Step>, k: nat, i: nat) {
    steps != [] &&
    var init, step := steps[..|steps| - 1], steps[|steps| - 1];
    var w := Run(init);
    if step.Copy? && step.iter == k && k !in w.iters then LiveAtTurn(init, step.source, i)
    else if k in w.iters && i < Passed(w.iters[k].next) then LiveAtTurn(init, k, i)
    else i < |w.nodes| && w.nodes[i] != Null
  }

  /** The nodes a GetNext passes: it runs those that are not reset. */
  lemma GetNextRunsLive(c: Cursor, nodes: seq<Slot>, i: nat)
    requires Thorough(c, nodes) && i < Passed(Got(c, nodes).next)
    ensures i in Got(c, nodes).ran <==> if i < Passed(c.next) then i in c.ran else nodes[i] != Null
    ensures i < Passed(c.next) || i < |nodes|
  {
    var d := Got(c, nodes);
    assert forall v | v in c.ran :: v < Passed(c.next);
    if Found(c, nodes).Node? {
      var f := Found(c, nodes).node;
      assert forall v :: v in d.ran <==> v in c.ran || v == f;
    }
  }

  lemma StepRunsLive(w: World, step: Step, k: nat, i: nat)
    requires Inv(w) && k in w.iters && k in Next(w, step).iters && i < Passed(Next(w, step).iters[k].next)
    ensures
      i in Next(w, step).iters[k].ran
      <==> if i < Passed(w.iters[k].next) then i in w.iters[k].ran else i < |w.nodes| && w.nodes[i] != Null
  {
    if step == GetNext(k) {
      GetNextRunsLive(w.iters[k], w.nodes, i);
    } else {
      assert Next(w, step).iters[k] == w.iters[k];
    }
  }

  /** In every reachable state an iterator has run exactly those callbacks, of all it has passed, that were
      subscribed at their turn, whatever happened to them before and after. */
  lemma {:induction false} RanExactly(steps: seq<Step>, k: nat, i: nat)
    requires k in Run(steps).iters && i < Passed(Run(steps).iters[k].next)
    ensures i in Run(steps).iters[k].ran <==> LiveAtTurn(steps, k, i)
  {
    var init, step := steps[..|steps| - 1], steps[|steps| - 1];
    var w := Run(init);
    RunKeepsInv(init);
    if k in w.iters {
      StepRunsLive(w, step, k, i);
      if i < Passed(w.iters[k].next) { RanExactly(init, k, i); }
    } else {
      assert step.Copy? && step.iter == k;
      RanExactly(init, step.source, i);
    }
  }

  /** A Notify whose GetNext has met the end has run, in registration order and once each, every callback that
      was registered when it began and has not been unsubscribed, and none that came after it met the end. */
  lemma FinishedNotifyRanAll(steps: seq<Step>, k: nat)
    requires k in Run(steps).iters && Run(steps).iters[k].next.End?
    ensures var w := Run(steps);
            var c := w.iters[k];
            && Increasing(c.ran)
            && (forall i | 0 <= i < |c.ran| :: c.ran[i] < c.next.size)
            && c.begun <= c.next.size <= |w.nodes|
            && (forall i | 0 <= i < c.next.size && w.nodes[i] != Null :: i in c.ran)
  {
    RunKeepsInv(steps);
  }

  /** Each GetNext of a run, whatever happened between calls. */
  lemma EachGetNextSees(steps: seq<Step>, k: nat)
    requires k in Run(steps).iters
    ensures var w, c := Run(steps), Run(steps).iters[k];
            var d := Next(w, GetNext(k)).iters[k];
            if d.ran == c.ran then d.next == if c.next.Node? then End(|w.nodes|) else c.next
            else
              && |d.ran| == |c.ran| + 1 && d.ran[..|c.ran|] == c.ran
              && d.ran[|c.ran|] < |w.nodes| && w.nodes[d.ran[|c.ran|]] != Null
              && forall i | 0 <= i < d.ran[|c.ran|] :: i in c.ran || w.nodes[i] == Null
  {
    RunKeepsInv(steps);
    GetNextIsThorough(Run(steps).iters[k], Run(steps).nodes);
  }

  lemma {:induction false} CompactedShrinks(nodes: seq<Slot>)
    ensures |Compacted(nodes)| <= |nodes| && (|Compacted(nodes)| < |nodes| <==> Null in nodes)
  {
    if nodes != [] {
      assert nodes == nodes[..|nodes| - 1] + [nodes[|nodes| - 1]];
      CompactedShrinks(nodes[..|nodes| - 1]);
    }
  }

  /** The removal callback runs exactly once for each step that erases nodes, however many it erases. */
  lemma RemovalRunsOncePerErasure(steps: seq<Step>, step: Step)
    ensures var w, w' := Run(steps), Next(Run(steps), step);
            w'.removals == w.removals + if |w'.nodes| < |w.nodes| then 1 else 0
  {
    CompactedShrinks(Run(steps).nodes);
  }

  function PlainNext(c: seq<nat>, step: Step): seq<nat> {
    match step
    case Add(id) => if id in c then c else c + [id]
    case Unsubscribe(id) => Without(c, id)
    case _ => c
  }

  function PlainRun(steps: seq<Step>): seq<nat> {
    if steps == [] then [] else PlainNext(PlainRun(steps[..|steps| - 1]), steps[|steps| - 1])
  }

  lemma StepIsPlain(w: World, step: Step)
    requires Distinct(w.nodes)
    ensures Contents(Next(w, step).nodes) == PlainNext(Contents(w.nodes), step)
  {
    match step
    case Add(id) => AddContents(w.nodes, id);
    case Unsubscribe(id) => RemoveContents(w.nodes, w.active, id);
    case Finish(_) => CompactedContents(w.nodes);
    case _ =>
  }

  /** The live nodes are the subscribed callbacks in registration order. */
  lemma {:induction false} RunIsPlain(steps: seq<Step>)
    ensures Contents(Run(steps).nodes) == PlainRun(steps)
  {
    if steps != [] {
      RunIsPlain(steps[..|steps| - 1]);
      RunKeepsInv(steps[..|steps| - 1]);
      StepIsPlain(Run(steps[..|steps| - 1]), steps[|steps| - 1]);
    }
  }

  // ----- The code -----

  class Callbacks {
    var nodes: seq<Slot>
    var active: int
    var removals: nat

    constructor ()
      ensures nodes == [] && active == 0 && removals == 0
    {
      nodes, active, removals := [], 0, 0;
    }

    /** Compact: erases reset nodes one by one and reports once. */
    method Compact()
      modifies this
      ensures nodes == Compacted(old(nodes)) && active == old(active)
      ensures removals == old(removals) + if Null in old(nodes) then 1 else 0
    {
      var it, updated := 0, false;
      ghost var was, seen := nodes, 0;
      while it < |nodes|
        invariant it <= |nodes| && seen <= |was| && nodes[it..] == was[seen..]
        invariant nodes[..it] == Compacted(was[..seen])
        invariant updated <==> Null in was[..seen]
        invariant active == old(active) && removals == old(removals)
        decreases |nodes| - it
      {
        Seqs.TakeSnoc(was, seen);
        Seqs.Suffixes(nodes, it, was, seen);
        if nodes[it] == Null {
          updated := true;
          Seqs.Removed(nodes, it);
          nodes := nodes[..it] + nodes[it + 1..];
        } else {
          Seqs.TakeSnoc(nodes, it);
          it := it + 1;
        }
        seen := seen + 1;
      }
      assert was[..seen] == was;
      if updated { removals := removals + 1; }
    }

    /** GetNext on a list iterator; `found` is the node whose callback the caller runs. */
    method GetNext(c: Cursor) returns (d: Cursor, found: Position)
      requires c.next.Node? ==> c.next.node < |nodes|
      ensures d == Got(c, nodes) && found == Found(c, nodes)
    {
      found := c.next;
      while found.Node? && nodes[found.node] == Null
        invariant found.Node? ==> found.node < |nodes|
        invariant Found(c, nodes) == Found(c.(next := found), nodes)
        decreases if found.Node? then |nodes| - found.node else -1
      {
        found := PositionAt(nodes, found.node + 1);
      }
      d := c.(next := found);
      if found.Node? {
        d := Cursor(PositionAt(nodes, found.node + 1), c.begun, c.ran + [found.node]);
      }
    }
  }
}

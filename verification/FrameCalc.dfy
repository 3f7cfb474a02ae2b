/** Computing and checking the frame of a new event (poset/poset.go). */
module FrameCalc {
  import Folds
  import opened Dag
  import opened Stakes
  import opened ForklessCause
  import opened Frames
  import opened Heads
  import opened VectorSpec
  import opened RootStore
  import opened VectorClock
  import opened Election

  /** The new event `id` is in the clock, unflushed; the root table still describes the graph `d` before it. */
  ghost predicate Pending(d: Graph, clock: Index, store: Store, id: EventId, e: Event)
    reads clock, store
  {
    && clock.Valid() && store.Valid()
    && RootsOk(d, clock.stakes, store.table)
    && Addable(d, |clock.stakes|, id, e) && clock.db.events == d[id := e]
  }

  /** Some listed root of `c` among the first `i` causes the event. */
  ghost predicate Listed(d: Graph, stakes: seq<nat>, id: EventId, e: Event, roots: seq<Root>, i: nat, c: nat)
    requires i <= |roots|
  {
    exists j :: 0 <= j < i && roots[j].validator == c && ForklessCaused(d[id := e], stakes, id, roots[j].id)
  }

  lemma ListedAreCausers(d: Graph, stakes: seq<nat>, table: set<Root>, id: EventId, e: Event, f: nat, roots: seq<Root>,
      i: nat, counted: set<nat>)
    requires WellFormed(d, |stakes|) && TableOk(d, table) && ListsFrame(table, f, roots) && i <= |roots|
    requires forall c :: c in counted <==> Listed(d, stakes, id, e, roots, i, c)
    ensures counted <= OldCausers(d, stakes, id, e, f)
    ensures i == |roots| ==> counted == OldCausers(d, stakes, id, e, f)
  {
    forall c | c in counted
      ensures c in OldCausers(d, stakes, id, e, f)
    {
      var j :| 0 <= j < i && roots[j].validator == c && ForklessCaused(d[id := e], stakes, id, roots[j].id);
      assert roots[j] in roots;
      assert Linked(d, d[roots[j].id]);
      assert IsOldCauser(d, stakes, id, e, f, c, roots[j].id);
    }
    if i == |roots| {
      forall c | c in OldCausers(d, stakes, id, e, f)
        ensures c in counted
      {
        var r: EventId :| IsOldCauser(d, stakes, id, e, f, c, r);
        assert Root(f, c, r) in roots;
        var j :| 0 <= j < |roots| && roots[j] == Root(f, c, r);
      }
    }
  }

  /** Is the event caused by a quorum of the roots on frame `f`? Stops as soon as a quorum is counted. */
  method ForklessCausedByQuorumOn(ghost d: Graph, clock: Index, store: Store, id: EventId, ghost e: Event, f: nat)
      returns (yes: bool)
    requires Pending(d, clock, store, id, e)
    modifies clock`cache, clock`bi, store`cache
    ensures Pending(d, clock, store, id, e)
    ensures yes <==> OldQuorum(d, clock.stakes, id, e, f)
  {
    ghost var stakes := clock.stakes;
    assert Folds.Open(Folds.Roots);
    var counter := new StakeCounter(clock.stakes);
    var roots := store.GetFrameRoots(f);
    var i := 0;
    yes := false;
    while i < |roots| && !yes
      invariant 0 <= i <= |roots| && Pending(d, clock, store, id, e)
      invariant counter.Valid() && counter.stakes == stakes && fresh(counter)
      invariant forall c :: c in counter.counted <==> Listed(d, stakes, id, e, roots, i, c)
      invariant yes <==> i > 0 && HasQuorum(stakes, counter.counted)
      decreases |roots| - i
    {
      var r := roots[i];
      ghost var before := counter.counted;
      assert r in roots && Linked(d, d[r.id]);
      var causes := clock.ForklessCause(id, r.id);
      if causes {
        var _ := counter.CountByIdx(r.validator);
      }
      ListedStep(d, stakes, id, e, roots, i, before, counter.counted);
      yes := counter.Reached();
      i := i + 1;
    }
    ListedAreCausers(d, stakes, store.table, id, e, f, roots, i, counter.counted);
    StakeMonotone(stakes, counter.counted, OldCausers(d, stakes, id, e, f), |stakes|);
    if i == 0 {
      StakeEmpty(stakes, |stakes|);
      assert counter.counted == {};
    }
  }

  lemma ListedStep(d: Graph, stakes: seq<nat>, id: EventId, e: Event, roots: seq<Root>, i: nat, before: set<nat>,
      after: set<nat>)
    requires i < |roots| && forall c :: c in before <==> Listed(d, stakes, id, e, roots, i, c)
    requires after == if ForklessCaused(d[id := e], stakes, id, roots[i].id) then before + {roots[i].validator}
      else before
    ensures forall c :: c in after <==> Listed(d, stakes, id, e, roots, i + 1, c)
  {
    var k := i + 1;
    forall c
      ensures c in after <==> Listed(d, stakes, id, e, roots, k, c)
    {
      assert Listed(d, stakes, id, e, roots, k, c) <==>
        || Listed(d, stakes, id, e, roots, i, c)
        || (roots[i].validator == c && ForklessCaused(d[id := e], stakes, id, roots[i].id));
    }
  }

  /** The frame of the self-parent, found among the parents. */
  method SelfParentFrame(events: Graph, e: Event) returns (frame: nat)
    requires forall p :: p in e.parents ==> p in events
    ensures frame == SelfFrame(events, e)
  {
    frame := 0;
    var maxParentsFrame := 0;
    ghost var found := false;
    for i := 0 to |e.parents|
      invariant found <==> exists j :: 0 <= j < i && e.IsSelfParent(e.parents[j])
      invariant frame == if found then SelfFrame(events, e) else 0
    {
      var p := e.parents[i];
      assert p in e.parents;
      if maxParentsFrame == 0 || events[p].frame > maxParentsFrame {
        maxParentsFrame := events[p].frame;
      }
      if e.IsSelfParent(p) {
        frame := events[p].frame;
        found := true;
      }
    }
    if e.SelfParent().Some? {
      assert e.IsSelfParent(e.parents[0]);
    }
  }

  /** calcFrameIdx: with `checkOnly` the claimed frame is judged, otherwise a frame is assigned. */
  method CalcFrameIdx(ghost d: Graph, clock: Index, store: Store, id: EventId, e: Event, checkOnly: bool)
      returns (frame: nat, isRoot: bool)
    requires Pending(d, clock, store, id, e)
    modifies clock`cache, clock`bi, store`cache
    ensures Pending(d, clock, store, id, e)
    ensures checkOnly && e.frame >= 1 ==>
      (e.isRoot == isRoot && e.frame == frame <==> FrameOk(d[id := e], clock.stakes, id))
    ensures checkOnly && e.frame >= 1 ==>
      (isRoot <==> |e.parents| == 0 || (e.isRoot && FrameOk(d[id := e], clock.stakes, id)))
    ensures !checkOnly ==> Assigned(d, clock.stakes, id, e, frame, isRoot)
  {
    ghost var d' := d[id := e];
    if |e.parents| == 0 {
      assert SelfFrame(d', e) == 0;
      return 1, true;
    }
    forall p | p in e.parents
      ensures p in d && p != id && p in clock.db.events && clock.db.events[p] == d[p]
    {
    }
    var selfFrame := SelfParentFrame(clock.db.events, e);
    assert selfFrame == SelfFrame(d', e) == SelfFrame(d, e) by {
      if e.SelfParent().Some? {
        assert e.parents[0] in e.parents;
      }
    }
    if checkOnly {
      if !e.isRoot {
        return selfFrame, false;
      }
      var caused := true;
      if e.frame == selfFrame + 1 && e.frame > 1 {
        caused := ForklessCausedByQuorumOn(d, clock, store, id, e, e.frame - 1);
        OldQuorumIsQuorum(d, clock.stakes, id, e, e.frame - 1);
      }
      return selfFrame + 1, e.frame == selfFrame + 1 && (e.frame <= 1 || caused);
    }
    if e.SelfParent().None? {
      return 1, true;
    }
    var caused := ForklessCausedByQuorumOn(d, clock, store, id, e, selfFrame);
    if caused {
      return selfFrame + 1, true;
    }
    return selfFrame, false;
  }
}

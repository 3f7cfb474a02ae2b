/** Nodes from their genesis on: whatever sequence of events a node is given, and whatever it decides and seals on the
    way, it keeps what the theorems about two nodes ask for. */
module Genesis {
  import Folds
  import opened Dag
  import opened Stakes
  import opened ForklessCause
  import opened ElectionSafety
  import opened VectorSpec
  import opened Epochs
  import opened History
  import opened PosetNode
  import opened NodeAgreement
  import opened Feeds
  import opened Sequences

  /** Every id of the graph names the event that `body` says. */
  predicate Named(d: Graph, body: EventId -> Event) {
    forall x {:trigger d[x]} :: x in d ==> d[x] == body(x)
  }

  ghost predicate AllNamed(sealed: seq<Epoch>, body: EventId -> Event) {
    forall k {:trigger sealed[k]} :: 0 <= k < |sealed| ==> Named(sealed[k].events, body)
  }

  /** The node started from `start`, and all it ever knew are events of `body`. */
  ghost predicate Descendant(p: Poset, start: Start, body: EventId -> Event)
    reads p, p.clock
  {
    && FirstStart(p.trace) == start && AllNamed(p.trace.sealed, body)
    && Named(p.clock.db.events, body) && Named(p.clock.ever, body)
  }

  lemma NamedMore(d: Graph, body: EventId -> Event, id: EventId)
    requires Named(d, body)
    ensures Named(d[id := body(id)], body)
  {
  }

  lemma SealedNamed(d: Graph, h: Trace, h': Trace, body: EventId -> Event)
    requires SealedOver(d, h, h') && AllNamed(h.sealed, body) && Named(d, body)
    ensures AllNamed(h'.sealed, body) && |h'.sealed| == |h.sealed| + 1 && h'.sealed[|h.sealed|].events == d
  {
    assert Folds.Open(Folds.Growth);
    forall k | 0 <= k < |h'.sealed|
      ensures Named(h'.sealed[k].events, body)
    {
      assert k < |h.sealed| ==> h'.sealed[k] == h'.sealed[..|h.sealed|][k];
    }
  }

  lemma SameSealed(t: Ledger, h: Trace, t': Ledger, h': Trace)
    requires Grew(t, h, t', h')
    ensures FirstStart(h') == FirstStart(h) && Chain(h) <= Chain(h')
    ensures t'.epoch == t.epoch ==> h'.sealed == h.sealed && h'.start == h.start
  {
    assert Folds.Open(Folds.Growth);
  }

  /** What it means for a node that the epoch takes an event in. */
  lemma WelcomeHere(p: Poset, id: EventId, e: Event)
    requires p.Settled()
    ensures p.trace.start.prevEpoch.epoch + 1 == p.ledger.epoch && p.trace.start.stakes == p.clock.stakes
    ensures Welcome(p.app, p.trace.start, p.clock.db.events, id, e) <==>
      && EpochOf(id) == e.epoch == p.ledger.epoch && LamportOf(id) == e.lamport && e.frame >= 1
      && Addable(p.clock.db.events, |p.clock.stakes|, id, e) && p.Accepts(id, e)
  {
    assert Folds.Open(Folds.Lineage) && Folds.Open(Folds.Verdict);
  }

  /** The node took the event in if it was welcome, and else nothing changed; taking it in may have sealed the epoch. */
  ghost predicate Gave(app: Application, d: Graph, t: Ledger, h: Trace, d': Graph, t': Ledger, h': Trace, id: EventId,
      e: Event) {
    if t'.epoch == t.epoch then d' == TakeIn(app, h.start, d, id, e) && h'.sealed == h.sealed && h'.start == h.start
    else Welcome(app, h.start, d, id, e) && d' == map[] && SealedOver(d[id := e], h, h')
  }

  /** One event for a node: processed if its parents are known and it passed the checks, or if it is of another epoch or
      of nobody in the group; the others wait elsewhere. */
  method Give(p: Poset, body: EventId -> Event, id: EventId, ghost start: Start) returns (alive: bool)
    requires p.Valid() && Descendant(p, start, body)
    modifies p, p.clock, p.store, p.election
    ensures p.Settled() && (alive ==> p.CaughtUp())
    ensures !alive ==> !FewForkers(p.clock.db.events, p.clock.stakes)
    ensures Descendant(p, start, body) && Chain(old(p.trace)) <= Chain(p.trace)
    ensures Gave(p.app, old(p.clock.db.events), old(p.ledger), old(p.trace), p.clock.db.events, p.ledger, p.trace, id,
                 body(id))
    ensures old(p.Ready(id, body(id)) && p.Accepts(id, body(id))) ==>
      || id in p.clock.db.events
      || (|p.trace.sealed| == |old(p.trace).sealed| + 1 && id in p.trace.sealed[|old(p.trace).sealed|].events)
    ensures p.clock == old(p.clock) || fresh(p.clock)
    ensures p.store == old(p.store) || fresh(p.store)
    ensures p.election == old(p.election) || fresh(p.election)
  {
    var e := body(id);
    WelcomeHere(p, id, e);
    if e.epoch == p.ledger.epoch && e.creator < |p.clock.stakes| {
      if EpochOf(id) != e.epoch || LamportOf(id) != e.lamport || e.frame < 1
         || !Addable(p.clock.db.events, |p.clock.stakes|, id, e)
      {
        return true;
      }
    }
    var v := p.ProcessEvent(id, e);
    alive := !v.Crashed?;
    SameSealed(old(p.ledger), old(p.trace), p.ledger, p.trace);
    NamedMore(old(p.clock.db.events), body, id);
    NamedMore(old(p.clock.ever), body, id);
    if p.ledger.epoch != old(p.ledger.epoch) {
      SealedNamed(old(p.clock.db.events)[id := e], old(p.trace), p.trace, body);
    }
    if !alive {
      OnlyForksFail(p);
    }
  }

  lemma OnlyForksFail(p: Poset)
    requires p.Settled() && !Honest(p.clock.db.events, p.clock.stakes)
    ensures !FewForkers(p.clock.db.events, p.clock.stakes)
  {
    assert Folds.Open(Folds.Roots);
  }

  /** What one event does to the stretches of the feed. */
  lemma FeedGoesOn(app: Application, body: EventId -> Event, feed: seq<EventId>, cuts: seq<nat>, i: nat, d: Graph,
      t: Ledger, h: Trace, d': Graph, t': Ledger, h': Trace)
    returns (cuts': seq<nat>)
    requires i < |feed| && Gave(app, d, t, h, d', t', h', feed[i], body(feed[i]))
    requires Fed(app, body, feed, h.sealed + [Current(d, h)], cuts) && cuts[|h.sealed| + 1] == i
    ensures Fed(app, body, feed, h'.sealed + [Current(d', h')], cuts') && cuts'[|h'.sealed| + 1] == i + 1
  {
    var run, m := h.sealed + [Current(d, h)], |h.sealed|;
    assert run[..m] == h.sealed;
    if t'.epoch == t.epoch {
      var run' := h'.sealed + [Current(d', h')];
      assert run'[..m] == h'.sealed;
      FedOne(app, body, feed, run, cuts, run');
      cuts' := cuts[m + 1 := i + 1];
    } else {
      assert Folds.Open(Folds.Growth);
      FedOne(app, body, feed, run, cuts, h'.sealed);
      FedSeal(app, body, feed, h'.sealed, cuts[m + 1 := i + 1], Current(d', h'));
      cuts' := cuts[m + 1 := i + 1] + [i + 1];
    }
  }

  /** One event of a feed given to the node: the record of how the feed was cut into epochs goes on with it. */
  method GiveNext(p: Poset, body: EventId -> Event, feed: seq<EventId>, i: nat, ghost start: Start,
      ghost cuts: seq<nat>)
    returns (alive: bool, ghost cuts': seq<nat>)
    requires p.Valid() && Descendant(p, start, body) && i < |feed|
    requires Fed(p.app, body, feed, RunOf(p), cuts) && cuts[|RunOf(p)|] == i
    modifies p, p.clock, p.store, p.election
    ensures p.Settled() && (alive ==> p.CaughtUp()) && Descendant(p, start, body)
    ensures !alive ==> !FewForkers(p.clock.db.events, p.clock.stakes)
    ensures Fed(p.app, body, feed, RunOf(p), cuts') && cuts'[|RunOf(p)|] == i + 1
    ensures p.clock == old(p.clock) || fresh(p.clock)
    ensures p.store == old(p.store) || fresh(p.store)
    ensures p.election == old(p.election) || fresh(p.election)
  {
    ghost var d, t, h := p.clock.db.events, p.ledger, p.trace;
    alive := Give(p, body, feed[i], start);
    cuts' := FeedGoesOn(p.app, body, feed, cuts, i, d, t, h, p.clock.db.events, p.ledger, p.trace);
  }

  /** Any sequence of events for a node that starts from the genesis data. The feed falls into one stretch for each
      epoch, of which the epoch took in exactly what was welcome. The blocks are numbered from one over all epochs; only
      forks of more than a third of the stake can end the node early. */
  method Replay(stakes: seq<nat>, time: nat, atropos: EventId, standing: Standing, app: Application,
      body: EventId -> Event, feed: seq<EventId>)
    returns (p: Poset, alive: bool, ghost cuts: seq<nat>)
    requires Sane(stakes)
    ensures fresh(p) && fresh(p.clock) && fresh(p.store) && fresh(p.election)
    ensures p.app == app && p.Settled() && (alive ==> p.CaughtUp())
    ensures !alive ==> !FewForkers(p.clock.db.events, p.clock.stakes)
    ensures Descendant(p, Start(stakes, GenesisState(0, time, atropos, standing.appHash), standing, 0), body)
    ensures Fed(app, body, feed, RunOf(p), cuts) && (alive ==> cuts[|RunOf(p)|] == |feed|)
    ensures AllLawful(app, RunOf(p), body)
    ensures forall i :: 0 <= i < |Chain(p.trace)| ==> Chain(p.trace)[i].index == i + 1
  {
    p := new Poset(stakes, time, atropos, standing, app);
    ghost var start := p.trace.start;
    alive, cuts := true, [0, 0];
    assert FedEpoch(app, body, feed, RunOf(p), cuts, 0);
    for i := 0 to |feed|
      invariant fresh(p) && fresh(p.clock) && fresh(p.store) && fresh(p.election)
      invariant p.app == app && p.Valid() && alive && Descendant(p, start, body)
      invariant Fed(app, body, feed, RunOf(p), cuts) && cuts[|RunOf(p)|] == i
    {
      alive, cuts := GiveNext(p, body, feed, i, start, cuts);
      if !alive {
        break;
      }
    }
    NumberedFromOne(p, start, body);
    FedIsLawful(app, body, feed, RunOf(p), cuts);
  }

  /** The events of every epoch obey its rules. */
  ghost predicate AllLawful(app: Application, run: seq<Epoch>, body: EventId -> Event) {
    forall k {:trigger run[k]} :: 0 <= k < |run| ==> Lawful(app, run[k].start, run[k].events, body)
  }

  lemma FedIsLawful(app: Application, body: EventId -> Event, feed: seq<EventId>, run: seq<Epoch>, cuts: seq<nat>)
    requires Fed(app, body, feed, run, cuts)
    ensures AllLawful(app, run, body)
  {
    forall k | 0 <= k < |run|
      ensures Lawful(app, run[k].start, run[k].events, body)
    {
      assert FedEpoch(app, body, feed, run, cuts, k);
      TakesOnlyLawful(app, run[k].start, body, feed[cuts[k]..cuts[k + 1]]);
    }
  }

  lemma NumberedFromOne(p: Poset, start: Start, body: EventId -> Event)
    requires p.Settled() && Descendant(p, start, body) && start.blocks == 0
    ensures forall i :: 0 <= i < |Chain(p.trace)| ==> Chain(p.trace)[i].index == i + 1
  {
    NodeRuns(p);
    forall i: nat | i < |Chain(p.trace)|
      ensures Chain(p.trace)[i].index == i + 1
    {
      assert Chain(p.trace)[i].prev == AtroposBefore(RunOf(p), Chain(p.trace), i);
    }
  }

  /** In each epoch that both reach, forkers hold few stakes in all that the two nodes know together. */
  ghost predicate FewForkersTogether(r1: seq<Epoch>, r2: seq<Epoch>) {
    forall k {:trigger r1[k]} {:trigger r2[k]} ::
      0 <= k < |r1| && k < |r2| ==> FewForkers(r1[k].events + r2[k].events, r1[k].start.stakes)
  }

  /** Two descendants of one genesis meet in every epoch. */
  lemma DescendantsMeet(p: Poset, q: Poset, start: Start, body: EventId -> Event)
    requires Descendant(p, start, body) && Descendant(q, start, body) && FewForkersTogether(RunOf(p), RunOf(q))
    ensures Together(RunOf(p), RunOf(q))
  {
    var r1, r2 := RunOf(p), RunOf(q);
    forall k | 0 <= k < |r1| && k < |r2|
      ensures Meet(r1[k], r2[k])
    {
      NamedEpoch(p, start, body, k);
      NamedEpoch(q, start, body, k);
    }
  }

  lemma NamedEpoch(p: Poset, start: Start, body: EventId -> Event, k: nat)
    requires Descendant(p, start, body) && k < |RunOf(p)|
    ensures Named(RunOf(p)[k].events, body)
  {
    assert k < |p.trace.sealed| ==> RunOf(p)[k] == p.trace.sealed[k];
  }

  /** What two nodes know of the last epoch that both reached is the same. */
  ghost predicate SameLastEvents(r1: seq<Epoch>, r2: seq<Epoch>) {
    && |r1| > 0 && |r2| > 0
    && var k := (if |r1| <= |r2| then |r1| else |r2|) - 1;
       r1[k].events == r2[k].events
  }

  /** What the system is for: two nodes that start from one genesis and are given any events, in any order and however
      many epochs they get through, have built one chain, as far as both of them got. If in the end they know the same
      events of the last epoch that both reached, they are in the same state. */
  method TwoNodes(stakes: seq<nat>, time: nat, atropos: EventId, standing: Standing, app: Application,
      body: EventId -> Event, feed1: seq<EventId>, feed2: seq<EventId>)
    returns (p: Poset, q: Poset, alive: bool)
    requires Sane(stakes)
    ensures FewForkersTogether(RunOf(p), RunOf(q)) ==>
      Chain(p.trace) <= Chain(q.trace) || Chain(q.trace) <= Chain(p.trace)
    ensures FewForkersTogether(RunOf(p), RunOf(q)) && alive && SameLastEvents(RunOf(p), RunOf(q)) ==>
      Chain(p.trace) == Chain(q.trace) && p.standing == q.standing && p.lastDecidedFrame == q.lastDecidedFrame
    ensures !alive ==>
      !FewForkers(p.clock.db.events, p.clock.stakes) || !FewForkers(q.clock.db.events, q.clock.stakes)
  {
    var alive1, alive2;
    ghost var cuts1, cuts2;
    p, alive1, cuts1 := Replay(stakes, time, atropos, standing, app, body, feed1);
    q, alive2, cuts2 := Replay(stakes, time, atropos, standing, app, body, feed2);
    alive := alive1 && alive2;
    ghost var start := Start(stakes, GenesisState(0, time, atropos, standing.appHash), standing, 0);
    if FewForkersTogether(RunOf(p), RunOf(q)) {
      DescendantsAgree(p, q, start, body, alive);
    }
  }

  lemma DescendantsAgree(p: Poset, q: Poset, start: Start, body: EventId -> Event, alive: bool)
    requires p.Settled() && q.Settled() && p.app == q.app && (alive ==> p.CaughtUp() && q.CaughtUp())
    requires Descendant(p, start, body) && Descendant(q, start, body) && FewForkersTogether(RunOf(p), RunOf(q))
    ensures Chain(p.trace) <= Chain(q.trace) || Chain(q.trace) <= Chain(p.trace)
    ensures alive && SameLastEvents(RunOf(p), RunOf(q)) ==>
      Chain(p.trace) == Chain(q.trace) && p.standing == q.standing && p.lastDecidedFrame == q.lastDecidedFrame
  {
    DescendantsMeet(p, q, start, body);
    RunsAgree(p, q);
    if alive && SameLastEvents(RunOf(p), RunOf(q)) {
      SameEventsSameChain(p, q);
    }
  }

  // ---------------------------------------------------------------- any order

  /** The feed lists the whole graph, parents first. */
  ghost predicate ListsAll(whole: Graph, feed: seq<EventId>) {
    ParentsFirst(whole, feed) && Members(feed) == whole.Keys
  }

  /** A node that was given a lawful graph of the first epoch. */
  ghost predicate Given(p: Poset, start: Start, whole: Graph, body: EventId -> Event, feed: seq<EventId>,
      cuts: seq<nat>)
    reads p, p.clock, p.store, p.election
  {
    && p.Settled() && Descendant(p, start, body)
    && Lawful(p.app, start, whole, body) && ListsAll(whole, feed)
    && Fed(p.app, body, feed, RunOf(p), cuts)
  }

  /** Its epochs after the first are empty, and the first holds all of the graph unless it was sealed before. */
  lemma GivenEpoch(p: Poset, start: Start, whole: Graph, body: EventId -> Event, feed: seq<EventId>, cuts: seq<nat>,
      k: nat)
    requires Given(p, start, whole, body, feed, cuts) && k < |RunOf(p)|
    ensures k == 0 ==> Extends(RunOf(p)[k].events, whole) && RunOf(p)[k].start == start
    ensures k > 0 ==> RunOf(p)[k].events == map[]
    ensures |RunOf(p)| == 1 && cuts[1] == |feed| ==> p.clock.db.events == whole
  {
    NodeRuns(p);
    EpochsOfFeed(p.app, start, whole, body, feed, RunOf(p), cuts, k);
    if |RunOf(p)| == 1 && cuts[1] == |feed| {
      assert feed[..cuts[1]] == feed;
      SameGraph(RunOf(p)[0].events, whole, feed);
    }
  }

  lemma SameGraph(d: Graph, whole: Graph, feed: seq<EventId>)
    requires d.Keys == Members(feed) == whole.Keys && Extends(d, whole)
    ensures d == whole
  {
  }

  /** It stays alive if forkers are few in the graph. */
  lemma GivenLives(p: Poset, start: Start, whole: Graph, body: EventId -> Event, feed: seq<EventId>, cuts: seq<nat>)
    requires Given(p, start, whole, body, feed, cuts) && FewForkers(whole, start.stakes)
    ensures FewForkers(p.clock.db.events, p.clock.stakes)
  {
    var k := |RunOf(p)| - 1;
    NodeRuns(p);
    GivenEpoch(p, start, whole, body, feed, cuts, k);
    if k == 0 {
      FewerForkers(p.clock.db.events, whole, start.stakes);
    } else {
      NobodyForks(p.clock.stakes);
    }
  }

  lemma GivenMeet(p: Poset, q: Poset, start: Start, whole: Graph, body: EventId -> Event, feed1: seq<EventId>,
      cuts1: seq<nat>, feed2: seq<EventId>, cuts2: seq<nat>)
    requires Given(p, start, whole, body, feed1, cuts1) && Given(q, start, whole, body, feed2, cuts2) && p.app == q.app
    requires FewForkers(whole, start.stakes)
    ensures Together(RunOf(p), RunOf(q))
  {
    var r1, r2 := RunOf(p), RunOf(q);
    forall k: nat | k < |r1| && k < |r2|
      ensures FewForkers(r1[k].events + r2[k].events, r1[k].start.stakes)
    {
      GivenEpoch(p, start, whole, body, feed1, cuts1, k);
      GivenEpoch(q, start, whole, body, feed2, cuts2, k);
      if k == 0 {
        FewerForkers(r1[k].events + r2[k].events, whole, start.stakes);
      } else {
        assert r1[k].events + r2[k].events == map[];
        NobodyForks(r1[k].start.stakes);
      }
    }
    DescendantsMeet(p, q, start, body);
  }

  /** A node that was given all of the graph is not behind one that was, too. */
  lemma GivenIsNotBehind(p: Poset, q: Poset, start: Start, whole: Graph, body: EventId -> Event, feed1: seq<EventId>,
      cuts1: seq<nat>, feed2: seq<EventId>, cuts2: seq<nat>)
    requires Given(p, start, whole, body, feed1, cuts1) && Given(q, start, whole, body, feed2, cuts2) && p.app == q.app
    requires q.CaughtUp() && cuts2[|RunOf(q)|] == |feed2| && Together(RunOf(p), RunOf(q))
    ensures Behind(RunOf(p), RunOf(q)) && Chain(p.trace) <= Chain(q.trace)
  {
    var k := |RunOf(q)| - 1;
    GivenEpoch(q, start, whole, body, feed2, cuts2, k);
    if |RunOf(p)| >= |RunOf(q)| {
      GivenEpoch(p, start, whole, body, feed1, cuts1, k);
    }
    MoreEventsLongerChain(p, q);
  }

  /** Any order: two nodes that are given the same events of an epoch, each in an order of its own that has parents
      first, end with the same chain, the same frames decided and the same state of the application, and neither
      fails. */
  method AnyOrder(stakes: seq<nat>, time: nat, atropos: EventId, standing: Standing, app: Application,
      body: EventId -> Event, feed1: seq<EventId>, feed2: seq<EventId>, ghost whole: Graph)
    returns (p: Poset, q: Poset, alive: bool)
    requires Sane(stakes) && FewForkers(whole, stakes) && ListsAll(whole, feed1) && ListsAll(whole, feed2)
    requires Lawful(app, Start(stakes, GenesisState(0, time, atropos, standing.appHash), standing, 0), whole, body)
    ensures alive && p.Valid() && q.Valid()
    ensures Chain(p.trace) == Chain(q.trace) && p.standing == q.standing && p.lastDecidedFrame == q.lastDecidedFrame
    ensures p.ledger.epoch == 1 ==> p.clock.db.events == q.clock.db.events == whole
  {
    ghost var start := Start(stakes, GenesisState(0, time, atropos, standing.appHash), standing, 0);
    ghost var cuts1, cuts2;
    var alive1, alive2;
    p, alive1, cuts1 := Replay(stakes, time, atropos, standing, app, body, feed1);
    q, alive2, cuts2 := Replay(stakes, time, atropos, standing, app, body, feed2);
    GivenLives(p, start, whole, body, feed1, cuts1);
    GivenLives(q, start, whole, body, feed2, cuts2);
    alive := alive1 && alive2;
    GivenAgree(p, q, start, whole, body, feed1, cuts1, feed2, cuts2);
  }

  lemma GivenAgree(p: Poset, q: Poset, start: Start, whole: Graph, body: EventId -> Event, feed1: seq<EventId>,
      cuts1: seq<nat>, feed2: seq<EventId>, cuts2: seq<nat>)
    requires Given(p, start, whole, body, feed1, cuts1) && Given(q, start, whole, body, feed2, cuts2) && p.app == q.app
    requires p.CaughtUp() && q.CaughtUp() && FewForkers(whole, start.stakes) && start.prevEpoch.epoch == 0
    requires cuts1[|RunOf(p)|] == |feed1| && cuts2[|RunOf(q)|] == |feed2|
    ensures Chain(p.trace) == Chain(q.trace) && p.standing == q.standing && p.lastDecidedFrame == q.lastDecidedFrame
    ensures p.ledger.epoch == 1 ==> p.clock.db.events == q.clock.db.events == whole
  {
    GivenMeet(p, q, start, whole, body, feed1, cuts1, feed2, cuts2);
    GivenMeet(q, p, start, whole, body, feed2, cuts2, feed1, cuts1);
    GivenIsNotBehind(p, q, start, whole, body, feed1, cuts1, feed2, cuts2);
    GivenIsNotBehind(q, p, start, whole, body, feed2, cuts2, feed1, cuts1);
    SameStandings(p, q);
    if p.ledger.epoch == 1 {
      FirstEpochIsOnly(p, start);
      GivenEpoch(p, start, whole, body, feed1, cuts1, 0);
      GivenEpoch(q, start, whole, body, feed2, cuts2, 0);
    }
  }

  lemma FirstEpochIsOnly(p: Poset, start: Start)
    requires p.Settled() && FirstStart(p.trace) == start && start.prevEpoch.epoch == 0 && p.ledger.epoch == 1
    ensures |RunOf(p)| == 1
  {
    NodeRuns(p);
    assert Folds.Open(Folds.Lineage);
    EpochNumber(p.app, RunOf(p), |RunOf(p)| - 1);
  }
}

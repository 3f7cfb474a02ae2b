/** What any two nodes agree on, over whole runs: however they got their events and in whatever epochs they are. */
module NodeAgreement {
  import Folds
  import opened Dag
  import opened Words
  import opened Frames
  import opened ElectionSafety
  import opened Election
  import opened RootStore
  import opened VectorSpec
  import opened Epochs
  import opened History
  import Median
  import opened PosetNode

  /** All epochs of a node. */
  ghost function RunOf(p: Poset): seq<Epoch>
    reads p, p.clock
  {
    p.trace.sealed + [Current(p.clock.db.events, p.trace)]
  }

  /** Whatever a node went through is a run: elected frames, blocks as the frames determine them, epochs sealed where
      the application said so and continued with what they left. Its blocks are numbered from one over all epochs. */
  lemma NodeRuns(p: Poset)
    requires p.Settled()
    ensures Run(p.app, RunOf(p)) && ChainOf(RunOf(p)) == Chain(p.trace) && Numbered(RunOf(p), Chain(p.trace))
    ensures p.trace.start.stakes == p.clock.stakes && p.trace.start.prevEpoch == p.ledger.prevEpoch
    ensures p.standing == After(p.app, p.trace.start.standing, p.trace.log)
  {
    var run := RunOf(p);
    assert Folds.Open(Folds.Roots) && Folds.Open(Folds.Lineage);
    CurrentOk(p.app, p.clock.db.events, p.clock.stakes, p.ledger, p.standing, p.trace);
    assert run[..|run| - 1] == p.trace.sealed && run[..|run|] == run;
    ChainOfRun(p.clock.db.events, p.trace);
    ChainIsLinked(p.app, run, |run| - 1);
  }

  /** One chain: two nodes that started from one genesis, in whatever epochs they are now, started every epoch both of
      them reached with the same validators and application, and one chain is a prefix of the other. */
  lemma RunsAgree(p: Poset, q: Poset)
    requires p.Settled() && q.Settled() && p.app == q.app && Together(RunOf(p), RunOf(q))
    ensures forall k :: 0 <= k < |RunOf(p)| && k < |RunOf(q)| ==> RunOf(p)[k].start == RunOf(q)[k].start
    ensures Behind(RunOf(p), RunOf(q)) ==> Chain(p.trace) <= Chain(q.trace)
    ensures Chain(p.trace) <= Chain(q.trace) || Chain(q.trace) <= Chain(p.trace)
  {
    NodeRuns(p);
    NodeRuns(q);
    AgreeAllAlong(p.app, RunOf(p), RunOf(q));
  }

  // ---------------------------------------------------------------- order does not matter

  /** A node never lags: between calls, what it knows does not decide the next frame. */
  lemma NothingLeftToDecide(p: Poset, a: EventId)
    requires p.Valid() && Honest(p.clock.db.events, p.clock.stakes)
    ensures !IsAtropos(p.clock.db.events, p.clock.stakes, p.lastDecidedFrame + 1, a)
  {
    var d, f := p.clock.db.events, p.lastDecidedFrame + 1;
    assert Folds.Open(Folds.Roots);
    forall r | Votes(d, f, r)
      ensures r in p.election.processed
    {
      assert Root(d[r].frame, d[r].creator, r) in p.store.table;
    }
    OpenElectsNobody(d, p.clock.stakes, f, p.election.votes, p.election.decidedRoots, p.election.processed, a);
  }

  /** Nor does a node wait for more: once it has a root two frames up behind which the voters are of one mind, the
      frame is decided. */
  lemma FavourIsDecided(p: Poset, f: nat, r: EventId, v: nat)
    requires p.Valid() && Honest(p.clock.db.events, p.clock.stakes) && v < |p.clock.stakes|
    requires IsRootAt(p.clock.db.events, r, f + 2) && InFavour(p.clock.db.events, p.clock.stakes, f, r, v)
    ensures f != p.lastDecidedFrame + 1
  {
    var a := SecondRoundElects(p.clock.db.events, p.clock.stakes, f, r, v);
    NothingLeftToDecide(p, a);
  }

  /** A node that knows, of the last epoch it reached, all that another node knows of that epoch, has a chain at least
      as long. */
  lemma MoreEventsLongerChain(p: Poset, q: Poset)
    requires p.Settled() && q.Valid() && p.app == q.app && Together(RunOf(p), RunOf(q))
    requires |RunOf(p)| >= |RunOf(q)| ==> Extends(RunOf(p)[|RunOf(q)| - 1].events, q.clock.db.events)
    ensures Behind(RunOf(p), RunOf(q)) && Chain(p.trace) <= Chain(q.trace)
  {
    NodeRuns(p);
    NodeRuns(q);
    NotBehind(p.app, RunOf(p), q);
    AgreeAllAlong(p.app, RunOf(p), RunOf(q));
  }

  lemma NotBehind(app: Application, r: seq<Epoch>, q: Poset)
    requires q.Valid() && q.app == app && Run(app, r) && Together(r, RunOf(q))
    requires |r| >= |RunOf(q)| ==> Extends(r[|RunOf(q)| - 1].events, q.clock.db.events)
    ensures Behind(r, RunOf(q))
  {
    NodeRuns(q);
    if |r| >= |RunOf(q)| {
      KnowsAll(app, r, RunOf(q), |RunOf(q)| - 1);
      NothingIsDue(q);
    }
    MoreEventsMoreFrames(app, r, RunOf(q));
  }

  lemma NothingIsDue(q: Poset)
    requires q.Valid() && Honest(q.clock.db.events, q.clock.stakes) && q.trace.start.stakes == q.clock.stakes
    ensures NothingDue(Current(q.clock.db.events, q.trace))
  {
    var d, stakes, f := q.clock.db.events, q.clock.stakes, q.lastDecidedFrame + 1;
    forall a: EventId {:trigger IsAtropos(d, stakes, f, a)}
      ensures !IsAtropos(d, stakes, f, a)
    {
      NothingLeftToDecide(q, a);
    }
  }

  /** Order does not matter: if two nodes know the same events of the last epoch both of them reached, in whatever
      order they came, they are in the same epoch, decided the same frames, built the same chain, and their
      applications stand alike. */
  lemma SameEventsSameChain(p: Poset, q: Poset)
    requires p.Valid() && q.Valid() && p.app == q.app && Together(RunOf(p), RunOf(q))
    requires var k := (if |RunOf(p)| <= |RunOf(q)| then |RunOf(p)| else |RunOf(q)|) - 1;
      RunOf(p)[k].events == RunOf(q)[k].events
    ensures |p.trace.sealed| == |q.trace.sealed| && p.lastDecidedFrame == q.lastDecidedFrame
    ensures p.trace.start == q.trace.start && Chain(p.trace) == Chain(q.trace) && p.standing == q.standing
  {
    NodeRuns(p);
    NodeRuns(q);
    TogetherBack(p.app, RunOf(p), RunOf(q));
    MoreEventsLongerChain(p, q);
    MoreEventsLongerChain(q, p);
    SameStandings(p, q);
  }

  lemma SameStandings(p: Poset, q: Poset)
    requires p.Settled() && q.Settled() && p.app == q.app && Together(RunOf(p), RunOf(q))
    requires |RunOf(p)| == |RunOf(q)| && |p.trace.log| == |q.trace.log|
    ensures p.trace.start == q.trace.start && p.standing == q.standing
  {
    NodeRuns(p);
    NodeRuns(q);
    StandingsAgree(p.app, RunOf(p), RunOf(q), |RunOf(p)| - 1);
  }

  // ---------------------------------------------------------------- one verdict

  /** Whether an event is acceptable does not depend on what else a node knows: not its frame, not its median time,
      and not the cheaters its self-parent saw. */
  lemma VerdictIsStable(small: Graph, big: Graph, stakes: seq<nat>, genesis: nat, hash: nat, id: EventId, e: Event)
    requires Extends(small, big) && WellFormed(small, |stakes|) && Addable(small, |stakes|, id, e) && id !in big
    ensures Acceptable(small, stakes, genesis, hash, id, e) <==> Acceptable(big, stakes, genesis, hash, id, e)
  {
    var n, small', big' := |stakes|, small[id := e], big[id := e];
    AddedIsWellFormed(small, n, id, e);
    FrameOkStable(small', big', stakes, id);
    Median.EntriesStable(small', big', stakes, id, genesis);
    var self := e.SelfParent();
    if self.Some? {
      assert self.value in e.parents;
      forall c: nat
        ensures ForkSeen(small, self.value, c) <==> ForkSeen(big, self.value, c)
      {
        ForkSeenStable(small, big, n, self.value, c);
      }
    }
  }

  lemma EpochsGiveVerdict(app: Application, e1: Epoch, e2: Epoch, id: EventId, e: Event)
    requires EpochOk(app, e1) && EpochOk(app, e2) && e1.start == e2.start && Meet(e1, e2)
    requires Addable(e1.events, |e1.start.stakes|, id, e) && Addable(e2.events, |e1.start.stakes|, id, e)
    ensures var prev := e1.start.prevEpoch;
      Acceptable(e1.events, e1.start.stakes, prev.time, app.digest(prev), id, e) <==>
      Acceptable(e2.events, e2.start.stakes, prev.time, app.digest(prev), id, e)
  {
    var d, stakes, prev := e1.events + e2.events, e1.start.stakes, e1.start.prevEpoch;
    UnionObeysRules(e1.events, e2.events, stakes);
    VerdictIsStable(e1.events, d, stakes, prev.time, app.digest(prev), id, e);
    VerdictIsStable(e2.events, d, stakes, prev.time, app.digest(prev), id, e);
  }

  /** Two nodes in one epoch give an event that both are ready for the same verdict, whatever else they know. */
  lemma SameVerdict(p: Poset, q: Poset, id: EventId, e: Event)
    requires p.Settled() && q.Settled() && p.app == q.app && Together(RunOf(p), RunOf(q)) && |RunOf(p)| == |RunOf(q)|
    requires p.Ready(id, e) && q.Ready(id, e)
    ensures p.Accepts(id, e) <==> q.Accepts(id, e)
  {
    var k := |RunOf(p)| - 1;
    assert Folds.Open(Folds.Verdict);
    NodeRuns(p);
    NodeRuns(q);
    StartsAgree(p.app, RunOf(p), RunOf(q), k);
    EpochsGiveVerdict(p.app, RunOf(p)[k], RunOf(q)[k], id, e);
  }

  // ---------------------------------------------------------------- times

  /** The block times of a node increase over all epochs exactly when no time left the range of 64 bits. */
  lemma TimesIncreaseInRange(p: Poset, genesis: nat)
    requires p.Settled() && genesis == RunOf(p)[0].start.prevEpoch.time < WORD
    ensures TraceFits(p.trace) <==> Rising(genesis, Chain(p.trace))
  {
    var run := RunOf(p);
    NodeRuns(p);
    InRangeIsRising(p.app, run, genesis, |run|);
    RunInRange(p);
  }

  lemma RunInRange(p: Poset)
    ensures InRange(RunOf(p)) <==> TraceFits(p.trace)
    ensures RunOf(p)[..|RunOf(p)|] == RunOf(p)
  {
    var run := RunOf(p);
    InRangeStep(run, |run| - 1);
    assert run[..|run| - 1] == p.trace.sealed && run[..|run|] == run;
  }

  /** Genesis and all median times that a node ever saw are at most `bound`, and the blocks leave room above it. */
  ghost predicate ClocksBelow(p: Poset, bound: nat)
    reads p, p.clock
  {
    && RunOf(p)[0].start.prevEpoch.time <= bound
    && (forall k {:trigger RunOf(p)[k]} :: 0 <= k < |RunOf(p)| ==> MediansBelow(RunOf(p)[k].events, bound))
    && bound + |Chain(p.trace)| * SEQ_LIMIT < WORD
  }

  /** As long as the clocks stay clear of the end of the range, no time ever leaves it. */
  lemma ClocksKeepTimes(p: Poset, bound: nat)
    requires p.Settled() && ClocksBelow(p, bound)
    ensures TraceFits(p.trace)
  {
    var run := RunOf(p);
    NodeRuns(p);
    RunInRange(p);
    RunFits(p.app, run, bound, |run|);
  }

  /** Block times strictly increase over all epochs. */
  lemma BlockTimesOfNode(p: Poset, bound: nat, i: nat, j: nat)
    requires p.Settled() && ClocksBelow(p, bound) && i < j < |Chain(p.trace)|
    ensures RunOf(p)[0].start.prevEpoch.time < Chain(p.trace)[i].time < Chain(p.trace)[j].time
  {
    var genesis := RunOf(p)[0].start.prevEpoch.time;
    ClocksKeepTimes(p, bound);
    TimesIncreaseInRange(p, genesis);
    RisingIsIncreasing(genesis, Chain(p.trace), i, j);
    assert Rises(genesis, Chain(p.trace), 0);
    if i > 0 {
      RisingIsIncreasing(genesis, Chain(p.trace), 0, i);
    }
  }

  /** Causality over all epochs: a confirmed event is later than its ancestors and than every confirmed event of an
      earlier epoch. */
  lemma EventTimesOfNode(p: Poset, bound: nat, x: EventId, y: EventId)
    requires p.Settled() && ClocksBelow(p, bound) && x in p.ledger.confirmedOn && y in p.ledger.confirmedOn
    requires EpochOf(x) < EpochOf(y) || (x != y && Sees(p.clock.db.events, y, x))
    ensures HasTime(p.ledger, x) && HasTime(p.ledger, y) && TimeOf(p.ledger, x) < TimeOf(p.ledger, y)
  {
    assert Folds.Open(Folds.Roots);
    ClocksKeepTimes(p, bound);
    HistoryIsCausal(p.clock.db.events, p.clock.stakes, p.app.allowed, p.ledger, p.trace, x, y);
  }
}

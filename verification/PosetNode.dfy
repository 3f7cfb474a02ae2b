/** The consensus node (poset/poset.go, poset/frame_decide.go): accepts events, elects Atropoi, builds
    blocks and seals epochs. */
module PosetNode {
  import Folds
  import opened Dag
  import opened Stakes
  import opened Frames
  import opened Heads
  import opened FrameCalc
  import opened VectorSpec
  import opened VectorClock
  import VectorQuery
  import Median
  import opened RootStore
  import opened ElectionSafety
  import opened Election
  import opened ConsensusTime
  import opened Blocks
  import opened EpochLog
  import opened Epochs
  import opened History

  datatype Error = NotRelevant | Auth | WrongEpochHash | NonZeroEpochHash | CheatersObserved | WrongIsRoot | WrongFrame
    | WrongMedianTime

  /** `Crashed` stands for the fatal log of a failed election. */
  datatype Verdict = Accepted | Rejected(error: Error) | Crashed

  const ZERO_HASH: nat := 0

  /** The first event of a validator names the previous epoch, and no other does. */
  predicate EpochHashOk(e: Event, hash: nat) {
    e.prevEpochHash == if e.seqNum <= 1 then hash else ZERO_HASH
  }

  /** What the node demands of an event besides what the earlier checks established. */
  ghost predicate Acceptable(d: Graph, stakes: seq<nat>, genesis: nat, hash: nat, id: EventId, e: Event) {
    && EpochHashOk(e, hash)
    && NoCheaterParents(d, e)
    && FrameOk(d[id := e], stakes, id)
    && Median.IsMedian(Median.Entries(d[id := e], stakes, id, genesis), e.medianTime)
  }

  /** The first failure is reported: the hash of the previous epoch, cheaters among the parents, the root flag, the
      frame, and then the median time. A root flag can only be wrong if it is cleared without parents or set with
      them. */
  ghost predicate RightError(d: Graph, stakes: seq<nat>, hash: nat, id: EventId, e: Event, error: Error) {
    if !EpochHashOk(e, hash) then error == if e.seqNum <= 1 then WrongEpochHash else NonZeroEpochHash
    else if !NoCheaterParents(d, e) then error == CheatersObserved
    else if !FrameOk(d[id := e], stakes, id) then
      error == if e.isRoot == (|e.parents| > 0) then WrongIsRoot else WrongFrame
    else error == WrongMedianTime
  }

  lemma BoundOfFrames(table: set<Root>) returns (bound: nat)
    ensures forall r: Root :: r in table ==> r.frame < bound
    decreases |table|
  {
    if table == {} {
      bound := 0;
    } else {
      var r :| r in table;
      var b := BoundOfFrames(table - {r});
      bound := if b <= r.frame then r.frame + 1 else b;
    }
  }

  /** A decided frame lies two below some known root. */
  lemma AtroposIsKnown(d: Graph, stakes: seq<nat>, table: set<Root>, f: nat, a: EventId, bound: nat)
    requires RootsOk(d, stakes, table) && IsAtropos(d, stakes, f, a) && forall r: Root :: r in table ==> r.frame < bound
    ensures a in d && f + 2 < bound
  {
    assert Folds.Open(Folds.Roots);
    var v: nat :| v < |stakes| && IsAtroposOf(d, stakes, f, a, v);
    var r: EventId :| Decides(d, stakes, f, r, v, true);
    assert Root(d[r].frame, d[r].creator, r) in table;
    var s: EventId :| IsRootAt(d, s, f + 1) && IsCausingRoot(d, stakes, s, f, v, a);
  }

  /** `IsAtropos`, folded. */
  ghost predicate Chosen(d: Graph, stakes: seq<nat>, f: nat, a: EventId) {
    a in d && forall u {:trigger Folds.Open(u)} :: Folds.Open(u) && u == Folds.Choice ==> IsAtropos(d, stakes, f, a)
  }

  /** The time before the next frame (frameConsensusTime). */
  method LookupTime(ghost d: Graph, ghost stakes: seq<nat>, ghost allowed: (Event, nat) -> bool, ledger: Ledger,
      ghost trace: Trace, lastDecidedFrame: nat) returns (time: nat)
    requires Faithfully(d, stakes, allowed, ledger, trace) && lastDecidedFrame == |trace.log|
    ensures time == TimeAfter(trace.log, ledger.prevEpoch.time)
  {
    LastTime(d, stakes, allowed, ledger, trace);
    if lastDecidedFrame == 0 {
      time := ledger.prevEpoch.time;
    } else {
      time := ledger.infos[(ledger.epoch, lastDecidedFrame)].lastConsensusTime;
    }
  }

  /** How the first epoch started. */
  function FirstStart(h: Trace): Start {
    if h.sealed == [] then h.start else h.sealed[0].start
  }

  /** The genesis stays, and blocks are never taken back, nor sealed epochs, and within an epoch decided frames are not
      either; folded. */
  ghost predicate Grew(t: Ledger, h: Trace, t': Ledger, h': Trace) {
    forall u {:trigger Folds.Open(u)} :: Folds.Open(u) && u == Folds.Growth ==>
      && FirstStart(h') == FirstStart(h) && Chain(h) <= Chain(h') && h.sealed <= h'.sealed && t.epoch <= t'.epoch
      && (t'.epoch == t.epoch ==>
            h'.sealed == h.sealed && h'.start == h.start && h.log <= h'.log && t'.prevEpoch == t.prevEpoch)
  }

  /** The epoch with graph `d` was sealed after some more frames, and the next one has none yet; folded. */
  ghost predicate SealedOver(d: Graph, h: Trace, h': Trace) {
    forall u {:trigger Folds.Open(u)} :: Folds.Open(u) && u == Folds.Growth ==>
      && |h'.sealed| == |h.sealed| + 1 && h'.sealed[..|h.sealed|] == h.sealed && h'.log == []
      && var e := h'.sealed[|h.sealed|];
         e.events == d && e.start == h.start && h.log <= e.log
  }

  /** More frames of the same epoch. */
  predicate GoesOn(h: Trace, h': Trace) {
    h'.sealed == h.sealed && h'.start == h.start && h.log <= h'.log
  }

  lemma SealedLater(app: Application, d: Graph, h: Trace, h': Trace, r: Record)
    requires GoesOn(h, h')
    ensures GoesOn(h, Extended(h', r)) && SealedOver(d, h, SealedTrace(app, d, Extended(h', r)))
  {
  }

  lemma SealedAfterMore(d: Graph, h: Trace, h': Trace, h'': Trace)
    requires GoesOn(h, h') && SealedOver(d, h', h'')
    ensures SealedOver(d, h, h'')
  {
    assert Folds.Open(Folds.Growth);
  }

  lemma GrewNot(t: Ledger, h: Trace)
    ensures Grew(t, h, t, h)
  {
  }

  lemma GrewOn(t: Ledger, h: Trace, t': Ledger, h': Trace, t'': Ledger, h'': Trace)
    requires Grew(t, h, t', h') && Grew(t', h', t'', h'')
    ensures Grew(t, h, t'', h'')
  {
    assert Folds.Open(Folds.Growth);
  }

  /** Confirms the ancestors of the Atropos, tells the application of each, and builds the block of the frame
      (confirmBlock). */
  method ConfirmFrame(app: Application, clock: Index, ledger: Ledger, state: nat, ghost trace: Trace, frame: nat,
      atropos: EventId)
    returns (ledger': Ledger, state': nat, block: Block, cheaters: seq<nat>, ghost record: Record)
    requires clock.Valid() && Faithfully(clock.db.events, clock.stakes, app.allowed, ledger, trace)
    requires frame == |trace.log| + 1 && Chosen(clock.db.events, clock.stakes, frame, atropos)
    modifies clock`bi
    ensures clock.Valid()
    ensures record.block == block && record.cheaters == cheaters && block.atropos == atropos
    ensures state' == Hear(app.confirm, state, record.told)
    ensures Faithfully(clock.db.events, clock.stakes, app.allowed, ledger', Extended(trace, record))
    ensures ledger'.epoch == ledger.epoch && ledger'.prevEpoch == ledger.prevEpoch
  {
    ghost var d, n := clock.db.events, |clock.stakes|;
    var vec, times := clock.HighestBeforeAllBranches(atropos);
    HistoryClosed(d, clock.stakes, app.allowed, ledger, trace);
    var result, walk := ConfirmEvents(clock.db.events, n, ledger.confirmedOn, frame, atropos);
    var last := LookupTime(d, clock.stakes, app.allowed, ledger, trace, frame - 1);
    var info: FrameInfo, sane: bool;
    block, cheaters, info, state', sane, record :=
      BuildBlock(clock.db.events, |clock.stakes|, ledger.confirmedOn.Keys, atropos, vec, times, walk, last, app.allowed,
                 app.confirm, state, ledger.lastBlockN + 1, ledger.lastAtropos);
    ledger' := Ledger(ledger.epoch, ledger.prevEpoch, result, ledger.infos[(ledger.epoch, frame) := info],
                      ledger.lastBlockN + 1, atropos);
    RecordFrame(d, clock.stakes, app.allowed, ledger, trace, record, ledger');
  }

  lemma RecordFrame(d: Graph, stakes: seq<nat>, allowed: (Event, nat) -> bool, t: Ledger, h: Trace, r: Record,
      t': Ledger)
    requires WellFormed(d, |stakes|) && Faithfully(d, stakes, allowed, t, h)
    requires Chosen(d, stakes, |h.log| + 1, r.block.atropos)
    requires FrameResult(d, |stakes|, t.confirmedOn.Keys, r.block.atropos, TimeAfter(h.log, t.prevEpoch.time), allowed,
                         r)
    requires MarkedOn(t.confirmedOn, t'.confirmedOn, |h.log| + 1, Past(d, r.block.atropos) - t.confirmedOn.Keys)
    requires Booked(t, h, r, t')
    ensures Faithfully(d, stakes, allowed, t', Extended(h, r))
  {
    assert Folds.Open(Folds.Choice);
    HistoryDecide(d, stakes, allowed, t, h, r, t');
  }

  /** No parent comes from a validator that the self-parent has seen forking. */
  ghost predicate NoCheaterParents(d: Graph, e: Event) {
    e.SelfParent().Some? ==> forall p :: p in e.parents && p in d ==> !ForkSeen(d, e.SelfParent().value, d[p].creator)
  }

  /** Between events: nothing unflushed, and the root table describes the graph. */
  ghost predicate AtRest(clock: Index, store: Store)
    reads clock, store
  {
    clock.Valid() && store.Valid() && clock.db == clock.disk && RootsOk(clock.db.events, clock.stakes, store.table)
  }

  method ParentsAreHonest(clock: Index, e: Event) returns (ok: bool)
    requires clock.Valid() && forall p :: p in e.parents ==> p in clock.db.events
    modifies clock`bi
    ensures clock.Valid() && (ok <==> NoCheaterParents(clock.db.events, e))
  {
    var self := e.SelfParent();
    assert self.Some? ==> self.value in e.parents;
    var filtered := clock.NoCheaters(self, e.parents);
    if self.Some? {
      VectorQuery.HonestKeepsAll(clock.db.events, self.value, e.parents);
    }
    ok := |filtered| == |e.parents|;
  }

  /** Computes the median time of an added event and compares it with the claimed one. */
  method MedianIsRight(clock: Index, id: EventId, e: Event, genesis: nat) returns (ok: bool)
    requires clock.Valid() && id in clock.db.events
    modifies clock`bi
    ensures clock.Valid()
    ensures ok <==> Median.IsMedian(Median.Entries(clock.db.events, clock.stakes, id, genesis), e.medianTime)
  {
    var median := clock.MedianTime(id, genesis);
    ok := e.medianTime == median;
    ghost var entries := Median.Entries(clock.db.events, clock.stakes, id, genesis);
    if Median.IsMedian(entries, e.medianTime) {
      Median.MedianIsUnique(entries, entries, e.medianTime, median);
    }
  }

  lemma NewIsNotListed(d: Graph, stakes: seq<nat>, table: set<Root>, r: Root)
    requires RootsOk(d, stakes, table) && r.id !in d
    ensures r !in table
  {
    assert Folds.Open(Folds.Roots);
  }

  /** The checks on an event that the clock takes in, and stores only if they pass. */
  method AddIfRight(clock: Index, store: Store, id: EventId, e: Event, genesis: nat) returns (v: Verdict)
    requires AtRest(clock, store) && Addable(clock.db.events, |clock.stakes|, id, e) && e.frame >= 1
    requires id in clock.ever ==> clock.ever[id] == e
    modifies clock, store
    ensures clock.Valid() && store.Valid() && clock.db == clock.disk && !v.Crashed?
    ensures clock.ever == old(clock.ever) || clock.ever == old(clock.ever)[id := e]
    ensures v.Accepted? <==>
      && FrameOk(old(clock.db.events)[id := e], clock.stakes, id)
      && Median.IsMedian(Median.Entries(old(clock.db.events)[id := e], clock.stakes, id, genesis), e.medianTime)
    ensures v.Rejected? ==>
      v.error == if FrameOk(old(clock.db.events)[id := e], clock.stakes, id) then WrongMedianTime
                 else if e.isRoot == (|e.parents| > 0) then WrongIsRoot
                 else WrongFrame
    ensures clock.db.events == if v.Accepted? then old(clock.db.events)[id := e] else old(clock.db.events)
    ensures store.table == if v.Accepted? && e.isRoot then old(store.table) + {Root(e.frame, e.creator, id)}
      else old(store.table)
  {
    ghost var d := clock.db.events;
    clock.Add(id, e);
    var frame, isRoot := CalcFrameIdx(d, clock, store, id, e, true);
    if e.isRoot != isRoot {
      clock.DropNotFlushed();
      return Rejected(WrongIsRoot);
    }
    if e.frame != frame {
      clock.DropNotFlushed();
      return Rejected(WrongFrame);
    }
    var median := MedianIsRight(clock, id, e, genesis);
    if !median {
      clock.DropNotFlushed();
      return Rejected(WrongMedianTime);
    }
    clock.Flush();
    if e.isRoot {
      NewIsNotListed(d, clock.stakes, store.table, Root(e.frame, e.creator, id));
      store.AddRoot(Root(e.frame, e.creator, id));
    }
    clock.DropNotFlushed();
    return Accepted;
  }

  /** Fills in the fields of a draft and forgets the draft. */
  method Complete(clock: Index, store: Store, id: EventId, e: Event, genesis: nat, hash: nat) returns (e': Event)
    requires AtRest(clock, store) && Addable(clock.db.events, |clock.stakes|, id, e)
    requires id in clock.ever ==> clock.ever[id] == e
    modifies clock, store`cache
    ensures clock.Valid() && store.Valid() && clock.db == clock.disk && clock.db.events == old(clock.db.events)
    ensures clock.ever == old(clock.ever)[id := e]
    ensures SameBody(e, e') && PreparedOk(clock.db.events, clock.stakes, genesis, hash, e')
    ensures HighestFrame(clock.db.events, clock.stakes, e')
  {
    ghost var d := clock.db.events;
    clock.Add(id, e);
    var frame, isRoot := CalcFrameIdx(d, clock, store, id, e, false);
    var median := clock.MedianTime(id, genesis);
    var own := if e.seqNum <= 1 then hash else ZERO_HASH;
    e' := e.(frame := frame, isRoot := isRoot, medianTime := median, prevEpochHash := own);
    PreparedIsOk(d, clock.stakes, store.table, genesis, hash, id, e, e');
    clock.DropNotFlushed();
  }

  /** checkAndSaveEvent: exactly the acceptable events are stored; of the others nothing stays. */
  method CheckAndSaveEvent(clock: Index, store: Store, id: EventId, e: Event, genesis: nat, hash: nat)
      returns (v: Verdict)
    requires AtRest(clock, store) && Addable(clock.db.events, |clock.stakes|, id, e) && e.frame >= 1
    requires id in clock.ever ==> clock.ever[id] == e
    modifies clock, store
    ensures clock.Valid() && store.Valid() && clock.db == clock.disk && !v.Crashed?
    ensures clock.ever == old(clock.ever) || clock.ever == old(clock.ever)[id := e]
    ensures v.Accepted? <==> Acceptable(old(clock.db.events), clock.stakes, genesis, hash, id, e)
    ensures v.Rejected? ==> RightError(old(clock.db.events), clock.stakes, hash, id, e, v.error)
    ensures clock.db.events == if v.Accepted? then old(clock.db.events)[id := e] else old(clock.db.events)
    ensures store.table == if v.Accepted? && e.isRoot then old(store.table) + {Root(e.frame, e.creator, id)}
      else old(store.table)
  {
    if e.seqNum <= 1 && e.prevEpochHash != hash {
      return Rejected(WrongEpochHash);
    }
    if e.seqNum > 1 && e.prevEpochHash != ZERO_HASH {
      return Rejected(NonZeroEpochHash);
    }
    var honest := ParentsAreHonest(clock, e);
    if !honest {
      return Rejected(CheatersObserved);
    }
    v := AddIfRight(clock, store, id, e, genesis);
  }

  /** The clock, root table and election of a fresh epoch. */
  method StartEpoch(stakes: seq<nat>) returns (c: Index, s: Store, el: Election)
    requires Sane(stakes)
    ensures fresh(c) && fresh(s) && fresh(el) && el.clock == c && el.store == s
    ensures c.stakes == stakes && c.db == c.disk && c.db.events == map[] && c.ever == map[] && s.table == {}
    ensures el.WorldOk() && el.ValidFor(map[]) && el.frameToDecide == 1 && StillOpen(|stakes|, el.decidedRoots)
  {
    c := new Index(stakes);
    s := new Store();
    el := new Election(c, s, 1);
    NothingDecided(|stakes|);
  }

  lemma ChosenIsKnown(d: Graph, stakes: seq<nat>, table: set<Root>, f: nat, a: EventId, bound: nat)
    requires RootsOk(d, stakes, table) && Chosen(d, stakes, f, a) && forall r: Root :: r in table ==> r.frame < bound
    ensures f + 2 < bound
  {
    assert Folds.Open(Folds.Choice);
    AtroposIsKnown(d, stakes, table, f, a, bound);
  }

  lemma FrameDescends(app: Application, d: Graph, stakes: seq<nat>, t: Ledger, s: Standing, h: Trace, r: Record,
      t': Ledger, reply: Reply)
    requires Descends(app, stakes, t, s, h) && NotSealed(app, h) && t'.epoch == t.epoch && t'.prevEpoch == t.prevEpoch
    requires reply == Answer(app, s.state, r, |h.log| + 1)
    ensures Descends(app, stakes, t', Replied(app, s, reply), Extended(h, r))
    ensures if reply.seals then SealsNow(app, d, Extended(h, r)) else NotSealed(app, Extended(h, r))
    ensures Grew(t, h, t', Extended(h, r))
  {
    DescentDecide(app, d, stakes, t, s, h, r, t', reply);
    ChainOfExtended(h, r);
  }

  lemma SealDescends(app: Application, d: Graph, stakes: seq<nat>, table: set<Root>, t: Ledger, s: Standing, h: Trace,
      t': Ledger)
    requires Faithfully(d, stakes, app.allowed, t, h) && Descends(app, stakes, t, s, h)
    requires RootsOk(d, stakes, table) && Sane(stakes) && SealsNow(app, d, h)
    requires t' == t.(epoch := t.epoch + 1, prevEpoch := SealedState(t, s, h))
    ensures var stakes' := app.nextStakes(s.state, t'.epoch);
      var h' := SealedTrace(app, d, h);
      && Faithfully(map[], stakes', app.allowed, t', h') && Descends(app, stakes', t', s, h') && NotSealed(app, h')
      && Grew(t, h, t', h')
  {
    assert Folds.Open(Folds.Roots);
    DescentSeal(app, d, stakes, t, s, h, t');
    HistorySeal(app, d, stakes, t, h, app.nextStakes(s.state, t'.epoch), t');
    ChainOfSealed(app, d, h);
  }

  /** Builds the block of a frame, with the application told of its events, and hands it to the application. */
  method ApplyFrame(app: Application, clock: Index, ledger: Ledger, standing: Standing, ghost trace: Trace, frame: nat,
      atropos: EventId)
    returns (ledger': Ledger, standing': Standing, sealed: bool, ghost r: Record)
    requires clock.Valid() && Faithfully(clock.db.events, clock.stakes, app.allowed, ledger, trace)
    requires Descends(app, clock.stakes, ledger, standing, trace) && NotSealed(app, trace)
    requires frame == |trace.log| + 1 && Chosen(clock.db.events, clock.stakes, frame, atropos)
    modifies clock`bi
    ensures clock.Valid() && Faithfully(clock.db.events, clock.stakes, app.allowed, ledger', Extended(trace, r))
    ensures Descends(app, clock.stakes, ledger', standing', Extended(trace, r))
    ensures if sealed then SealsNow(app, clock.db.events, Extended(trace, r)) else NotSealed(app, Extended(trace, r))
    ensures Grew(ledger, trace, ledger', Extended(trace, r)) && ledger'.epoch == ledger.epoch
    ensures r.block.atropos == atropos
    ensures var reply := app.apply(Hear(app.confirm, standing.state, r.told), r.block, frame, r.cheaters);
      standing' == Replied(app, standing, reply) && sealed == reply.seals
  {
    var state', block, cheaters;
    ledger', state', block, cheaters, r := ConfirmFrame(app, clock, ledger, standing.state, trace, frame, atropos);
    var reply := app.apply(state', block, frame, cheaters);
    standing', sealed := Replied(app, standing, reply), reply.seals;
    FrameDescends(app, clock.db.events, clock.stakes, ledger, standing, trace, r, ledger', reply);
  }

  /** The tables of the next epoch, and its clock, roots and election. */
  method NextEpoch(app: Application, ghost d: Graph, ghost stakes: seq<nat>, ghost table: set<Root>, ledger: Ledger,
      standing: Standing, ghost trace: Trace, lastDecidedFrame: nat)
    returns (ledger': Ledger, c: Index, s: Store, el: Election)
    requires Faithfully(d, stakes, app.allowed, ledger, trace) && Descends(app, stakes, ledger, standing, trace)
    requires RootsOk(d, stakes, table) && Sane(stakes) && SealsNow(app, d, trace) && lastDecidedFrame == |trace.log|
    ensures ledger' == ledger.(epoch := ledger.epoch + 1, prevEpoch := SealedState(ledger, standing, trace))
    ensures fresh(c) && fresh(s) && fresh(el) && el.clock == c && el.store == s
    ensures c.stakes == app.nextStakes(standing.state, ledger'.epoch) && c.db == c.disk && c.db.events == map[]
    ensures s.table == {} && c.ever == map[]
    ensures el.WorldOk() && el.ValidFor(map[]) && el.frameToDecide == 1 && StillOpen(|c.stakes|, el.decidedRoots)
    ensures Faithfully(map[], c.stakes, app.allowed, ledger', SealedTrace(app, d, trace))
    ensures Descends(app, c.stakes, ledger', standing, SealedTrace(app, d, trace))
    ensures NotSealed(app, SealedTrace(app, d, trace)) && Grew(ledger, trace, ledger', SealedTrace(app, d, trace))
  {
    var time := LookupTime(d, stakes, app.allowed, ledger, trace, lastDecidedFrame);
    var prev := GenesisState(ledger.epoch, time, ledger.lastAtropos, standing.appHash);
    ledger' := ledger.(epoch := ledger.epoch + 1, prevEpoch := prev);
    c, s, el := StartEpoch(app.nextStakes(standing.state, ledger'.epoch));
    SealDescends(app, d, stakes, table, ledger, standing, trace, ledger');
  }

  class Poset {
    const app: Application

    var clock: Index
    var store: Store
    var election: Election
    var ledger: Ledger
    var standing: Standing
    var lastDecidedFrame: nat
    ghost var trace: Trace

    /** Graph, root table, election, tables and application agree; nothing is unflushed. */
    ghost predicate Settled()
      reads this, clock, store, election
    {
      && election.clock == clock && election.store == store
      && election.WorldOk() && clock.db == clock.disk
      && election.ValidFor(clock.db.events) && election.frameToDecide == lastDecidedFrame + 1
      && lastDecidedFrame == |trace.log|
      && Faithfully(clock.db.events, clock.stakes, app.allowed, ledger, trace)
      && Descends(app, clock.stakes, ledger, standing, trace) && NotSealed(app, trace)
    }

    /** Every known root above the frame to decide has voted, and the election is open. */
    ghost predicate CaughtUp()
      reads this, store, election
    {
      && StillOpen(|clock.stakes|, election.decidedRoots)
      && forall r: Root :: r in store.table && r.frame > election.frameToDecide ==> r.id in election.processed
    }

    ghost predicate Valid()
      reads this, clock, store, election
    {
      Settled() && CaughtUp()
    }

    /** The first epoch, from the genesis data (ApplyGenesis). */
    constructor (stakes: seq<nat>, time: nat, atropos: EventId, standing: Standing, app: Application)
      requires Sane(stakes)
      ensures Valid() && clock.db.events == map[] && clock.ever == map[] && this.app == app
      ensures trace == Trace([], Start(stakes, GenesisState(0, time, atropos, standing.appHash), standing, 0), [])
      ensures ledger.epoch == 1 && ledger.prevEpoch == trace.start.prevEpoch && this.standing == standing
      ensures fresh(clock) && fresh(store) && fresh(election)
    {
      this.app := app;
      var c, s, el := StartEpoch(stakes);
      clock, store, election := c, s, el;
      var prev := GenesisState(0, time, atropos, standing.appHash);
      ledger := Ledger(1, prev, map[], map[], 0, atropos);
      this.standing := standing;
      lastDecidedFrame := 0;
      trace := Trace([], Start(stakes, prev, standing, 0), []);
      HistoryStart(stakes, app.allowed, 1, Start(stakes, prev, standing, 0));
    }

    // -------------------------------------------------------------- decided frames

    /** The application has ended the epoch, and the node is ready to seal it. */
    ghost predicate ReadyToSeal()
      reads this, clock, store
    {
      && RootsOk(clock.db.events, clock.stakes, store.table) && Sane(clock.stakes) && lastDecidedFrame == |trace.log|
      && Faithfully(clock.db.events, clock.stakes, app.allowed, ledger, trace)
      && Descends(app, clock.stakes, ledger, standing, trace) && SealsNow(app, clock.db.events, trace)
    }

    /** Moves to the next frame: builds the block and hands it to the application. */
    method DecideFrame(frame: nat, atropos: EventId) returns (sealed: bool, ghost r: Record)
      requires Settled() && frame == lastDecidedFrame + 1 && Chosen(clock.db.events, clock.stakes, frame, atropos)
      modifies this`ledger, this`standing, this`trace, this`lastDecidedFrame, clock`bi, election
      ensures if sealed then ReadyToSeal() else Settled()
      ensures lastDecidedFrame == frame && election.processed == {} && election.decidedRoots == map[]
      ensures Grew(old(ledger), old(trace), ledger, trace) && ledger.epoch == old(ledger.epoch)
      ensures r.block.atropos == atropos
      ensures var reply := app.apply(Hear(app.confirm, old(standing).state, r.told), r.block, frame, r.cheaters);
        && sealed == reply.seals
        && standing == Standing(reply.state, app.mix(old(standing).appHash, reply.hash))
      ensures trace == Extended(old(trace), r)
    {
      election.Reset(frame + 1);
      lastDecidedFrame := frame;
      var ledger', standing';
      ledger', standing', sealed, r := ApplyFrame(app, clock, ledger, standing, trace, frame, atropos);
      ledger, standing, trace := ledger', standing', Extended(trace, r);
    }

    /** onFrameDecided: moves to the next frame, and seals the epoch if the application says so. */
    method OnFrameDecided(frame: nat, atropos: EventId) returns (sealed: bool, ghost r: Record)
      requires Settled() && frame == lastDecidedFrame + 1 && Chosen(clock.db.events, clock.stakes, frame, atropos)
      modifies this, clock`bi, election
      ensures Settled() && (sealed ==> CaughtUp() && fresh(clock) && fresh(store) && fresh(election))
      ensures sealed ==> ledger.epoch == old(ledger.epoch) + 1 && clock.db.events == map[] && clock.ever == map[]
      ensures !sealed ==> clock == old(clock) && store == old(store) && election == old(election)
      ensures !sealed ==> lastDecidedFrame == frame && election.processed == {} && election.decidedRoots == map[]
      ensures Grew(old(ledger), old(trace), ledger, trace) && (sealed <==> ledger.epoch != old(ledger.epoch))
      ensures r.block.atropos == atropos
      ensures var reply := app.apply(Hear(app.confirm, old(standing).state, r.told), r.block, frame, r.cheaters);
        && sealed == reply.seals
        && standing == Standing(reply.state, app.mix(old(standing).appHash, reply.hash))
      ensures trace == if sealed then SealedTrace(app, old(clock.db.events), Extended(old(trace), r))
        else Extended(old(trace), r)
    {
      sealed, r := DecideFrame(frame, atropos);
      if sealed {
        ghost var ledger', trace' := ledger, trace;
        SealEpoch();
        GrewOn(old(ledger), old(trace), ledger', trace', ledger, trace);
      }
    }

    /** The next epoch: an empty graph, the next validators, and a record of the epoch before. */
    method SealEpoch()
      requires ReadyToSeal()
      modifies this
      ensures Valid() && fresh(clock) && fresh(store) && fresh(election) && standing == old(standing)
      ensures clock.db.events == map[] && clock.ever == map[]
      ensures clock.stakes == app.nextStakes(standing.state, ledger.epoch)
      ensures ledger == old(ledger).(epoch := old(ledger).epoch + 1, prevEpoch := ledger.prevEpoch)
      ensures ledger.prevEpoch == GenesisState(old(ledger).epoch, TimeAfter(old(trace).log, old(ledger).prevEpoch.time),
                                               old(ledger).lastAtropos, standing.appHash)
      ensures trace == SealedTrace(app, old(clock.db.events), old(trace))
      ensures Grew(old(ledger), old(trace), ledger, trace)
    {
      ghost var trace' := SealedTrace(app, clock.db.events, trace);
      var ledger', c, s, el :=
        NextEpoch(app, clock.db.events, clock.stakes, store.table, ledger, standing, trace, lastDecidedFrame);
      clock, store, election := c, s, el;
      ledger, trace, lastDecidedFrame := ledger', trace', 0;
    }

    // -------------------------------------------------------------- elections

    /** Replays the election with all known roots, frame by frame, up to the first frame without any. */
    method ProcessKnownRoots() returns (res: Outcome)
      requires Settled() && election.processed == {} && election.decidedRoots == map[]
      modifies election, clock`cache, clock`bi, store`cache
      ensures Settled() && (res.Undecided? ==> CaughtUp())
      ensures res.Elected? ==>
        res.frame == lastDecidedFrame + 1 && Chosen(clock.db.events, clock.stakes, res.frame, res.atropos)
      ensures Honest(clock.db.events, clock.stakes) ==> !res.Failed?
    {
      ghost var bound := BoundOfFrames(store.table);
      NothingDecided(|clock.stakes|);
      var f := lastDecidedFrame + 1;
      while true
        invariant Settled() && f > lastDecidedFrame && StillOpen(|clock.stakes|, election.decidedRoots)
        invariant VotedBelow(store.table, election.frameToDecide, f, election.processed)
        invariant f <= bound || f == lastDecidedFrame + 1
        decreases bound - f
      {
        var roots := store.GetFrameRoots(f);
        res := ProcessFrame(roots, f);
        if !res.Undecided? {
          return;
        }
        if |roots| == 0 {
          EmptyFrame(clock.db.events, clock.stakes, store.table, f);
          return;
        }
        assert roots[0] in roots;
        f := f + 1;
      }
    }

    /** The roots of one frame, in any order. */
    method ProcessFrame(roots: seq<Root>, f: nat) returns (res: Outcome)
      requires Settled() && f > lastDecidedFrame && ListsFrame(store.table, f, roots)
      requires StillOpen(|clock.stakes|, election.decidedRoots)
      requires VotedBelow(store.table, election.frameToDecide, f, election.processed)
      modifies election, clock`cache, clock`bi, store`cache
      ensures Settled()
      ensures (res.Undecided? ==> VotedBelow(store.table, election.frameToDecide, f + 1, election.processed))
      ensures res.Undecided? ==> StillOpen(|clock.stakes|, election.decidedRoots)
      ensures res.Elected? ==>
        res.frame == lastDecidedFrame + 1 && Chosen(clock.db.events, clock.stakes, res.frame, res.atropos)
      ensures Honest(clock.db.events, clock.stakes) ==> !res.Failed?
    {
      res := Undecided;
      for i := 0 to |roots|
        invariant Settled() && ListsFrame(store.table, f, roots) && res.Undecided?
        invariant StillOpen(|clock.stakes|, election.decidedRoots)
        invariant VotedBelow(store.table, election.frameToDecide, f, election.processed)
        invariant f > election.frameToDecide ==> forall j :: 0 <= j < i ==> roots[j].id in election.processed
      {
        assert roots[i] in roots;
        EarlierVoted(clock.db.events, clock.stakes, store.table, election.frameToDecide, roots[i], election.processed);
        res := ProcessRoot(roots[i]);
        if !res.Undecided? {
          return;
        }
      }
    }

    // -------------------------------------------------------------- events

    /** The event is of this epoch and by a validator; its parents are known and the earlier checks passed. */
    ghost predicate Ready(id: EventId, e: Event)
      reads this, clock
    {
      && EpochOf(id) == e.epoch == ledger.epoch && LamportOf(id) == e.lamport
      && Addable(clock.db.events, |clock.stakes|, id, e) && e.frame >= 1
      && (id in clock.ever ==> clock.ever[id] == e)
    }

    /** The event is acceptable to the node as it is now; folded. */
    ghost predicate Accepts(id: EventId, e: Event)
      reads this, clock
    {
      forall u {:trigger Folds.Open(u)} :: Folds.Open(u) && u == Folds.Verdict ==>
        Acceptable(clock.db.events, clock.stakes, ledger.prevEpoch.time, app.digest(ledger.prevEpoch), id, e)
    }

    /** Checks an event and, if acceptable, adds it; the election has yet to hear of it. */
    method SaveEvent(id: EventId, e: Event) returns (v: Verdict)
      requires Valid() && Ready(id, e)
      modifies clock, store
      ensures Settled() && !v.Crashed?
      ensures v.Accepted? <==> old(Accepts(id, e))
      ensures v.Rejected? ==>
        RightError(old(clock.db.events), clock.stakes, app.digest(ledger.prevEpoch), id, e, v.error)
      ensures clock.db.events == if v.Accepted? then old(clock.db.events)[id := e] else old(clock.db.events)
      ensures store.table == if v.Accepted? && e.isRoot then old(store.table) + {Root(e.frame, e.creator, id)}
        else old(store.table)
      ensures v.Accepted? && e.frame > election.frameToDecide + 1 ==>
        CausesProcessed(clock.db.events, clock.stakes, id, e.frame - 1, election.processed)
      ensures clock.ever == old(clock.ever) || clock.ever == old(clock.ever)[id := e]
      ensures v.Rejected? || !e.isRoot ==> CaughtUp()
      ensures v.Accepted? ==>
        OthersVoted(store.table, election.frameToDecide, Root(e.frame, e.creator, id), election.processed)
    {
      ghost var d, table := clock.db.events, store.table;
      assert Folds.Open(Folds.Verdict);
      v := CheckAndSaveEvent(clock, store, id, e, ledger.prevEpoch.time, app.digest(ledger.prevEpoch));
      if v.Accepted? {
        AcceptedSettles(d, clock.stakes, app.allowed, ledger, trace, id, e, table, store.table,
                        election.frameToDecide, election.votes, election.decidedRoots, election.processed);
      }
    }

    /** ProcessEvent: a rejected event leaves the node as it was; an accepted one may decide frames and seal the
        epoch. */
    method ProcessEvent(id: EventId, e: Event) returns (v: Verdict)
      requires Valid() && (e.epoch == ledger.epoch && e.creator < |clock.stakes| ==> Ready(id, e))
      modifies this, clock, store, election
      ensures Settled() && (if v.Crashed? then ledger.epoch == old(ledger.epoch) else CaughtUp())
      ensures v == Rejected(NotRelevant) <==> old(ledger.epoch) != e.epoch
      ensures old(ledger.epoch) == e.epoch ==> (v == Rejected(Auth) <==> e.creator >= old(|clock.stakes|))
      ensures old(ledger.epoch) == e.epoch && e.creator < old(|clock.stakes|) ==>
        && (v.Rejected? <==> !old(Accepts(id, e)))
        && (v.Rejected? ==>
              RightError(old(clock.db.events), old(clock.stakes), app.digest(old(ledger.prevEpoch)), id, e, v.error))
      ensures v.Rejected? ==> clock == old(clock) && clock.db.events == old(clock.db.events)
      ensures v.Rejected? ==> ledger == old(ledger) && standing == old(standing) && trace == old(trace)
      ensures Grew(old(ledger), old(trace), ledger, trace)
      ensures ledger.epoch == old(ledger.epoch) ==>
        clock == old(clock) && store == old(store) && election == old(election)
      ensures ledger.epoch == old(ledger.epoch) && !v.Rejected? ==> clock.db.events == old(clock.db.events)[id := e]
      ensures ledger.epoch == old(ledger.epoch) ==>
        clock.ever == old(clock.ever) || clock.ever == old(clock.ever)[id := e]
      ensures ledger.epoch != old(ledger.epoch) ==>
        && ledger.epoch == old(ledger.epoch) + 1 && SealedOver(old(clock.db.events)[id := e], old(trace), trace)
        && fresh(clock) && fresh(store) && fresh(election) && clock.db.events == map[] && clock.ever == map[]
      ensures old(Honest(clock.db.events[id := e], clock.stakes)) ==> !v.Crashed?
    {
      GrewNot(ledger, trace);
      if e.epoch != ledger.epoch {
        return Rejected(NotRelevant);
      }
      if e.creator >= |clock.stakes| {
        return Rejected(Auth);
      }
      v := Admit(id, e);
    }

    /** Saves an event of this epoch and runs the election on a new root. */
    method Admit(id: EventId, e: Event) returns (v: Verdict)
      requires Valid() && Ready(id, e)
      modifies this, clock, store, election
      ensures Settled() && (if v.Crashed? then ledger.epoch == old(ledger.epoch) else CaughtUp())
      ensures v.Rejected? <==> !old(Accepts(id, e))
      ensures v.Rejected? ==>
        RightError(old(clock.db.events), old(clock.stakes), app.digest(old(ledger.prevEpoch)), id, e, v.error)
      ensures v.Rejected? ==> clock == old(clock) && clock.db.events == old(clock.db.events)
      ensures v.Rejected? ==> ledger == old(ledger) && standing == old(standing) && trace == old(trace)
      ensures Grew(old(ledger), old(trace), ledger, trace)
      ensures ledger.epoch == old(ledger.epoch) ==>
        clock == old(clock) && store == old(store) && election == old(election)
      ensures ledger.epoch == old(ledger.epoch) && !v.Rejected? ==> clock.db.events == old(clock.db.events)[id := e]
      ensures ledger.epoch == old(ledger.epoch) ==>
        clock.ever == old(clock.ever) || clock.ever == old(clock.ever)[id := e]
      ensures ledger.epoch != old(ledger.epoch) ==>
        && ledger.epoch == old(ledger.epoch) + 1 && SealedOver(old(clock.db.events)[id := e], old(trace), trace)
        && fresh(clock) && fresh(store) && fresh(election) && clock.db.events == map[] && clock.ever == map[]
      ensures old(Honest(clock.db.events[id := e], clock.stakes)) ==> !v.Crashed?
    {
      v := SaveEvent(id, e);
      GrewNot(ledger, trace);
      if v.Accepted? && e.isRoot {
        var crashed := HandleElection(Some(Root(e.frame, e.creator, id)));
        if crashed {
          v := Crashed;
        }
      }
    }

    /** Prepare: fills in frame, root flag, median time and previous-epoch hash of a draft, under whose hash nothing
        stays. Whatever hash the finished event gets, it is acceptable, unless a parent is a known cheater, and no
        higher frame would be. */
    method Prepare(id: EventId, e: Event) returns (out: Option<Event>)
      requires Valid()
      requires e.epoch == ledger.epoch && e.creator < |clock.stakes| ==>
        Addable(clock.db.events, |clock.stakes|, id, e) && (id in clock.ever ==> clock.ever[id] == e)
      modifies clock, store`cache
      ensures Valid() && clock.db.events == old(clock.db.events)
      ensures clock.ever == old(clock.ever) || clock.ever == old(clock.ever)[id := e]
      ensures out.Some? <==> e.epoch == ledger.epoch && e.creator < |clock.stakes|
      ensures out.Some? ==> SameBody(e, out.value)
      ensures out.Some? ==>
        PreparedOk(clock.db.events, clock.stakes, ledger.prevEpoch.time, app.digest(ledger.prevEpoch), out.value)
      ensures out.Some? ==> HighestFrame(clock.db.events, clock.stakes, out.value)
    {
      if e.epoch != ledger.epoch || e.creator >= |clock.stakes| {
        return None;
      }
      var e' := Complete(clock, store, id, e, ledger.prevEpoch.time, app.digest(ledger.prevEpoch));
      return Some(e');
    }

    /** GetConsensusTime: the time of a confirmed event of this or an earlier epoch. */
    method GetConsensusTime(id: EventId) returns (time: Option<nat>)
      requires Valid()
      ensures time.Some? <==> id in ledger.confirmedOn
      ensures time.Some? ==> HasTime(ledger, id) && time.value == TimeOf(ledger, id)
    {
      ConfirmedHasTime(clock.db.events, clock.stakes, app.allowed, ledger, trace, id);
      var f := if id in ledger.confirmedOn then ledger.confirmedOn[id] else 0;
      if f == 0 {
        return None;
      }
      return Some(ledger.infos[(EpochOf(id), f)].CalcConsensusTime(LamportOf(id)));
    }

    /** After a new root, or at start: decides as many frames as the known roots allow. */
    method HandleElection(root: Option<Root>) returns (crashed: bool)
      requires Settled() && (root.None? ==> election.processed == {} && election.decidedRoots == map[])
      requires root.Some? ==> root.value in store.table
      requires root.Some? && root.value.frame > election.frameToDecide + 1 ==>
        CausesProcessed(clock.db.events, clock.stakes, root.value.id, root.value.frame - 1, election.processed)
      requires root.Some? ==> OthersVoted(store.table, election.frameToDecide, root.value, election.processed)
      modifies this, clock`cache, clock`bi, store`cache, election
      ensures Settled() && (if crashed then ledger.epoch == old(ledger.epoch) else CaughtUp())
      ensures Grew(old(ledger), old(trace), ledger, trace)
      ensures ledger.epoch == old(ledger.epoch) ==> clock == old(clock) && clock.db.events == old(clock.db.events)
      ensures ledger.epoch == old(ledger.epoch) ==> store == old(store) && election == old(election)
      ensures ledger.epoch != old(ledger.epoch) ==>
        && ledger.epoch == old(ledger.epoch) + 1 && SealedOver(old(clock.db.events), old(trace), trace)
        && fresh(clock) && fresh(store) && fresh(election) && clock.db.events == map[] && clock.ever == map[]
      ensures old(Honest(clock.db.events, clock.stakes)) ==> !crashed
    {
      crashed := false;
      var more := true;
      GrewNot(ledger, trace);
      if root.Some? {
        crashed, more := DecideByRoot(root.value);
      }
      if more {
        ghost var ledger', trace' := ledger, trace;
        crashed := DecideKnown();
        GrewOn(old(ledger), old(trace), ledger', trace', ledger, trace);
        if ledger.epoch != old(ledger.epoch) {
          SealedAfterMore(old(clock.db.events), old(trace), trace', trace);
        }
      }
    }

    /** The votes of one root; there is more to do if they decided a frame that does not end the epoch. */
    method DecideByRoot(root: Root) returns (crashed: bool, more: bool)
      requires Settled() && root in store.table
      requires root.frame > election.frameToDecide + 1 ==>
        CausesProcessed(clock.db.events, clock.stakes, root.id, root.frame - 1, election.processed)
      requires OthersVoted(store.table, election.frameToDecide, root, election.processed)
      modifies this, clock`cache, clock`bi, store`cache, election
      ensures Settled() && (crashed ==> !more) && (!crashed && !more ==> CaughtUp())
      ensures more ==> election.processed == {} && election.decidedRoots == map[] && GoesOn(old(trace), trace)
      ensures crashed || more ==> ledger.epoch == old(ledger.epoch)
      ensures Grew(old(ledger), old(trace), ledger, trace)
      ensures ledger.epoch == old(ledger.epoch) ==> clock == old(clock) && clock.db.events == old(clock.db.events)
      ensures ledger.epoch == old(ledger.epoch) ==> store == old(store) && election == old(election)
      ensures ledger.epoch != old(ledger.epoch) ==>
        && ledger.epoch == old(ledger.epoch) + 1 && SealedOver(old(clock.db.events), old(trace), trace)
        && fresh(clock) && fresh(store) && fresh(election) && clock.db.events == map[] && clock.ever == map[]
      ensures old(Honest(clock.db.events, clock.stakes)) ==> !crashed
    {
      GrewNot(ledger, trace);
      ListedFrame(clock.db.events, clock.stakes, store.table, root);
      var res := ProcessRoot(root);
      if !res.Elected? {
        return res.Failed?, false;
      }
      ghost var r;
      var sealed;
      sealed, r := OnFrameDecided(res.frame, res.atropos);
      SealedLater(app, old(clock.db.events), old(trace), old(trace), r);
      return false, !sealed;
    }

    /** Decides frame after frame until the election stays open or the epoch is sealed. */
    method DecideKnown() returns (crashed: bool)
      requires Settled() && election.processed == {} && election.decidedRoots == map[]
      modifies this, clock`cache, clock`bi, store`cache, election
      ensures Settled() && (if crashed then ledger.epoch == old(ledger.epoch) else CaughtUp())
      ensures Grew(old(ledger), old(trace), ledger, trace)
      ensures ledger.epoch == old(ledger.epoch) ==> clock == old(clock) && clock.db.events == old(clock.db.events)
      ensures ledger.epoch == old(ledger.epoch) ==> store == old(store) && election == old(election)
      ensures ledger.epoch != old(ledger.epoch) ==>
        && ledger.epoch == old(ledger.epoch) + 1 && SealedOver(old(clock.db.events), old(trace), trace)
        && fresh(clock) && fresh(store) && fresh(election) && clock.db.events == map[] && clock.ever == map[]
      ensures old(Honest(clock.db.events, clock.stakes)) ==> !crashed
    {
      ghost var bound := BoundOfFrames(store.table);
      GrewNot(ledger, trace);
      while true
        invariant Settled() && election.processed == {} && election.decidedRoots == map[]
        invariant clock == old(clock) && store == old(store) && election == old(election)
        invariant clock.db == old(clock.db) && store.table == old(store.table)
        invariant Grew(old(ledger), old(trace), ledger, trace) && ledger.epoch == old(ledger.epoch)
        invariant GoesOn(old(trace), trace)
        decreases bound - lastDecidedFrame
      {
        var res := ProcessKnownRoots();
        if res.Undecided? {
          return false;
        }
        if res.Failed? {
          return true;
        }
        ChosenIsKnown(clock.db.events, clock.stakes, store.table, res.frame, res.atropos, bound);
        ghost var ledger', trace' := ledger, trace;
        var sealed, r := OnFrameDecided(res.frame, res.atropos);
        GrewOn(old(ledger), old(trace), ledger', trace', ledger, trace);
        SealedLater(app, old(clock.db.events), old(trace), trace', r);
        if sealed {
          return false;
        }
      }
    }

    method ProcessRoot(r: Root) returns (res: Outcome)
      requires Settled() && r in store.table && election.InOrder(r.id)
      modifies election, clock`cache, clock`bi, store`cache
      ensures Settled()
      ensures res.Elected? ==>
        res.frame == lastDecidedFrame + 1 && Chosen(clock.db.events, clock.stakes, res.frame, res.atropos)
      ensures Honest(clock.db.events, clock.stakes) ==> !res.Failed?
      ensures res.Undecided? ==>
        election.processed == old(election.processed) + if r.frame > election.frameToDecide then {r.id} else {}
      ensures res.Undecided? ==> StillOpen(|clock.stakes|, election.decidedRoots)
    {
      res := election.ProcessRoot(r);
      if res.Elected? {
        ElectedIsChosen(clock.db.events, clock.stakes, res.frame, res.atropos);
      }
    }
  }

  /** Under every hash, the event is acceptable unless a parent is a known cheater. */
  ghost predicate PreparedOk(d: Graph, stakes: seq<nat>, genesis: nat, hash: nat, e: Event) {
    forall id: EventId {:trigger Addable(d, |stakes|, id, e)} :: Addable(d, |stakes|, id, e) ==>
      (Acceptable(d, stakes, genesis, hash, id, e) <==> NoCheaterParents(d, e))
  }

  lemma PreparedIsOk(d: Graph, stakes: seq<nat>, table: set<Root>, genesis: nat, hash: nat, id: EventId, e: Event,
      e': Event)
    requires RootsOk(d, stakes, table) && Addable(d, |stakes|, id, e) && SameBody(e, e') && EpochHashOk(e', hash)
    requires Assigned(d, stakes, id, e, e'.frame, e'.isRoot)
    requires Median.IsMedian(Median.Entries(d[id := e], stakes, id, genesis), e'.medianTime)
    ensures PreparedOk(d, stakes, genesis, hash, e') && HighestFrame(d, stakes, e')
  {
    assert Folds.Open(Folds.Roots);
    PreparedIsHighest(d, stakes, id, e, e');
    forall id': EventId | Addable(d, |stakes|, id', e')
      ensures Acceptable(d, stakes, genesis, hash, id', e') <==> NoCheaterParents(d, e')
    {
      PreparedPasses(d, stakes, id, e, id', e');
      HeadEntries(d, stakes, id, e, id', e', genesis);
    }
  }

  lemma ConfirmedHasTime(d: Graph, stakes: seq<nat>, allowed: (Event, nat) -> bool, t: Ledger, h: Trace, x: EventId)
    requires Faithfully(d, stakes, allowed, t, h)
    ensures x in t.confirmedOn ==> t.confirmedOn[x] > 0 && HasTime(t, x)
  {
    OpenUp(d, stakes, allowed, t, h);
  }

  /** Adding an accepted event to graph and root table keeps all that the node knows about them. */
  lemma AcceptedGrows(d: Graph, stakes: seq<nat>, id: EventId, e: Event, table: set<Root>, table': set<Root>)
    requires RootsOk(d, stakes, table) && Addable(d, |stakes|, id, e) && FrameOk(d[id := e], stakes, id)
    requires table' == if e.isRoot then table + {Root(e.frame, e.creator, id)} else table
    ensures RootsOk(d[id := e], stakes, table')
  {
    assert Folds.Open(Folds.Roots);
    var d' := d[id := e];
    AddedIsWellFormed(d, |stakes|, id, e);
    forall x | x in d'
      ensures FrameOk(d', stakes, x)
    {
      if x != id {
        assert FrameOk(d, stakes, x);
        FrameOkStable(d, d', stakes, x);
      }
    }
  }

  /** A new root is caused by roots that have voted. */
  lemma NewRootInOrder(d: Graph, stakes: seq<nat>, id: EventId, e: Event, table: set<Root>, frameToDecide: nat,
      processed: set<EventId>)
    requires RootsOk(d, stakes, table) && id !in d
    requires forall r: Root :: r in table && r.frame > frameToDecide ==> r.id in processed
    ensures e.frame > frameToDecide + 1 ==> CausesProcessed(d[id := e], stakes, id, e.frame - 1, processed)
  {
    assert Folds.Open(Folds.Roots);
    if e.frame > frameToDecide + 1 {
      var g, d' := e.frame - 1, d[id := e];
      forall c: nat, q: EventId | IsCausingRoot(d', stakes, id, g, c, q)
        ensures q in processed
      {
        assert Root(g, c, q) in table;
      }
    }
  }

  /** All roots above the frame to decide, but for `r`, have voted. */
  ghost predicate OthersVoted(table: set<Root>, frameToDecide: nat, r: Root, processed: set<EventId>) {
    forall q: Root :: q in table && q.frame > frameToDecide && q != r ==> q.id in processed
  }

  lemma AcceptedSettles(d: Graph, stakes: seq<nat>, allowed: (Event, nat) -> bool, ledger: Ledger, trace: Trace,
      id: EventId, e: Event, table: set<Root>, table': set<Root>, f: nat, votes: map<(EventId, nat), Vote>,
      decided: map<nat, Vote>, processed: set<EventId>)
    requires RootsOk(d, stakes, table) && BallotsOk(d, stakes, f, votes, decided, processed)
    requires Addable(d, |stakes|, id, e) && FrameOk(d[id := e], stakes, id) && EpochOf(id) == ledger.epoch
    requires LamportOf(id) == e.lamport
    requires Faithfully(d, stakes, allowed, ledger, trace)
    requires forall r: Root :: r in table && r.frame > f ==> r.id in processed
    requires table' == if e.isRoot then table + {Root(e.frame, e.creator, id)} else table
    ensures RootsOk(d[id := e], stakes, table')
    ensures BallotsOk(d[id := e], stakes, f, votes, decided, processed)
    ensures Faithfully(d[id := e], stakes, allowed, ledger, trace)
    ensures e.frame > f + 1 ==> CausesProcessed(d[id := e], stakes, id, e.frame - 1, processed)
    ensures OthersVoted(table', f, Root(e.frame, e.creator, id), processed)
  {
    assert Folds.Open(Folds.Roots);
    AcceptedGrows(d, stakes, id, e, table, table');
    ElectionGrows(d, d[id := e], stakes, f, votes, decided, processed);
    HistoryAdd(d, stakes, allowed, ledger, trace, id, e);
    NewRootInOrder(d, stakes, id, e, table, f, processed);
  }

  lemma ElectedIsChosen(d: Graph, stakes: seq<nat>, f: nat, a: EventId)
    requires IsAtropos(d, stakes, f, a)
    ensures Chosen(d, stakes, f, a)
  {
    var v: nat :| v < |stakes| && IsAtroposOf(d, stakes, f, a, v);
    var s: EventId :| IsRootAt(d, s, f + 1) && IsCausingRoot(d, stakes, s, f, v, a);
  }

  /** The roots between the frame to decide and frame `f` have voted. */
  ghost predicate VotedBelow(table: set<Root>, frameToDecide: nat, f: nat, processed: set<EventId>) {
    forall r: Root :: r in table && frameToDecide < r.frame < f ==> r.id in processed
  }

  lemma EmptyFrame(d: Graph, stakes: seq<nat>, table: set<Root>, f: nat)
    requires RootsOk(d, stakes, table) && f >= 1 && ListsFrame(table, f, [])
    ensures forall r: Root :: r in table ==> r.frame < f
  {
    assert Folds.Open(Folds.Roots);
    assert forall r: EventId :: IsRootAt(d, r, f) ==> Root(f, d[r].creator, r) in [];
    EmptyFrameIsTheEnd(d, stakes, f);
  }

  lemma ListedFrame(d: Graph, stakes: seq<nat>, table: set<Root>, r: Root)
    requires RootsOk(d, stakes, table) && r in table
    ensures r.id in d && d[r.id].frame == r.frame
  {
    assert Folds.Open(Folds.Roots);
  }

  lemma EarlierVoted(d: Graph, stakes: seq<nat>, table: set<Root>, frameToDecide: nat, r: Root, processed: set<EventId>)
    requires RootsOk(d, stakes, table) && r in table && VotedBelow(table, frameToDecide, r.frame, processed)
    ensures r.id in d && d[r.id].frame == r.frame
    ensures r.frame > frameToDecide + 1 ==> CausesProcessed(d, stakes, r.id, r.frame - 1, processed)
  {
    assert Folds.Open(Folds.Roots);
    if r.frame > frameToDecide + 1 {
      var g := r.frame - 1;
      forall c: nat, q: EventId | IsCausingRoot(d, stakes, r.id, g, c, q)
        ensures q in processed
      {
        assert Root(g, c, q) in table;
      }
    }
  }
}

/** The persistent tables of a node in step with the frames it decided: which frame confirmed an event,
    the time parameters of each frame, and the epochs that were sealed before. */
module History {
  import Folds
  import opened Dag
  import opened Stakes
  import opened Frames
  import opened ElectionSafety
  import opened VectorSpec
  import opened ConsensusTime
  import opened Blocks
  import opened EpochLog
  import opened Epochs

  /** Hashes carry the epoch and the Lamport time of their events. */
  predicate IdsOk(d: Graph, epoch: nat) {
    forall x {:trigger EpochOf(x)} {:trigger LamportOf(x)} :: x in d ==>
      EpochOf(x) == epoch && LamportOf(x) == d[x].lamport
  }

  predicate OldIds(d: Graph, epoch: nat, confirmedOn: map<EventId, nat>) {
    forall x {:trigger confirmedOn[x]} {:trigger EpochOf(x)} :: x in confirmedOn ==>
      confirmedOn[x] > 0 && EpochOf(x) <= epoch && (EpochOf(x) == epoch ==> x in d)
  }

  predicate InfosOk(epoch: nat, log: seq<Record>, infos: map<(nat, nat), FrameInfo>) {
    forall f: nat :: 1 <= f <= |log| ==> (epoch, f) in infos && infos[(epoch, f)] == log[f - 1].info
  }

  /** The state of a node's tables. */
  datatype Ledger = Ledger(
    epoch: nat,
    prevEpoch: GenesisState,
    confirmedOn: map<EventId, nat>,
    infos: map<(nat, nat), FrameInfo>,
    lastBlockN: nat,
    lastAtropos: EventId)

  /** What a node did, for the record: the epochs it sealed, how this one started, and the frames it decided in it. */
  datatype Trace = Trace(sealed: seq<Epoch>, start: Start, log: seq<Record>)

  /** The blocks of all epochs. */
  function Chain(h: Trace): seq<Block> {
    ChainOf(h.sealed) + BlocksOf(h.log)
  }

  /** No time of any epoch left the range of 64 bits. */
  ghost predicate TraceFits(h: Trace) {
    InRange(h.sealed) && Fits(h.log, h.start.prevEpoch.time)
  }

  /** The last block and its links. */
  predicate BooksOk(t: Ledger, h: Trace) {
    && t.prevEpoch == h.start.prevEpoch && Links(h.start, h.log)
    && t.lastBlockN == h.start.blocks + |h.log| && t.lastAtropos == LastAtropos(h.start, h.log)
  }

  predicate HasTime(t: Ledger, x: EventId) {
    x in t.confirmedOn && (EpochOf(x), t.confirmedOn[x]) in t.infos
  }

  /** The consensus time of a confirmed event of any epoch, as the tables tell it. */
  function TimeOf(t: Ledger, x: EventId): nat
    requires HasTime(t, x)
  {
    t.infos[(EpochOf(x), t.confirmedOn[x])].CalcConsensusTime(LamportOf(x))
  }

  /** Every confirmed event has a time. Unless a time left the 64-bit range, the events of past epochs come before the
      genesis of this one, and of two epochs every event of the earlier comes first. */
  ghost predicate EpochsOk(fits: bool, t: Ledger) {
    && (forall x :: x in t.confirmedOn ==> HasTime(t, x))
    && (fits ==> forall x :: HasTime(t, x) && EpochOf(x) < t.epoch ==> TimeOf(t, x) <= t.prevEpoch.time)
    && (fits ==> forall x, y :: HasTime(t, x) && HasTime(t, y) && EpochOf(x) < EpochOf(y) ==>
        TimeOf(t, x) < TimeOf(t, y))
  }

  /** What the tables say about this epoch. */
  ghost predicate Core(d: Graph, stakes: seq<nat>, allowed: (Event, nat) -> bool, t: Ledger, h: Trace) {
    && LogOk(d, |stakes|, t.prevEpoch.time, allowed, h.log) && ElectedLog(d, stakes, h.log)
    && TableMatches(d, h.log, t.confirmedOn)
    && IdsOk(d, t.epoch) && OldIds(d, t.epoch, t.confirmedOn) && InfosOk(t.epoch, h.log, t.infos)
  }

  ghost predicate Matches(d: Graph, stakes: seq<nat>, allowed: (Event, nat) -> bool, t: Ledger, h: Trace) {
    && Core(d, stakes, allowed, t, h)
    && BooksOk(t, h) && EpochsOk(TraceFits(h), t)
  }

  /** `Matches`, folded so that users do not carry its definition around. */
  ghost predicate Faithfully(d: Graph, stakes: seq<nat>, allowed: (Event, nat) -> bool, t: Ledger, h: Trace) {
    forall u {:trigger Folds.Open(u)} :: Folds.Open(u) && u == Folds.Tables ==> Matches(d, stakes, allowed, t, h)
  }

  lemma OpenUp(d: Graph, stakes: seq<nat>, allowed: (Event, nat) -> bool, t: Ledger, h: Trace)
    requires Faithfully(d, stakes, allowed, t, h)
    ensures Matches(d, stakes, allowed, t, h)
  {
    assert Folds.Open(Folds.Tables);
  }

  // ---------------------------------------------------------------- adding an event

  lemma HistoryAdd(d: Graph, stakes: seq<nat>, allowed: (Event, nat) -> bool, t: Ledger, h: Trace, id: EventId,
      e: Event)
    requires WellFormed(d, |stakes|) && id !in d && EpochOf(id) == t.epoch && LamportOf(id) == e.lamport
    requires Faithfully(d, stakes, allowed, t, h)
    ensures Faithfully(d[id := e], stakes, allowed, t, h)
  {
    var d' := d[id := e];
    OpenUp(d, stakes, allowed, t, h);
    assert id !in t.confirmedOn;
    LogStable(d, d', |stakes|, t.prevEpoch.time, allowed, h.log);
    ElectedStable(d, d', stakes, h.log);
    AtropoiInside(d, |stakes|, t.prevEpoch.time, allowed, h.log);
    TableStable(d, |stakes|, h.log, t.confirmedOn, id, e);
  }

  // ---------------------------------------------------------------- deciding a frame

  /** The time before the next frame, as the code looks it up. */
  lemma LastTime(d: Graph, stakes: seq<nat>, allowed: (Event, nat) -> bool, t: Ledger, h: Trace)
    requires Faithfully(d, stakes, allowed, t, h)
    ensures |h.log| == 0 ==> TimeAfter(h.log, t.prevEpoch.time) == t.prevEpoch.time
    ensures |h.log| > 0 ==> (t.epoch, |h.log|) in t.infos
    ensures |h.log| > 0 ==> TimeAfter(h.log, t.prevEpoch.time) == t.infos[(t.epoch, |h.log|)].lastConsensusTime
  {
    OpenUp(d, stakes, allowed, t, h);
  }

  /** What is confirmed is closed under ancestors, in every state. */
  lemma HistoryClosed(d: Graph, stakes: seq<nat>, allowed: (Event, nat) -> bool, t: Ledger, h: Trace)
    requires WellFormed(d, |stakes|) && Faithfully(d, stakes, allowed, t, h)
    ensures Closed(d, t.confirmedOn.Keys) && (forall x :: x in t.confirmedOn ==> t.confirmedOn[x] > 0)
    ensures forall a :: Past(d, a) - t.confirmedOn.Keys == Past(d, a) - ConfirmedBy(d, h.log)
  {
    OpenUp(d, stakes, allowed, t, h);
    AtropoiInside(d, |stakes|, t.prevEpoch.time, allowed, h.log);
    ConfirmedInside(d, |stakes|, h.log);
    forall w, p | w in t.confirmedOn && w in d && p in d[w].parents
      ensures p in t.confirmedOn
    {
      assert p in ConfirmedBy(d, h.log);
    }
  }

  function Extended(h: Trace, r: Record): Trace {
    h.(log := h.log + [r])
  }

  /** What the tables say after a frame. */
  predicate Booked(t: Ledger, h: Trace, r: Record, t': Ledger) {
    && r.block.index == t.lastBlockN + 1 && r.block.prev == t.lastAtropos
    && t' == Ledger(t.epoch, t.prevEpoch, t'.confirmedOn, t.infos[(t.epoch, |h.log| + 1) := r.info], t.lastBlockN + 1,
                    r.block.atropos)
  }

  lemma LogExtends(d: Graph, n: nat, genesis: nat, allowed: (Event, nat) -> bool, log: seq<Record>, r: Record)
    requires LogOk(d, n, genesis, allowed, log)
    requires FrameResult(d, n, ConfirmedBy(d, log), r.block.atropos, TimeAfter(log, genesis), allowed, r)
    ensures LogOk(d, n, genesis, allowed, log + [r])
  {
    var log' := log + [r];
    forall i: nat | i < |log'|
      ensures RecordOk(d, n, genesis, allowed, log', i)
    {
      assert i < |log| ==> log'[..i] == log[..i] && RecordOk(d, n, genesis, allowed, log, i);
      assert i == |log| ==> log'[..i] == log;
    }
  }

  lemma ElectedExtends(d: Graph, stakes: seq<nat>, log: seq<Record>, r: Record)
    requires ElectedLog(d, stakes, log) && IsAtropos(d, stakes, |log| + 1, r.block.atropos)
    ensures ElectedLog(d, stakes, log + [r])
  {
    var log' := log + [r];
    forall i: nat | i < |log'|
      ensures IsElected(d, stakes, log', i)
    {
      assert i < |log| ==> IsElected(d, stakes, log, i);
    }
  }

  lemma FitsBefore(log: seq<Record>, r: Record, genesis: nat)
    requires Fits(log + [r], genesis)
    ensures Fits(log, genesis)
  {
    var log' := log + [r];
    forall i: nat | i < |log|
      ensures FrameFits(log, genesis, i)
    {
      assert log'[..i] == log[..i] && FrameFits(log', genesis, i);
    }
  }

  /** A decided frame: its record joins the log, and the tables written by the walk match it. */
  lemma HistoryDecide(d: Graph, stakes: seq<nat>, allowed: (Event, nat) -> bool, t: Ledger, h: Trace, r: Record,
      t': Ledger)
    requires WellFormed(d, |stakes|) && Faithfully(d, stakes, allowed, t, h)
    requires IsAtropos(d, stakes, |h.log| + 1, r.block.atropos)
    requires FrameResult(d, |stakes|, t.confirmedOn.Keys, r.block.atropos, TimeAfter(h.log, t.prevEpoch.time), allowed,
                         r)
    requires MarkedOn(t.confirmedOn, t'.confirmedOn, |h.log| + 1, Past(d, r.block.atropos) - t.confirmedOn.Keys)
    requires Booked(t, h, r, t')
    ensures Faithfully(d, stakes, allowed, t', Extended(h, r))
  {
    CoreDecide(d, stakes, allowed, t, h, r, t');
    ChronicleDecide(d, stakes, allowed, t, h, r, t');
  }

  lemma ChronicleDecide(d: Graph, stakes: seq<nat>, allowed: (Event, nat) -> bool, t: Ledger, h: Trace, r: Record,
      t': Ledger)
    requires WellFormed(d, |stakes|) && Faithfully(d, stakes, allowed, t, h)
    requires Core(d, stakes, allowed, t', Extended(h, r))
    requires forall x :: x in t'.confirmedOn && EpochOf(x) < t.epoch ==>
      x in t.confirmedOn && t.confirmedOn[x] == t'.confirmedOn[x]
    requires Booked(t, h, r, t')
    ensures Faithfully(d, stakes, allowed, t', Extended(h, r))
  {
    var h' := Extended(h, r);
    assert BooksOk(t, h) && EpochsOk(TraceFits(h), t) by {
      OpenUp(d, stakes, allowed, t, h);
    }
    BooksExtend(t, h, r, t');
    if TraceFits(h') {
      FitsBefore(h.log, r, h.start.prevEpoch.time);
    }
    EpochsExtend(d, stakes, allowed, t, t', r.info, TraceFits(h), h');
  }

  lemma BooksExtend(t: Ledger, h: Trace, r: Record, t': Ledger)
    requires BooksOk(t, h) && Booked(t, h, r, t')
    ensures BooksOk(t', Extended(h, r))
  {
    var log' := h.log + [r];
    forall i: nat | i < |log'|
      ensures LinkOk(h.start, log', i)
    {
      assert i < |h.log| ==> LinkOk(h.start, h.log, i);
      assert i < |h.log| ==> log'[i] == h.log[i] && log'[..i] == h.log[..i];
      assert i == |h.log| ==> log'[..i] == h.log;
    }
  }

  lemma CoreDecide(d: Graph, stakes: seq<nat>, allowed: (Event, nat) -> bool, t: Ledger, h: Trace, r: Record,
      t': Ledger)
    requires WellFormed(d, |stakes|) && Faithfully(d, stakes, allowed, t, h)
    requires IsAtropos(d, stakes, |h.log| + 1, r.block.atropos)
    requires FrameResult(d, |stakes|, t.confirmedOn.Keys, r.block.atropos, TimeAfter(h.log, t.prevEpoch.time), allowed,
                         r)
    requires MarkedOn(t.confirmedOn, t'.confirmedOn, |h.log| + 1, Past(d, r.block.atropos) - t.confirmedOn.Keys)
    requires t'.epoch == t.epoch && t'.prevEpoch == t.prevEpoch && t'.infos == t.infos[(t.epoch, |h.log| + 1) := r.info]
    ensures Core(d, stakes, allowed, t', Extended(h, r))
    ensures forall x :: x in t'.confirmedOn && EpochOf(x) < t.epoch ==>
      x in t.confirmedOn && t.confirmedOn[x] == t'.confirmedOn[x]
  {
    var n := |stakes|;
    OpenUp(d, stakes, allowed, t, h);
    HistoryClosed(d, stakes, allowed, t, h);
    SameNews(d, n, t.confirmedOn.Keys, ConfirmedBy(d, h.log), r.block.atropos, TimeAfter(h.log, t.prevEpoch.time),
        allowed, r);
    LogExtends(d, n, t.prevEpoch.time, allowed, h.log, r);
    ElectedExtends(d, stakes, h.log, r);
    TableGrows(d, n, h.log, t.confirmedOn, r, t'.confirmedOn);
    IdsAfterMarking(d, t.epoch, t.confirmedOn, t'.confirmedOn, |h.log| + 1,
        Past(d, r.block.atropos) - t.confirmedOn.Keys);
    InfosExtend(t.epoch, h.log, t.infos, r);
  }

  /** The tables give an event of this epoch the time its frame gave it: after the genesis, and no later than the last
      block. */
  lemma CurrentTime(d: Graph, stakes: seq<nat>, allowed: (Event, nat) -> bool, t: Ledger, h: Trace, x: EventId)
    requires WellFormed(d, |stakes|) && x in d && x in t.confirmedOn && Core(d, stakes, allowed, t, h)
    ensures ConfirmedAt(d, h.log, x, t.confirmedOn[x]) && HasTime(t, x)
    ensures TimeOf(t, x) == EventTime(d, h.log, x, t.confirmedOn[x])
    ensures Fits(h.log, t.prevEpoch.time) ==> t.prevEpoch.time < TimeOf(t, x) <= TimeAfter(h.log, t.prevEpoch.time)
  {
    var n, f := |stakes|, t.confirmedOn[x];
    assert ConfirmedAt(d, h.log, x, f) && EpochOf(x) == t.epoch;
    if Fits(h.log, t.prevEpoch.time) {
      TimesOfFrame(d, n, t.prevEpoch.time, allowed, h.log, f, x);
      TimesGrow(d, n, t.prevEpoch.time, allowed, h.log, 0, f - 1);
      TimesGrow(d, n, t.prevEpoch.time, allowed, h.log, f, |h.log|);
      assert h.log[..|h.log|] == h.log;
      assert TimeAfter(h.log[..f], t.prevEpoch.time) == h.log[f - 1].info.lastConsensusTime;
    }
  }

  lemma EpochsExtend(d: Graph, stakes: seq<nat>, allowed: (Event, nat) -> bool, t: Ledger, t': Ledger, info: FrameInfo,
      fits: bool, h': Trace)
    requires WellFormed(d, |stakes|) && Core(d, stakes, allowed, t', h') && EpochsOk(fits, t)
    requires t'.epoch == t.epoch && t'.prevEpoch == t.prevEpoch == h'.start.prevEpoch
    requires t'.infos == t.infos[(t.epoch, |h'.log|) := info]
    requires forall x :: x in t'.confirmedOn && EpochOf(x) < t.epoch ==>
      x in t.confirmedOn && t.confirmedOn[x] == t'.confirmedOn[x]
    requires TraceFits(h') ==> fits
    ensures EpochsOk(TraceFits(h'), t')
  {
    forall x | x in t'.confirmedOn
      ensures HasTime(t', x)
      ensures TraceFits(h') && EpochOf(x) < t.epoch ==> HasTime(t, x) && TimeOf(t', x) == TimeOf(t, x)
      ensures TraceFits(h') && EpochOf(x) == t.epoch ==> t.prevEpoch.time < TimeOf(t', x)
    {
      assert EpochOf(x) <= t.epoch;
      if EpochOf(x) == t.epoch {
        CurrentTime(d, stakes, allowed, t', h', x);
      } else {
        assert HasTime(t, x);
      }
    }
  }

  lemma SameNews(d: Graph, n: nat, c1: set<EventId>, c2: set<EventId>, a: EventId, last: nat,
      allowed: (Event, nat) -> bool, r: Record)
    requires Past(d, a) - c1 == Past(d, a) - c2
    requires FrameResult(d, n, c1, a, last, allowed, r)
    ensures FrameResult(d, n, c2, a, last, allowed, r)
  {
  }

  lemma IdsAfterMarking(d: Graph, epoch: nat, confirmedOn: map<EventId, nat>, result: map<EventId, nat>, frame: nat,
      new': set<EventId>)
    requires IdsOk(d, epoch) && OldIds(d, epoch, confirmedOn) && MarkedOn(confirmedOn, result, frame, new')
    requires new' <= d.Keys && frame > 0
    ensures OldIds(d, epoch, result)
  {
    forall x | x in result
      ensures result[x] > 0 && EpochOf(x) <= epoch && (EpochOf(x) == epoch ==> x in d)
    {
      assert x in confirmedOn && x !in new' ==> result[x] == confirmedOn[x];
    }
  }

  lemma InfosExtend(epoch: nat, log: seq<Record>, infos: map<(nat, nat), FrameInfo>, r: Record)
    requires InfosOk(epoch, log, infos)
    ensures InfosOk(epoch, log + [r], infos[(epoch, |log| + 1) := r.info])
  {
  }

  // ---------------------------------------------------------------- sealing an epoch

  /** The trace of a node that seals the epoch whose graph is `d`. */
  function SealedTrace(app: Application, d: Graph, h: Trace): Trace {
    var e := Epoch(d, h.start, h.log);
    Trace(h.sealed + [e], Next(app, e), [])
  }

  /** The next epoch starts with an empty graph and the time of the last frame. */
  lemma HistorySeal(app: Application, d: Graph, stakes: seq<nat>, t: Ledger, h: Trace, stakes': seq<nat>, t': Ledger)
    requires WellFormed(d, |stakes|) && Faithfully(d, stakes, app.allowed, t, h)
    requires t' == t.(epoch := t.epoch + 1, prevEpoch := SealedTrace(app, d, h).start.prevEpoch)
    ensures Faithfully(map[], stakes', app.allowed, t', SealedTrace(app, d, h))
  {
    OpenUp(d, stakes, app.allowed, t, h);
    SealedFits(app, d, h);
    SealedTimes(d, stakes, app.allowed, t, h, t', TraceFits(SealedTrace(app, d, h)));
  }

  /** The events of the sealed epoch come no later than the genesis of the next. */
  lemma SealedTimes(d: Graph, stakes: seq<nat>, allowed: (Event, nat) -> bool, t: Ledger, h: Trace, t': Ledger,
      fits: bool)
    requires WellFormed(d, |stakes|) && Core(d, stakes, allowed, t, h) && BooksOk(t, h) && EpochsOk(TraceFits(h), t)
    requires t'.epoch == t.epoch + 1 && t'.confirmedOn == t.confirmedOn && t'.infos == t.infos
    requires t'.prevEpoch.time == TimeAfter(h.log, t.prevEpoch.time) && (fits ==> TraceFits(h))
    ensures EpochsOk(fits, t')
  {
    forall x | HasTime(t', x)
      ensures HasTime(t, x) && TimeOf(t', x) == TimeOf(t, x)
      ensures fits ==> TimeOf(t', x) <= t'.prevEpoch.time
    {
      if EpochOf(x) == t.epoch {
        CurrentTime(d, stakes, allowed, t, h, x);
      } else if fits {
        TimesGrow(d, |stakes|, t.prevEpoch.time, allowed, h.log, 0, |h.log|);
        assert h.log[..|h.log|] == h.log;
      }
    }
  }

  lemma SealedFits(app: Application, d: Graph, h: Trace)
    ensures TraceFits(SealedTrace(app, d, h)) ==> TraceFits(h)
  {
    var h' := SealedTrace(app, d, h);
    if TraceFits(h') {
      forall k | 0 <= k < |h.sealed|
        ensures Fits(h.sealed[k].log, h.sealed[k].start.prevEpoch.time)
      {
        assert h'.sealed[k] == h.sealed[k];
      }
      assert h'.sealed[|h.sealed|].log == h.log;
    }
  }

  /** In every state: a confirmed event comes after its ancestors and after every confirmed event of an earlier
      epoch. */
  lemma HistoryIsCausal(d: Graph, stakes: seq<nat>, allowed: (Event, nat) -> bool, t: Ledger, h: Trace, x: EventId,
      y: EventId)
    requires WellFormed(d, |stakes|) && Faithfully(d, stakes, allowed, t, h) && TraceFits(h)
    requires x in t.confirmedOn && y in t.confirmedOn && (EpochOf(x) < EpochOf(y) || (x != y && Sees(d, y, x)))
    ensures HasTime(t, x) && HasTime(t, y) && TimeOf(t, x) < TimeOf(t, y)
  {
    OpenUp(d, stakes, allowed, t, h);
    if x != y && Sees(d, y, x) {
      SeesInside(d, y, x);
      CurrentTime(d, stakes, allowed, t, h, x);
      CurrentTime(d, stakes, allowed, t, h, y);
      TimeRespectsCausality(d, |stakes|, t.prevEpoch.time, allowed, h.log, x, y, t.confirmedOn[x], t.confirmedOn[y]);
    }
  }

  lemma HistoryStart(stakes: seq<nat>, allowed: (Event, nat) -> bool, epoch: nat, start: Start)
    ensures var t := Ledger(epoch, start.prevEpoch, map[], map[], start.blocks, start.prevEpoch.lastAtropos);
      Faithfully(map[], stakes, allowed, t, Trace([], start, []))
  {
  }

  // ---------------------------------------------------------------- the epochs before

  /** The sealed epochs lead to this one, and the application stands where its blocks put it; folded. */
  ghost predicate Descends(app: Application, stakes: seq<nat>, t: Ledger, s: Standing, h: Trace) {
    forall u {:trigger Folds.Open(u)} :: Folds.Open(u) && u == Folds.Lineage ==>
      && Lineage(app, h.sealed, h.start) && h.start.stakes == stakes
      && h.start.prevEpoch == t.prevEpoch && t.prevEpoch.epoch + 1 == t.epoch
      && s == After(app, h.start.standing, h.log)
  }

  /** The application has not ended the epoch; folded. */
  ghost predicate NotSealed(app: Application, h: Trace) {
    forall u {:trigger Folds.Open(u)} :: Folds.Open(u) && u == Folds.Lineage ==> Ongoing(app, h.start.standing, h.log)
  }

  /** The application ended the epoch with the last frame; folded. */
  ghost predicate SealsNow(app: Application, d: Graph, h: Trace) {
    forall u {:trigger Folds.Open(u)} :: Folds.Open(u) && u == Folds.Lineage ==> Sealed(app, Current(d, h))
  }

  ghost function Current(d: Graph, h: Trace): Epoch {
    Epoch(d, h.start, h.log)
  }

  /** A decided frame: the application hears of its events and takes the block, and the epoch is sealed or goes on as
      it says. */
  lemma DescentDecide(app: Application, d: Graph, stakes: seq<nat>, t: Ledger, s: Standing, h: Trace, r: Record,
      t': Ledger, reply: Reply)
    requires Descends(app, stakes, t, s, h) && NotSealed(app, h) && t'.epoch == t.epoch && t'.prevEpoch == t.prevEpoch
    requires reply == Answer(app, s.state, r, |h.log| + 1)
    ensures Descends(app, stakes, t', Replied(app, s, reply), Extended(h, r))
    ensures if reply.seals then SealsNow(app, d, Extended(h, r)) else NotSealed(app, Extended(h, r))
  {
    assert Folds.Open(Folds.Lineage);
    RepliesExtend(app, h.start.standing, h.log, r);
  }

  lemma RepliesExtend(app: Application, s: Standing, log: seq<Record>, r: Record)
    requires Ongoing(app, s, log)
    ensures var reply := Answer(app, After(app, s, log).state, r, |log| + 1);
      && ReplyTo(app, s, log + [r], |log|) == reply
      && After(app, s, log + [r]) == Replied(app, After(app, s, log), reply)
    ensures forall i: nat {:trigger ReplyTo(app, s, log + [r], i)} :: i < |log| ==> !ReplyTo(app, s, log + [r], i).seals
  {
    var log' := log + [r];
    assert log'[..|log|] == log;
    forall i: nat | i < |log|
      ensures !ReplyTo(app, s, log', i).seals
    {
      assert log'[..i] == log[..i] && log'[i] == log[i] && !ReplyTo(app, s, log, i).seals;
    }
  }

  /** The epoch as it is now obeys all rules. */
  lemma CurrentOk(app: Application, d: Graph, stakes: seq<nat>, t: Ledger, s: Standing, h: Trace)
    requires Faithfully(d, stakes, app.allowed, t, h) && Descends(app, stakes, t, s, h)
    requires FramesOk(d, stakes) && Sane(stakes)
    ensures EpochOk(app, Current(d, h)) && Lineage(app, h.sealed, h.start)
    ensures h.start.stakes == stakes && h.start.prevEpoch == t.prevEpoch
  {
    assert Folds.Open(Folds.Lineage);
    OpenUp(d, stakes, app.allowed, t, h);
  }

  /** The previous-epoch record of a sealed epoch. */
  function SealedState(t: Ledger, s: Standing, h: Trace): GenesisState {
    GenesisState(t.epoch, TimeAfter(h.log, t.prevEpoch.time), t.lastAtropos, s.appHash)
  }

  /** Sealing: the epoch joins those before, and what the node takes over is what the next epoch starts from. */
  lemma DescentSeal(app: Application, d: Graph, stakes: seq<nat>, t: Ledger, s: Standing, h: Trace, t': Ledger)
    requires Faithfully(d, stakes, app.allowed, t, h) && Descends(app, stakes, t, s, h)
    requires FramesOk(d, stakes) && Sane(stakes) && SealsNow(app, d, h)
    requires t'.epoch == t.epoch + 1 && t'.prevEpoch == SealedState(t, s, h)
    ensures SealedTrace(app, d, h).start.prevEpoch == t'.prevEpoch
    ensures Descends(app, app.nextStakes(s.state, t'.epoch), t', s, SealedTrace(app, d, h))
    ensures NotSealed(app, SealedTrace(app, d, h))
  {
    assert Folds.Open(Folds.Lineage);
    CurrentOk(app, d, stakes, t, s, h);
    LineageExtends(app, h.sealed, Current(d, h));
    OpenUp(d, stakes, app.allowed, t, h);
  }

  // ---------------------------------------------------------------- the chain

  lemma ChainOfExtended(h: Trace, r: Record)
    ensures Chain(Extended(h, r)) == Chain(h) + [r.block]
  {
    assert BlocksOf(h.log + [r]) == BlocksOf(h.log) + [r.block];
  }

  lemma ChainOfSealed(app: Application, d: Graph, h: Trace)
    ensures Chain(SealedTrace(app, d, h)) == Chain(h)
  {
    ChainOfRun(d, h);
  }

  lemma ChainOfRun(d: Graph, h: Trace)
    ensures ChainOf(h.sealed + [Current(d, h)]) == Chain(h)
  {
    var run := h.sealed + [Current(d, h)];
    assert run[..|run| - 1] == h.sealed;
  }
}

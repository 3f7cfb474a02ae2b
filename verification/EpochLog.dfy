/** The decided frames of an epoch, one after the other: which events each of them confirmed, which
    block came out, and what times the events got. */
module EpochLog {
  import opened Dag
  import opened Stakes
  import opened ForklessCause
  import opened Frames
  import opened ElectionSafety
  import opened VectorSpec
  import opened Words
  import opened ConsensusTime
  import opened Blocks

  /** The events confirmed by the frames of `log`. */
  ghost function ConfirmedBy(d: Graph, log: seq<Record>): set<EventId> {
    if log == [] then {}
    else ConfirmedBy(d, log[..|log| - 1]) + Past(d, log[|log| - 1].block.atropos)
  }

  /** The consensus time after the frames of `log`; before the first it is the time of the previous epoch. */
  function TimeAfter(log: seq<Record>, genesis: nat): nat {
    if log == [] then genesis else log[|log| - 1].info.lastConsensusTime
  }

  ghost predicate RecordOk(d: Graph, n: nat, genesis: nat, allowed: (Event, nat) -> bool, log: seq<Record>, i: nat)
    requires i < |log|
  {
    FrameResult(d, n, ConfirmedBy(d, log[..i]), log[i].block.atropos, TimeAfter(log[..i], genesis), allowed,
                log[i])
  }

  ghost predicate LogOk(d: Graph, n: nat, genesis: nat, allowed: (Event, nat) -> bool, log: seq<Record>) {
    forall i: nat {:trigger RecordOk(d, n, genesis, allowed, log, i)} ::
      i < |log| ==> RecordOk(d, n, genesis, allowed, log, i)
  }

  /** Event `x` is confirmed by frame `f`: its Atropos sees it and no earlier one does. */
  ghost predicate ConfirmedAt(d: Graph, log: seq<Record>, x: EventId, f: nat) {
    1 <= f <= |log| && x in Past(d, log[f - 1].block.atropos) && x !in ConfirmedBy(d, log[..f - 1])
  }

  /** The confirmation table holds for each confirmed event of the graph the one frame that confirmed it. */
  ghost predicate TableMatches(d: Graph, log: seq<Record>, confirmedOn: map<EventId, nat>) {
    && (forall x :: x in d ==> (x in confirmedOn <==> x in ConfirmedBy(d, log)))
    && (forall x {:trigger confirmedOn[x]} :: x in d && x in confirmedOn ==> ConfirmedAt(d, log, x, confirmedOn[x]))
  }

  // ---------------------------------------------------------------- confirmation

  lemma {:induction false} ConfirmedInside(d: Graph, n: nat, log: seq<Record>)
    requires WellFormed(d, n) && forall i :: 0 <= i < |log| ==> log[i].block.atropos in d
    ensures ConfirmedBy(d, log) <= d.Keys && Closed(d, ConfirmedBy(d, log))
  {
    if log != [] {
      var init := log[..|log| - 1];
      ConfirmedInside(d, n, init);
      ConfirmedStaysClosed(d, n, ConfirmedBy(d, init), log[|log| - 1].block.atropos);
    }
  }

  lemma {:induction false} ConfirmedMonotone(d: Graph, log: seq<Record>, i: nat, j: nat)
    requires i <= j <= |log|
    ensures ConfirmedBy(d, log[..i]) <= ConfirmedBy(d, log[..j])
    decreases j - i
  {
    if i < j {
      ConfirmedMonotone(d, log, i, j - 1);
      assert log[..j][..j - 1] == log[..j - 1];
    }
  }

  lemma ConfirmedPrefix(d: Graph, log: seq<Record>, f: nat)
    requires 1 <= f <= |log|
    ensures ConfirmedBy(d, log[..f]) == ConfirmedBy(d, log[..f - 1]) + Past(d, log[f - 1].block.atropos)
  {
    assert log[..f][..f - 1] == log[..f - 1];
  }

  /** No event is confirmed by two frames. */
  lemma ConfirmedOnce(d: Graph, log: seq<Record>, x: EventId, f: nat, g: nat)
    requires ConfirmedAt(d, log, x, f) && ConfirmedAt(d, log, x, g)
    ensures f == g
  {
    NotAgain(d, log, x, f, g);
    NotAgain(d, log, x, g, f);
  }

  lemma NotAgain(d: Graph, log: seq<Record>, x: EventId, f: nat, g: nat)
    requires ConfirmedAt(d, log, x, f) && ConfirmedAt(d, log, x, g)
    ensures f >= g
  {
    ConfirmedPrefix(d, log, f);
    if f < g {
      ConfirmedMonotone(d, log, f, g - 1);
    }
  }

  /** An ancestor is confirmed no later than its descendant. */
  lemma {:induction false} AncestorsConfirmedFirst(d: Graph, n: nat, log: seq<Record>, x: EventId, y: EventId, f: nat,
      g: nat)
    requires WellFormed(d, n) && ConfirmedAt(d, log, x, f) && ConfirmedAt(d, log, y, g) && Sees(d, y, x)
    ensures f <= g
  {
    SeesTransitive(d, log[g - 1].block.atropos, y, x);
    if g < f {
      ConfirmedPrefix(d, log, g);
      ConfirmedMonotone(d, log, g, f - 1);
    }
  }

  /** What a confirming walk writes keeps the table in step with the log. */
  lemma TableGrows(d: Graph, n: nat, log: seq<Record>, confirmedOn: map<EventId, nat>, record: Record,
      result: map<EventId, nat>)
    requires WellFormed(d, n) && TableMatches(d, log, confirmedOn) && record.block.atropos in d
    requires MarkedOn(confirmedOn, result, |log| + 1, Past(d, record.block.atropos) - confirmedOn.Keys)
    ensures TableMatches(d, log + [record], result)
  {
    var log' := log + [record];
    assert log'[..|log|] == log;
    ConfirmedPrefix(d, log', |log'|);
    assert log'[..|log'|] == log';
    forall x | x in d && x in result
      ensures ConfirmedAt(d, log', x, result[x])
    {
      if x in confirmedOn {
        assert ConfirmedAt(d, log, x, confirmedOn[x]);
        assert log'[..confirmedOn[x] - 1] == log[..confirmedOn[x] - 1];
      }
    }
  }

  /** Nothing is lost and nothing doubled: a confirmed event is in the block of the frame that confirmed it, if the
      application allows it and the Atropos has not seen its creator forking, and in no other block of the epoch. */
  lemma InOneBlock(d: Graph, n: nat, genesis: nat, allowed: (Event, nat) -> bool, log: seq<Record>, x: EventId, f: nat,
      i: nat)
    requires WellFormed(d, n) && LogOk(d, n, genesis, allowed, log) && ConfirmedAt(d, log, x, f) && i < |log|
    ensures x in d
    ensures var atropos, c := log[i].block.atropos, d[x].creator;
      x in log[i].block.events <==>
        i == f - 1 && !ForkSeen(d, atropos, c) && allowed(d[x], |Above(d, atropos, c, d[x].seqNum)|)
  {
    assert RecordOk(d, n, genesis, allowed, log, i);
    var atropos := log[i].block.atropos;
    var new' := Past(d, atropos) - ConfirmedBy(d, log[..i]);
    if x in new' {
      assert ConfirmedAt(d, log, x, i + 1);
      ConfirmedOnce(d, log, x, f, i + 1);
      DepthCounts(d, n, atropos, x);
      assert Above(d, atropos, d[x].creator, d[x].seqNum) ==
        set y | y in d && Sees(d, atropos, y) && d[y].creator == d[x].creator && d[y].seqNum > d[x].seqNum;
    }
  }

  // ---------------------------------------------------------------- times

  ghost function AtroposMedian(d: Graph, log: seq<Record>, i: nat): nat
    requires i < |log| && log[i].block.atropos in d
  {
    d[log[i].block.atropos].medianTime
  }

  /** No frame's time left the range of 64 bits. */
  ghost predicate Fits(log: seq<Record>, genesis: nat) {
    && genesis < WORD
    && forall i: nat {:trigger FrameFits(log, genesis, i)} :: i < |log| ==> FrameFits(log, genesis, i)
  }

  predicate FrameFits(log: seq<Record>, genesis: nat, i: nat)
    requires i < |log|
  {
    IdealTime(TimeAfter(log[..i], genesis), log[i].info.timeRatio, log[i].low, log[i].high) < WORD
  }

  function EventTime(d: Graph, log: seq<Record>, x: EventId, f: nat): nat
    requires x in d && 1 <= f <= |log|
  {
    log[f - 1].info.CalcConsensusTime(d[x].lamport)
  }

  lemma SpanBounds(d: Graph, n: nat, s: set<EventId>, high: nat, low: nat)
    requires WellFormed(d, n) && LamportSpan(d, s, high, low)
    ensures high < HALF
  {
    if s * d.Keys != {} {
      var x :| x in s && x in d && d[x].lamport == high;
      assert Linked(d, d[x]);
    }
  }

  /** The times of one frame: later than the frame before, at most the frame's own time, in Lamport order. */
  lemma TimesOfFrame(d: Graph, n: nat, genesis: nat, allowed: (Event, nat) -> bool, log: seq<Record>, f: nat,
      x: EventId)
    requires WellFormed(d, n) && LogOk(d, n, genesis, allowed, log) && Fits(log, genesis) && ConfirmedAt(d, log, x, f)
    ensures x in d
    ensures EventTime(d, log, x, f) ==
      IdealTime(TimeAfter(log[..f - 1], genesis), log[f - 1].info.timeRatio, log[f - 1].low, d[x].lamport)
    ensures log[f - 1].info.timeRatio >= 1 && log[f - 1].low <= d[x].lamport
    ensures TimeAfter(log[..f - 1], genesis) < EventTime(d, log, x, f) <= log[f - 1].info.lastConsensusTime
  {
    var i, r := f - 1, log[f - 1];
    var last := TimeAfter(log[..i], genesis);
    assert RecordOk(d, n, genesis, allowed, log, i) && FrameFits(log, genesis, i);
    var new' := Past(d, r.block.atropos) - ConfirmedBy(d, log[..i]);
    SpanBounds(d, n, new', r.high, r.low);
    assert x in new' * d.Keys;
    EventTimeInFrame(last, d[r.block.atropos].medianTime, r.high, r.low, d[x].lamport);
  }

  /** Block times strictly increase from frame to frame, stay within the bound, and follow the median times of the
      Atropoi as far as these run ahead. */
  lemma BlockTimesIncrease(d: Graph, n: nat, genesis: nat, allowed: (Event, nat) -> bool, log: seq<Record>, i: nat)
    requires WellFormed(d, n) && LogOk(d, n, genesis, allowed, log) && Fits(log, genesis) && i < |log|
    ensures TimeAfter(log[..i], genesis) < log[i].block.time == TimeAfter(log[..i + 1], genesis) < WORD
    ensures log[i].block.atropos in d && log[i].low <= log[i].high
    ensures log[i].block.time <= Max(AtroposMedian(d, log, i),
        TimeAfter(log[..i], genesis) + (log[i].high - log[i].low + 1))
    ensures var last, median := TimeAfter(log[..i], genesis), AtroposMedian(d, log, i);
      var span := log[i].high - log[i].low + 1;
      if median >= last + span then median - span < log[i].block.time <= median else log[i].block.time == last + span
  {
    var r, last := log[i], TimeAfter(log[..i], genesis);
    assert RecordOk(d, n, genesis, allowed, log, i) && FrameFits(log, genesis, i);
    SpanBounds(d, n, Past(d, r.block.atropos) - ConfirmedBy(d, log[..i]), r.high, r.low);
    var median := d[r.block.atropos].medianTime;
    EventTimeInFrame(last, median, r.high, r.low, r.high);
    TimeIsBounded(last, median, r.high, r.low);
    TimeFollowsMedian(last, median, r.high, r.low);
  }

  lemma {:induction false} TimesGrow(d: Graph, n: nat, genesis: nat, allowed: (Event, nat) -> bool, log: seq<Record>,
      i: nat, j: nat)
    requires WellFormed(d, n) && LogOk(d, n, genesis, allowed, log) && Fits(log, genesis) && i <= j <= |log|
    ensures TimeAfter(log[..i], genesis) <= TimeAfter(log[..j], genesis)
    ensures i < j ==> TimeAfter(log[..i], genesis) < TimeAfter(log[..j], genesis)
    decreases j - i
  {
    if i < j {
      TimesGrow(d, n, genesis, allowed, log, i, j - 1);
      BlockTimesIncrease(d, n, genesis, allowed, log, j - 1);
    }
  }

  /** Causality: a confirmed event's time is strictly above that of each of its ancestors, over all frames of the
      epoch. */
  lemma TimeRespectsCausality(d: Graph, n: nat, genesis: nat, allowed: (Event, nat) -> bool, log: seq<Record>,
      x: EventId, y: EventId, f: nat, g: nat)
    requires WellFormed(d, n) && LogOk(d, n, genesis, allowed, log) && Fits(log, genesis)
    requires ConfirmedAt(d, log, x, f) && ConfirmedAt(d, log, y, g) && Sees(d, y, x) && x != y
    ensures x in d && y in d && EventTime(d, log, x, f) < EventTime(d, log, y, g)
  {
    AncestorsConfirmedFirst(d, n, log, x, y, f, g);
    TimesOfFrame(d, n, genesis, allowed, log, f, x);
    TimesOfFrame(d, n, genesis, allowed, log, g, y);
    SeesInside(d, y, x);
    if f == g {
      IdealIsMonotone(TimeAfter(log[..f - 1], genesis), log[f - 1].info.timeRatio, log[f - 1].low, d[x].lamport,
          d[y].lamport);
    } else {
      TimesGrow(d, n, genesis, allowed, log, f, g - 1);
      assert TimeAfter(log[..f], genesis) == log[f - 1].info.lastConsensusTime;
    }
  }

  // ---------------------------------------------------------------- growing graphs

  lemma {:induction false} ConfirmedStable(small: Graph, big: Graph, n: nat, log: seq<Record>)
    requires Extends(small, big) && WellFormed(small, n) && forall i :: 0 <= i < |log| ==> log[i].block.atropos in small
    ensures ConfirmedBy(small, log) == ConfirmedBy(big, log)
  {
    if log != [] {
      ConfirmedStable(small, big, n, log[..|log| - 1]);
      PastSame(small, big, n, log[|log| - 1].block.atropos);
    }
  }

  lemma FrameResultStable(small: Graph, big: Graph, n: nat, confirmed: set<EventId>, atropos: EventId, last: nat,
      allowed: (Event, nat) -> bool, r: Record)
    requires Extends(small, big) && WellFormed(small, n)
    requires FrameResult(small, n, confirmed, atropos, last, allowed, r)
    ensures FrameResult(big, n, confirmed, atropos, last, allowed, r)
  {
    PastSame(small, big, n, atropos);
    var new' := Past(small, atropos) - confirmed;
    EventsStable(small, big, n, atropos, new', allowed, r.block.events);
    TellsStable(small, big, n, atropos, new', r.told);
    forall c: nat
      ensures ForkSeen(small, atropos, c) <==> ForkSeen(big, atropos, c)
    {
      ForkSeenStable(small, big, n, atropos, c);
    }
    assert new' * small.Keys == new' && new' * big.Keys == new';
  }

  lemma EventsStable(small: Graph, big: Graph, n: nat, atropos: EventId, new': set<EventId>,
      allowed: (Event, nat) -> bool, events: seq<EventId>)
    requires Extends(small, big) && WellFormed(small, n) && atropos in small && new' <= small.Keys
    requires BlockEvents(small, atropos, new', allowed, events)
    ensures BlockEvents(big, atropos, new', allowed, events)
  {
    forall x
      ensures x in events <==> InBlock(big, atropos, new', allowed, x)
    {
      InBlockStable(small, big, n, atropos, new', allowed, x);
    }
    forall i, j | 0 <= i < j < |events|
      ensures Before(big, events[i], events[j])
    {
      assert events[i] in events && events[j] in events && Before(small, events[i], events[j]);
    }
  }

  lemma AtropoiInside(d: Graph, n: nat, genesis: nat, allowed: (Event, nat) -> bool, log: seq<Record>)
    requires LogOk(d, n, genesis, allowed, log)
    ensures forall i :: 0 <= i < |log| ==> log[i].block.atropos in d
  {
    forall i | 0 <= i < |log|
      ensures log[i].block.atropos in d
    {
      assert RecordOk(d, n, genesis, allowed, log, i);
    }
  }

  /** The log stays right while the graph grows. */
  lemma LogStable(small: Graph, big: Graph, n: nat, genesis: nat, allowed: (Event, nat) -> bool, log: seq<Record>)
    requires Extends(small, big) && WellFormed(small, n) && LogOk(small, n, genesis, allowed, log)
    ensures LogOk(big, n, genesis, allowed, log)
  {
    AtropoiInside(small, n, genesis, allowed, log);
    forall i: nat | i < |log|
      ensures RecordOk(big, n, genesis, allowed, log, i)
    {
      assert RecordOk(small, n, genesis, allowed, log, i);
      ConfirmedStable(small, big, n, log[..i]);
      FrameResultStable(small, big, n, ConfirmedBy(small, log[..i]), log[i].block.atropos,
                        TimeAfter(log[..i], genesis), allowed, log[i]);
    }
  }

  /** A new event is not confirmed, and the table needs no change. */
  lemma TableStable(d: Graph, n: nat, log: seq<Record>, confirmedOn: map<EventId, nat>, id: EventId, e: Event)
    requires WellFormed(d, n) && TableMatches(d, log, confirmedOn) && id !in d && id !in confirmedOn
    requires forall i :: 0 <= i < |log| ==> log[i].block.atropos in d
    ensures TableMatches(d[id := e], log, confirmedOn)
  {
    var d' := d[id := e];
    ConfirmedStable(d, d', n, log);
    ConfirmedInside(d, n, log);
    forall x | x in d' && x in confirmedOn
      ensures ConfirmedAt(d', log, x, confirmedOn[x])
    {
      assert x in ConfirmedBy(d', log) && ConfirmedAt(d, log, x, confirmedOn[x]);
      ConfirmedAtStable(d, d', n, log, x, confirmedOn[x]);
    }
  }

  lemma ConfirmedAtStable(small: Graph, big: Graph, n: nat, log: seq<Record>, x: EventId, f: nat)
    requires Extends(small, big) && WellFormed(small, n) && forall i :: 0 <= i < |log| ==> log[i].block.atropos in small
    requires ConfirmedAt(small, log, x, f)
    ensures ConfirmedAt(big, log, x, f)
  {
    ConfirmedStable(small, big, n, log[..f - 1]);
    PastSame(small, big, n, log[f - 1].block.atropos);
  }

  // ---------------------------------------------------------------- nodes agree

  /** Same events in the same order, same time, same cheaters, and the same confirmed events in the same order. */
  predicate SameResult(r1: Record, r2: Record) {
    && r1.block.atropos == r2.block.atropos && r1.block.events == r2.block.events && r1.block.time == r2.block.time
    && r1.cheaters == r2.cheaters && r1.info == r2.info && r1.told == r2.told
  }

  /** The same run of Atropoi gives the same blocks, cheaters and times. */
  lemma {:induction false} SameAtropoiSameBlocks(d: Graph, n: nat, genesis: nat, allowed: (Event, nat) -> bool,
      log1: seq<Record>, log2: seq<Record>, k: nat)
    requires WellFormed(d, n) && LogOk(d, n, genesis, allowed, log1) && LogOk(d, n, genesis, allowed, log2)
    requires k <= |log1| && k <= |log2|
    requires forall i :: 0 <= i < k ==> log1[i].block.atropos == log2[i].block.atropos
    ensures forall i :: 0 <= i < k ==> SameResult(log1[i], log2[i])
    ensures ConfirmedBy(d, log1[..k]) == ConfirmedBy(d, log2[..k])
    ensures TimeAfter(log1[..k], genesis) == TimeAfter(log2[..k], genesis)
  {
    if k > 0 {
      SameAtropoiSameBlocks(d, n, genesis, allowed, log1, log2, k - 1);
      SameFrame(d, n, genesis, allowed, log1, log2, k - 1);
      ConfirmedPrefix(d, log1, k);
      ConfirmedPrefix(d, log2, k);
      TimeOfPrefix(log1, genesis, k);
      TimeOfPrefix(log2, genesis, k);
    }
  }

  lemma TimeOfPrefix(log: seq<Record>, genesis: nat, k: nat)
    requires 1 <= k <= |log|
    ensures TimeAfter(log[..k], genesis) == log[k - 1].info.lastConsensusTime
  {
  }

  lemma SameFrame(d: Graph, n: nat, genesis: nat, allowed: (Event, nat) -> bool, log1: seq<Record>, log2: seq<Record>,
      i: nat)
    requires WellFormed(d, n) && LogOk(d, n, genesis, allowed, log1) && LogOk(d, n, genesis, allowed, log2)
    requires i < |log1| && i < |log2| && log1[i].block.atropos == log2[i].block.atropos
    requires ConfirmedBy(d, log1[..i]) == ConfirmedBy(d, log2[..i])
    requires TimeAfter(log1[..i], genesis) == TimeAfter(log2[..i], genesis)
    ensures SameResult(log1[i], log2[i])
  {
    var r1, r2 := log1[i], log2[i];
    assert RecordOk(d, n, genesis, allowed, log1, i) && RecordOk(d, n, genesis, allowed, log2, i);
    FrameResultUnique(d, d, n, ConfirmedBy(d, log1[..i]), r1.block.atropos, TimeAfter(log1[..i], genesis), allowed,
                      r1, r2);
  }

  /** Every Atropos of the log was elected. */
  ghost predicate ElectedLog(d: Graph, stakes: seq<nat>, log: seq<Record>) {
    forall i: nat {:trigger IsElected(d, stakes, log, i)} :: i < |log| ==> IsElected(d, stakes, log, i)
  }

  ghost predicate IsElected(d: Graph, stakes: seq<nat>, log: seq<Record>, i: nat)
    requires i < |log|
  {
    IsAtropos(d, stakes, i + 1, log[i].block.atropos)
  }

  lemma ElectedStable(small: Graph, big: Graph, stakes: seq<nat>, log: seq<Record>)
    requires Extends(small, big) && WellFormed(small, |stakes|) && ElectedLog(small, stakes, log)
    ensures ElectedLog(big, stakes, log)
  {
    forall i: nat | i < |log|
      ensures IsElected(big, stakes, log, i)
    {
      assert IsElected(small, stakes, log, i);
      AtroposStable(small, big, stakes, i + 1, log[i].block.atropos);
    }
  }

  /** The chain agrees: two nodes of an epoch, whatever events each of them has and in whatever order they came,
      have built the same blocks, cheaters and times for every frame both of them decided. */
  lemma NodesBuildSameChain(d1: Graph, d2: Graph, stakes: seq<nat>, genesis: nat, allowed: (Event, nat) -> bool,
      log1: seq<Record>, log2: seq<Record>)
    requires Compatible(d1, d2) && FramesOk(d1, stakes) && FramesOk(d2, stakes) && Sane(stakes)
    requires FewForkers(d1 + d2, stakes)
    requires LogOk(d1, |stakes|, genesis, allowed, log1) && ElectedLog(d1, stakes, log1)
    requires LogOk(d2, |stakes|, genesis, allowed, log2) && ElectedLog(d2, stakes, log2)
    ensures forall i :: 0 <= i < |log1| && i < |log2| ==> SameResult(log1[i], log2[i])
  {
    var n, d := |stakes|, d1 + d2;
    UnionObeysRules(d1, d2, stakes);
    LogStable(d1, d, n, genesis, allowed, log1);
    LogStable(d2, d, n, genesis, allowed, log2);
    forall i: nat | i < |log1| && i < |log2|
      ensures log1[i].block.atropos == log2[i].block.atropos
    {
      assert IsElected(d1, stakes, log1, i) && IsElected(d2, stakes, log2, i);
      NodesAgree(d1, d2, stakes, i + 1, log1[i].block.atropos, log2[i].block.atropos);
    }
    SameAtropoiSameBlocks(d, n, genesis, allowed, log1, log2, if |log1| < |log2| then |log1| else |log2|);
  }
}

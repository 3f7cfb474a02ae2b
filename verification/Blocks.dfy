/** Blocks (poset/frame_decide.go, poset/event_ordering.go): an Atropos confirms its unconfirmed
    ancestors, and the allowed ones of non-cheaters are ordered into a block. */
module Blocks {
  import opened Sequences
  import opened Dag
  import opened Vectors
  import opened VectorSpec
  import opened VectorFill
  import opened VectorQuery
  import opened Median
  import opened Sorting
  import opened ConsensusTime

  /** Ancestors of confirmed events of the graph are confirmed. */
  ghost predicate Closed(d: Graph, confirmed: set<EventId>) {
    forall w, p :: w in confirmed && w in d && p in d[w].parents ==> p in confirmed
  }

  // ---------------------------------------------------------------- the confirming walk

  ghost predicate MarkedOn(confirmedOn: map<EventId, nat>, result: map<EventId, nat>, frame: nat,
      fresh': set<EventId>) {
    && result.Keys == confirmedOn.Keys + fresh'
    && (forall x :: x in confirmedOn && x !in fresh' ==> result[x] == confirmedOn[x])
    && (forall x :: x in fresh' ==> result[x] == frame)
  }

  /** `trace` holds the members of `s`, each once. */
  ghost predicate Lists(trace: seq<EventId>, s: set<EventId>) {
    NoDuplicates(trace) && forall x :: x in trace <==> x in s
  }

  lemma MarkedEntry(confirmedOn: map<EventId, nat>, result: map<EventId, nat>, frame: nat, visited: set<EventId>,
      x: EventId)
    requires MarkedOn(confirmedOn, result, frame, visited) && frame > 0
    requires forall y :: y in confirmedOn ==> confirmedOn[y] > 0
    ensures x in visited || x in confirmedOn <==> x in result && result[x] != 0
  {
  }

  lemma MarkStep(confirmedOn: map<EventId, nat>, result: map<EventId, nat>, frame: nat, visited: set<EventId>,
      trace: seq<EventId>, x: EventId)
    requires MarkedOn(confirmedOn, result, frame, visited) && Lists(trace, visited) && x !in visited
    ensures MarkedOn(confirmedOn, result[x := frame], frame, visited + {x}) && Lists(trace + [x], visited + {x})
  {
  }

  /** The order of the walk: the last of the stack comes first and leaves its parents on it, if it is still `left`. */
  function WalkOrder(d: Graph, left: set<EventId>, stack: seq<EventId>): seq<EventId>
    decreases left, |stack|
  {
    if stack == [] then []
    else
      var walk, rest := stack[|stack| - 1], stack[..|stack| - 1];
      if walk in left && walk in d then [walk] + WalkOrder(d, left - {walk}, rest + d[walk].parents)
      else WalkOrder(d, left, rest)
  }

  /** The walk over what is left does not depend on what else a node knows. */
  lemma {:induction false} WalkOrderStable(small: Graph, big: Graph, left: set<EventId>, stack: seq<EventId>)
    requires Extends(small, big) && left <= small.Keys
    ensures WalkOrder(small, left, stack) == WalkOrder(big, left, stack)
    decreases left, |stack|
  {
    if stack != [] {
      var walk, rest := stack[|stack| - 1], stack[..|stack| - 1];
      if walk in left {
        WalkOrderStable(small, big, left - {walk}, rest + small[walk].parents);
      } else {
        WalkOrderStable(small, big, left, rest);
      }
    }
  }

  /** What lies later on a stack is walked first, and the rest of the stack finds it gone. */
  lemma {:induction false} WalkSplits(d: Graph, left: set<EventId>, a: seq<EventId>, b: seq<EventId>)
    ensures var first := WalkOrder(d, left, b);
      WalkOrder(d, left, a + b) == first + WalkOrder(d, left - Members(first), a)
    decreases left, |b|
  {
    if b == [] {
      assert a + b == a && left - Members<EventId>([]) == left;
    } else {
      var walk, rest := b[|b| - 1], b[..|b| - 1];
      assert (a + b)[..|a + b| - 1] == a + rest;
      if walk in left && walk in d {
        var b' := rest + d[walk].parents;
        var first := WalkOrder(d, left - {walk}, b');
        assert a + rest + d[walk].parents == a + b';
        WalkSplits(d, left - {walk}, a, b');
        assert left - {walk} - Members(first) == left - Members([walk] + first);
      } else {
        WalkSplits(d, left, a, rest);
      }
    }
  }

  /** The walk goes depth first: an event comes before all that is below it, and all that its last parent leads to
      comes before what the other parents lead to. */
  lemma DepthFirst(d: Graph, left: set<EventId>, x: EventId)
    requires x in d && x in left
    ensures d[x].parents == [] ==> WalkOrder(d, left, [x]) == [x]
    ensures d[x].parents != [] ==>
      var others, last := d[x].parents[..|d[x].parents| - 1], d[x].parents[|d[x].parents| - 1];
      var below := WalkOrder(d, left - {x}, [last]);
      WalkOrder(d, left, [x]) == [x] + below + WalkOrder(d, left - {x} - Members(below), others)
  {
    var parents := d[x].parents;
    assert [x][..0] + parents == parents;
    if parents != [] {
      var others, last := parents[..|parents| - 1], parents[|parents| - 1];
      assert parents == others + [last];
      WalkSplits(d, left - {x}, others, [last]);
    }
  }

  /** One event of the walk: what has been reported and what the walk has yet to report make up the whole order. */
  lemma OrderStep(d: Graph, all: set<EventId>, visited: set<EventId>, trace: seq<EventId>, stack: seq<EventId>,
      order: seq<EventId>)
    requires stack != [] && trace + WalkOrder(d, all - visited, stack) == order
    ensures var walk, rest := stack[|stack| - 1], stack[..|stack| - 1];
      && (walk in all && walk !in visited && walk in d ==>
            trace + [walk] + WalkOrder(d, all - (visited + {walk}), rest + d[walk].parents) == order)
      && (walk !in all || walk in visited ==> trace + WalkOrder(d, all - visited, rest) == order)
  {
    var walk := stack[|stack| - 1];
    assert all - visited - {walk} == all - (visited + {walk});
  }

  /** Marks every unconfirmed ancestor of the Atropos, and reports each once, in the order of the walk. */
  method ConfirmEvents(d: Graph, ghost n: nat, confirmedOn: map<EventId, nat>, frame: nat, atropos: EventId)
    returns (result: map<EventId, nat>, trace: seq<EventId>)
    requires WellFormed(d, n) && atropos in d && frame > 0
    requires Closed(d, confirmedOn.Keys) && forall x :: x in confirmedOn ==> confirmedOn[x] > 0
    ensures MarkedOn(confirmedOn, result, frame, Past(d, atropos) - confirmedOn.Keys)
    ensures Lists(trace, Past(d, atropos) - confirmedOn.Keys)
    ensures trace == WalkOrder(d, Past(d, atropos) - confirmedOn.Keys, [atropos])
  {
    result, trace := confirmedOn, [];
    ghost var all := Past(d, atropos) - confirmedOn.Keys;
    ghost var visited: set<EventId> := {};
    ghost var closed := confirmedOn.Keys;
    var stack := [atropos];
    FrontierStart(d, [atropos], closed);
    ghost var order := WalkOrder(d, all, [atropos]);
    assert all - visited == all;
    while stack != []
      invariant Frontier(d, [atropos], visited, closed, stack)
      invariant MarkedOn(confirmedOn, result, frame, visited)
      invariant Lists(trace, visited)
      invariant trace + WalkOrder(d, all - visited, stack) == order
      decreases d.Keys - visited, |stack|
    {
      var walk := stack[|stack| - 1];
      assert walk in stack && walk in Below(d, [atropos]);
      BelowOne(d, atropos, walk);
      MarkedEntry(confirmedOn, result, frame, visited, walk);
      OrderStep(d, all, visited, trace, stack, order);
      var decidedFrame := if walk in result then result[walk] else 0;
      if decidedFrame != 0 {
        FrontierSkip(d, [atropos], visited, closed, stack);
        stack := stack[..|stack| - 1];
        continue;
      }
      FrontierVisit(d, n, [atropos], visited, closed, stack);
      MarkStep(confirmedOn, result, frame, visited, trace, walk);
      result := result[walk := frame];
      trace := trace + [walk];
      visited := visited + {walk};
      stack := stack[..|stack| - 1] + d[walk].parents;
    }
    WalkConfirmsAll(d, n, atropos, visited, closed);
  }

  lemma BelowOne(d: Graph, a: EventId, x: EventId)
    requires x in Below(d, [a])
    ensures x in Past(d, a)
  {
  }

  lemma WalkConfirmsAll(d: Graph, n: nat, atropos: EventId, visited: set<EventId>, closed: set<EventId>)
    requires WellFormed(d, n) && atropos in d && Closed(d, closed) && Frontier(d, [atropos], visited, closed, [])
    ensures visited == Past(d, atropos) - closed
  {
    forall x
      ensures x in visited <==> x in Past(d, atropos) && x !in closed
    {
      assert atropos in [atropos];
      if x in visited {
        assert x in Below(d, [atropos]);
      }
      if x in Past(d, atropos) && x !in closed {
        WalkSkipsNothing(d, n, visited, closed, atropos, x);
      }
    }
  }

  /** After a walk the confirmed events are the old ones and all ancestors of the Atropos, and still closed. */
  lemma ConfirmedStaysClosed(d: Graph, n: nat, confirmed: set<EventId>, atropos: EventId)
    requires WellFormed(d, n) && Closed(d, confirmed) && atropos in d
    ensures Closed(d, confirmed + Past(d, atropos))
  {
    forall w, p | w in confirmed + Past(d, atropos) && w in d && p in d[w].parents
      ensures p in confirmed + Past(d, atropos)
    {
      if w !in confirmed {
        assert Linked(d, d[w]);
        assert Sees(d, w, p);
        SeesTransitive(d, atropos, w, p);
      }
    }
  }

  // ---------------------------------------------------------------- what a block is

  datatype Block = Block(index: nat, time: nat, atropos: EventId, prev: EventId, events: seq<EventId>)

  const MAX_INT32 := 0x7fff_ffff

  function SeqDepth(top: nat, seqNum: nat): nat {
    if top < seqNum then MAX_INT32 else top - seqNum
  }

  /** The highest number of validator `c` that `id` sees; zero when none. */
  ghost function TopSeq(d: Graph, id: EventId, c: nat): nat {
    if exists x: EventId :: IsTop(d, id, c, x) then
      var x: EventId :| IsTop(d, id, c, x);
      d[x].seqNum
    else 0
  }

  /** How far below the highest event of its creator an event lies; those of cheaters count as lying far below. */
  ghost function DepthOf(d: Graph, atropos: EventId, x: EventId): nat
    requires x in d
  {
    if ForkSeen(d, atropos, d[x].creator) then MAX_INT32
    else SeqDepth(TopSeq(d, atropos, d[x].creator), d[x].seqNum)
  }

  /** The unconfirmed ancestors that go into the block: not from cheaters, and allowed by the application. */
  ghost predicate InBlock(d: Graph, atropos: EventId, new': set<EventId>, allowed: (Event, nat) -> bool, x: EventId) {
    && x in new' && x in d
    && !ForkSeen(d, atropos, d[x].creator)
    && allowed(d[x], DepthOf(d, atropos, x))
  }

  /** Lamport time first, hash second. */
  predicate Before(d: Graph, x: EventId, y: EventId) {
    if x in d && y in d && d[x].lamport != d[y].lamport then d[x].lamport < d[y].lamport
    else if (x in d) != (y in d) then x in d
    else x <= y
  }

  ghost predicate BlockEvents(d: Graph, atropos: EventId, new': set<EventId>, allowed: (Event, nat) -> bool,
      events: seq<EventId>) {
    && NoDuplicates(events)
    && (forall x :: x in events <==> InBlock(d, atropos, new', allowed, x))
    && (forall i, j :: 0 <= i < j < |events| ==> Before(d, events[i], events[j]))
  }

  ghost predicate CheatersOk(d: Graph, n: nat, atropos: EventId, cheaters: seq<nat>) {
    && (forall c: nat :: c in cheaters <==> c < n && ForkSeen(d, atropos, c))
    && (forall i, j :: 0 <= i < j < |cheaters| ==> cheaters[i] < cheaters[j])
  }

  /** Highest and lowest Lamport time of a set; both zero for the empty one. */
  ghost predicate LamportSpan(d: Graph, s: set<EventId>, high: nat, low: nat) {
    if s * d.Keys == {} then high == 0 && low == 0
    else
      && (exists x :: x in s && x in d && d[x].lamport == high)
      && (exists x :: x in s && x in d && d[x].lamport == low)
      && (forall x :: x in s && x in d ==> low <= d[x].lamport <= high)
  }

  /** What the application is told of a confirmed event (OnEventConfirmed). */
  datatype Notice = Notice(id: EventId, event: Event, depth: nat)

  ghost predicate IsNotice(d: Graph, atropos: EventId, x: EventId, notice: Notice) {
    x in d && notice == Notice(x, d[x], DepthOf(d, atropos, x))
  }

  /** The application is told of every event of the walk, in its order. */
  ghost predicate Tells(d: Graph, atropos: EventId, walk: seq<EventId>, told: seq<Notice>) {
    |told| == |walk| && forall i {:trigger told[i]} {:trigger walk[i]} ::
      0 <= i < |walk| ==> IsNotice(d, atropos, walk[i], told[i])
  }

  /** The state of an application after it was told; it takes in one notice after the other. */
  function Hear(confirm: (nat, Notice) -> nat, state: nat, told: seq<Notice>): nat {
    if told == [] then state
    else confirm(Hear(confirm, state, told[..|told| - 1]), told[|told| - 1])
  }

  /** Every notice is heard, one after the other in the order they are told. */
  lemma {:induction false} HearsInOrder(confirm: (nat, Notice) -> nat, state: nat, first: seq<Notice>,
      then': seq<Notice>)
    ensures Hear(confirm, state, []) == state
    ensures forall n: Notice :: Hear(confirm, state, [n]) == confirm(state, n)
    ensures Hear(confirm, state, first + then') == Hear(confirm, Hear(confirm, state, first), then')
    decreases |then'|
  {
    assert forall n: Notice :: [n][..0] == [];
    if then' == [] {
      assert first + then' == first;
    } else {
      var init := then'[..|then'| - 1];
      HearsInOrder(confirm, state, first, init);
      assert (first + then')[..|first + then'| - 1] == first + init;
    }
  }

  /** What a decided frame leaves. */
  datatype Record = Record(
    block: Block,
    cheaters: seq<nat>,
    info: FrameInfo,
    high: nat,
    low: nat,
    told: seq<Notice>)

  /** Everything a decided frame produces, as a property of the graph alone. */
  ghost predicate FrameResult(d: Graph, n: nat, confirmed: set<EventId>, atropos: EventId, last: nat,
      allowed: (Event, nat) -> bool, r: Record)
  {
    var new' := Past(d, atropos) - confirmed;
    && atropos in d && r.block.atropos == atropos
    && BlockEvents(d, atropos, new', allowed, r.block.events)
    && CheatersOk(d, n, atropos, r.cheaters)
    && LamportSpan(d, new', r.high, r.low) && r.low <= r.high
    && r.info == FareTimestamps(last, d[atropos].medianTime, r.high, r.low)
    && r.block.time == r.info.lastConsensusTime
    && Tells(d, atropos, WalkOrder(d, new', [atropos]), r.told)
  }

  /** No event of a block comes before one of its ancestors. */
  lemma AncestorsComeFirst(d: Graph, atropos: EventId, new': set<EventId>, allowed: (Event, nat) -> bool,
      events: seq<EventId>, i: nat, j: nat)
    requires BlockEvents(d, atropos, new', allowed, events) && i < j < |events|
    ensures !Sees(d, events[i], events[j])
  {
    assert events[i] in events && events[j] in events && Before(d, events[i], events[j]);
    if Sees(d, events[i], events[j]) {
      SeesInside(d, events[i], events[j]);
      assert false;
    }
  }

  /** The events of a block stand by Lamport time, and those of one Lamport time by hash. */
  lemma BlockOrder(d: Graph, atropos: EventId, new': set<EventId>, allowed: (Event, nat) -> bool, events: seq<EventId>,
      i: nat, j: nat)
    requires BlockEvents(d, atropos, new', allowed, events) && i < j < |events|
    ensures events[i] in d && events[j] in d && d[events[i]].lamport <= d[events[j]].lamport
    ensures d[events[i]].lamport == d[events[j]].lamport ==> events[i] < events[j]
  {
    assert events[i] in events && events[j] in events && Before(d, events[i], events[j]);
  }

  // ---------------------------------------------------------------- depth

  /** The events of creator `c` with a number above `s` that `a` sees. */
  ghost function Above(d: Graph, a: EventId, c: nat, s: nat): set<EventId> {
    set y | y in d && Sees(d, a, y) && d[y].creator == c && d[y].seqNum > s
  }

  lemma {:induction false} AboveCounts(d: Graph, n: nat, a: EventId, c: nat, top: EventId, s: nat)
    requires WellFormed(d, n) && IsTop(d, a, c, top) && !ForkSeen(d, a, c) && s <= d[top].seqNum
    ensures |Above(d, a, c, s)| == d[top].seqNum - s
    decreases d[top].seqNum - s
  {
    if s == d[top].seqNum {
      assert Above(d, a, c, s) == {};
    } else {
      AboveCounts(d, n, a, c, top, s + 1);
      var z := ChainAt(d, n, top, s + 1);
      SeesTransitive(d, a, top, z);
      AboveStep(d, a, c, s, z);
    }
  }

  lemma AboveStep(d: Graph, a: EventId, c: nat, s: nat, z: EventId)
    requires !ForkSeen(d, a, c) && z in d && Sees(d, a, z) && d[z].creator == c && d[z].seqNum == s + 1
    ensures |Above(d, a, c, s)| == |Above(d, a, c, s + 1)| + 1
  {
    forall y | y in Above(d, a, c, s)
      ensures y == z || y in Above(d, a, c, s + 1)
    {
      assert y == z || d[y].seqNum != s + 1 || IsFork(d, y, z, c);
    }
    assert Above(d, a, c, s) == Above(d, a, c, s + 1) + {z};
  }

  /** The depth of an event is the number of later events of its creator that the Atropos sees; the events of a
      cheater are as deep as can be. */
  lemma DepthCounts(d: Graph, n: nat, atropos: EventId, x: EventId)
    requires WellFormed(d, n) && x in d && Sees(d, atropos, x)
    ensures ForkSeen(d, atropos, d[x].creator) ==> DepthOf(d, atropos, x) == MAX_INT32
    ensures !ForkSeen(d, atropos, d[x].creator) ==>
      DepthOf(d, atropos, x) ==
        |set y | y in d && Sees(d, atropos, y) && d[y].creator == d[x].creator && d[y].seqNum > d[x].seqNum|
  {
    var c := d[x].creator;
    if !ForkSeen(d, atropos, c) {
      var some := TopExists(d, atropos, c, x);
      var top: EventId :| IsTop(d, atropos, c, top) && TopSeq(d, atropos, c) == d[top].seqNum;
      AboveCounts(d, n, atropos, c, top, d[x].seqNum);
      assert Above(d, atropos, c, d[x].seqNum) ==
        set y | y in d && Sees(d, atropos, y) && d[y].creator == d[x].creator && d[y].seqNum > d[x].seqNum;
    }
  }

  /** Of the events of a creator that are seen, one has the highest number. */
  lemma {:induction false} TopExists(d: Graph, a: EventId, c: nat, x: EventId) returns (top: EventId)
    requires x in d && Sees(d, a, x) && d[x].creator == c
    ensures IsTop(d, a, c, top)
    decreases |Above(d, a, c, d[x].seqNum)|
  {
    var above := Above(d, a, c, d[x].seqNum);
    if above == {} {
      assert forall y :: y in d && Sees(d, a, y) && d[y].creator == c && d[y].seqNum > d[x].seqNum ==> y in above;
      top := x;
    } else {
      var y :| y in above;
      assert Above(d, a, c, d[y].seqNum) < above;
      SmallerSet(Above(d, a, c, d[y].seqNum), above);
      top := TopExists(d, a, c, y);
    }
  }

  lemma SmallerSet(a: set<EventId>, b: set<EventId>)
    requires a < b
    ensures |a| < |b|
  {
    var x :| x in b && x !in a;
    assert |b| == |a| + |b - a| by {
      assert b == a + (b - a);
    }
    assert x in b - a;
  }

  // ---------------------------------------------------------------- one result for all nodes

  lemma TopSeqIs(d: Graph, id: EventId, c: nat, entry: BranchSeq, time: nat)
    requires TopOk(d, id, c, entry, time) && !ForkSeen(d, id, c)
    ensures TopSeq(d, id, c) == entry.hi
  {
    if entry.hi != 0 {
      var x: EventId :| x in d && Sees(d, id, x) && d[x].creator == c && d[x].seqNum == entry.hi;
      assert IsTop(d, id, c, x);
    }
  }

  lemma TopSeqStable(small: Graph, big: Graph, n: nat, id: EventId, c: nat)
    requires Extends(small, big) && WellFormed(small, n) && id in small
    ensures TopSeq(small, id, c) == TopSeq(big, id, c)
  {
    forall x: EventId
      ensures IsTop(small, id, c, x) <==> IsTop(big, id, c, x)
    {
      TopStable(small, big, n, id, c, x);
    }
  }

  lemma PastSame(small: Graph, big: Graph, n: nat, a: EventId)
    requires Extends(small, big) && WellFormed(small, n) && a in small
    ensures Past(small, a) == Past(big, a)
  {
    forall x
      ensures x in Past(small, a) <==> x in Past(big, a)
    {
      SeesStable(small, big, n, a, x);
      if Sees(small, a, x) {
        SeesInside(small, a, x);
      }
    }
  }

  lemma InBlockStable(small: Graph, big: Graph, n: nat, atropos: EventId, new': set<EventId>,
      allowed: (Event, nat) -> bool, x: EventId)
    requires Extends(small, big) && WellFormed(small, n) && atropos in small && new' <= small.Keys
    ensures InBlock(small, atropos, new', allowed, x) <==> InBlock(big, atropos, new', allowed, x)
  {
    if x in new' {
      DepthStable(small, big, n, atropos, x);
    }
  }

  lemma DepthStable(small: Graph, big: Graph, n: nat, atropos: EventId, x: EventId)
    requires Extends(small, big) && WellFormed(small, n) && atropos in small && x in small
    ensures ForkSeen(small, atropos, small[x].creator) <==> ForkSeen(big, atropos, big[x].creator)
    ensures DepthOf(small, atropos, x) == DepthOf(big, atropos, x)
  {
    ForkSeenStable(small, big, n, atropos, small[x].creator);
    TopSeqStable(small, big, n, atropos, small[x].creator);
  }

  lemma TellsStable(small: Graph, big: Graph, n: nat, atropos: EventId, left: set<EventId>, told: seq<Notice>)
    requires Extends(small, big) && WellFormed(small, n) && atropos in small && left <= small.Keys
    requires Tells(small, atropos, WalkOrder(small, left, [atropos]), told)
    ensures Tells(big, atropos, WalkOrder(big, left, [atropos]), told)
  {
    WalkOrderStable(small, big, left, [atropos]);
    var walk := WalkOrder(small, left, [atropos]);
    forall i | 0 <= i < |walk|
      ensures IsNotice(big, atropos, walk[i], told[i])
    {
      assert IsNotice(small, atropos, walk[i], told[i]);
      DepthStable(small, big, n, atropos, walk[i]);
    }
  }

  lemma TellsOne(d: Graph, atropos: EventId, walk: seq<EventId>, a: seq<Notice>, b: seq<Notice>)
    requires Tells(d, atropos, walk, a) && Tells(d, atropos, walk, b)
    ensures a == b
  {
    forall i | 0 <= i < |a|
      ensures a[i] == b[i]
    {
      assert IsNotice(d, atropos, walk[i], a[i]);
    }
  }

  lemma BlockEventsUnique(small: Graph, big: Graph, n: nat, atropos: EventId, new': set<EventId>,
      allowed: (Event, nat) -> bool, a: seq<EventId>, b: seq<EventId>)
    requires Extends(small, big) && WellFormed(small, n) && atropos in small && new' <= small.Keys
    requires BlockEvents(small, atropos, new', allowed, a) && BlockEvents(big, atropos, new', allowed, b)
    ensures a == b
  {
    forall x
      ensures x in a <==> x in b
    {
      InBlockStable(small, big, n, atropos, new', allowed, x);
    }
    SameMembers(a, b);
    var le := (x: EventId, y: EventId) => Before(big, x, y);
    forall i, j | 0 <= i < j < |a|
      ensures le(a[i], a[j])
    {
      assert a[i] in a && a[j] in a;
    }
    SortedIsUnique(a, b, le);
  }

  lemma {:induction false} SameMembers(a: seq<EventId>, b: seq<EventId>)
    requires NoDuplicates(a) && NoDuplicates(b) && forall x :: x in a <==> x in b
    ensures multiset(a) == multiset(b)
  {
    forall x: EventId
      ensures multiset(a)[x] == multiset(b)[x]
    {
      CountOne(a, x);
      CountOne(b, x);
    }
  }

  lemma {:induction false} CountOne(a: seq<EventId>, x: EventId)
    requires NoDuplicates(a)
    ensures multiset(a)[x] == if x in a then 1 else 0
  {
    if a != [] {
      var init, last := a[..|a| - 1], a[|a| - 1];
      assert a == init + [last];
      CountOne(init, x);
    }
  }

  lemma {:induction false} CheatersUnique(d: Graph, n: nat, atropos: EventId, a: seq<nat>, b: seq<nat>)
    requires CheatersOk(d, n, atropos, a) && CheatersOk(d, n, atropos, b)
    ensures a == b
  {
    assert forall c: nat :: c in a <==> c in b;
    assert forall i, j :: 0 <= i < j < |a| ==> a[i] != a[j];
    SameMembers(a, b);
    SortedIsUnique(a, b, (x: nat, y: nat) => x <= y);
  }

  lemma SpanUnique(small: Graph, big: Graph, s: set<EventId>, h1: nat, l1: nat, h2: nat, l2: nat)
    requires Extends(small, big) && s <= small.Keys && LamportSpan(small, s, h1, l1) && LamportSpan(big, s, h2, l2)
    ensures h1 == h2 && l1 == l2
  {
    assert s * small.Keys == s && s * big.Keys == s;
  }

  /** Two nodes that confirm the same Atropos after the same events produce the same block, cheaters and times, and
      tell the application of the same events in the same order. */
  lemma FrameResultUnique(small: Graph, big: Graph, n: nat, confirmed: set<EventId>, atropos: EventId, last: nat,
      allowed: (Event, nat) -> bool, r1: Record, r2: Record)
    requires Extends(small, big) && WellFormed(small, n) && atropos in small
    requires FrameResult(small, n, confirmed, atropos, last, allowed, r1)
    requires FrameResult(big, n, confirmed, atropos, last, allowed, r2)
    ensures r1.block.events == r2.block.events && r1.block.time == r2.block.time
    ensures r1.cheaters == r2.cheaters && r1.info == r2.info && r1.told == r2.told
  {
    PastSame(small, big, n, atropos);
    var new' := Past(small, atropos) - confirmed;
    BlockEventsUnique(small, big, n, atropos, new', allowed, r1.block.events, r2.block.events);
    forall c: nat
      ensures ForkSeen(small, atropos, c) <==> ForkSeen(big, atropos, c)
    {
      ForkSeenStable(small, big, n, atropos, c);
    }
    CheatersUnique(big, n, atropos, r1.cheaters, r2.cheaters);
    SpanUnique(small, big, new', r1.high, r1.low, r2.high, r2.low);
    TellsStable(small, big, n, atropos, new', r1.told);
    TellsOne(big, atropos, WalkOrder(big, new', [atropos]), r1.told, r2.told);
  }

  // ---------------------------------------------------------------- building the block

  lemma BeforeIsOrder(d: Graph)
    ensures TotalPreorder((x: EventId, y: EventId) => Before(d, x, y))
  {
  }

  /** Sorts by Lamport time and hash. */
  method FareOrdering(d: Graph, unordered: seq<EventId>) returns (ids: seq<EventId>)
    requires NoDuplicates(unordered)
    ensures NoDuplicates(ids) && (forall x :: x in ids <==> x in unordered)
    ensures forall i, j :: 0 <= i < j < |ids| ==> Before(d, ids[i], ids[j])
  {
    BeforeIsOrder(d);
    var le := (x: EventId, y: EventId) => Before(d, x, y);
    ids := Sort(unordered, le);
    PermutationKeepsMembers(unordered, ids);
    forall i, j | 0 <= i < j < |ids|
      ensures Before(d, ids[i], ids[j])
    {
      assert le(ids[i], ids[j]);
    }
  }

  lemma PermutationKeepsMembers(a: seq<EventId>, b: seq<EventId>)
    requires multiset(a) == multiset(b) && NoDuplicates(a)
    ensures NoDuplicates(b) && forall x :: x in a <==> x in b
  {
    forall x: EventId
      ensures x in a <==> x in b
    {
      assert x in a <==> x in multiset(a);
      assert x in b <==> x in multiset(b);
    }
    forall i, j | 0 <= i < j < |b|
      ensures b[i] != b[j]
    {
      if b[i] == b[j] {
        CountOne(a, b[i]);
        CountTwo(b, i, j);
        assert false;
      }
    }
  }

  lemma CountTwo(b: seq<EventId>, i: nat, j: nat)
    requires i < j < |b| && b[i] == b[j]
    ensures multiset(b)[b[i]] >= 2
  {
    assert b == b[..j] + [b[j]] + b[j + 1..];
    assert b[i] in b[..j];
    assert multiset(b[..j])[b[i]] >= 1;
  }

  method ListCheaters(ghost d: Graph, n: nat, ghost atropos: EventId, vec: seq<BranchSeq>, ghost times: seq<nat>)
      returns (cheaters: seq<nat>)
    requires forall c: nat :: c < n ==> TopOk(d, atropos, c, SeqAt(vec, c), NumAt(times, c))
    ensures CheatersOk(d, n, atropos, cheaters)
  {
    cheaters := [];
    for c := 0 to n
      invariant forall k: nat :: k in cheaters <==> k < c && ForkSeen(d, atropos, k)
      invariant forall i, j :: 0 <= i < j < |cheaters| ==> cheaters[i] < cheaters[j]
    {
      assert SeqAt(vec, c) == FORK <==> ForkSeen(d, atropos, c);
      if SeqAt(vec, c) == FORK {
        assert forall i :: 0 <= i < |cheaters| ==> cheaters[i] in cheaters;
        cheaters := cheaters + [c];
      }
    }
  }

  /** One event of the walk: does it go into the block, and does the vector clock account for it? */
  method Inspect(d: Graph, ghost n: nat, ghost atropos: EventId, vec: seq<BranchSeq>, ghost times: seq<nat>,
      ghost new': set<EventId>, allowed: (Event, nat) -> bool, x: EventId)
    returns (taken: bool, depth: nat, sane: bool)
    requires WellFormed(d, n) && x in d && x in new' && Sees(d, atropos, x)
    requires forall c: nat :: c < n ==> TopOk(d, atropos, c, SeqAt(vec, c), NumAt(times, c))
    ensures taken <==> InBlock(d, atropos, new', allowed, x)
    ensures depth == DepthOf(d, atropos, x)
    ensures sane
  {
    var e := d[x];
    assert Linked(d, e);
    assert TopOk(d, atropos, e.creator, SeqAt(vec, e.creator), NumAt(times, e.creator));
    var top := SeqAt(vec, e.creator);
    var fromCheater := top == FORK;
    depth := SeqDepth(top.hi, e.seqNum);
    if !fromCheater {
      TopSeqIs(d, atropos, e.creator, top, NumAt(times, e.creator));
    }
    taken := !fromCheater && allowed(e, depth);
    sane := !(!fromCheater && e.seqNum > top.hi);
  }

  /** The events of the block among the walked ones `s`, each once, and the span of Lamport times of `s`. */
  ghost predicate Gathered(d: Graph, atropos: EventId, new': set<EventId>, allowed: (Event, nat) -> bool,
      s: seq<EventId>, events: seq<EventId>, high: nat, low: nat) {
    TakenFrom(d, atropos, new', allowed, s, events) && SpanOfPrefix(d, s, high, low)
  }

  ghost predicate TakenFrom(d: Graph, atropos: EventId, new': set<EventId>, allowed: (Event, nat) -> bool,
      s: seq<EventId>, events: seq<EventId>) {
    NoDuplicates(events) && forall x :: x in events <==> x in s && InBlock(d, atropos, new', allowed, x)
  }

  lemma GatherStep(d: Graph, atropos: EventId, new': set<EventId>, allowed: (Event, nat) -> bool, s: seq<EventId>,
      events: seq<EventId>, x: EventId)
    requires TakenFrom(d, atropos, new', allowed, s, events) && x !in s
    ensures var events' := if InBlock(d, atropos, new', allowed, x) then events + [x] else events;
      TakenFrom(d, atropos, new', allowed, s + [x], events')
  {
    assert forall y :: y in s + [x] <==> y in s || y == x;
  }

  /** The highest and lowest Lamport times with one event more. */
  method TrackLamports(d: Graph, trace: seq<EventId>, i: nat, high: nat, low: nat) returns (high': nat, low': nat)
    requires i < |trace| && trace[i] in d && d[trace[i]].lamport > 0 && SpanOfPrefix(d, trace[..i], high, low)
    ensures SpanOfPrefix(d, trace[..i + 1], high', low')
  {
    var lamport := d[trace[i]].lamport;
    high', low' := high, low;
    if high == 0 || high < lamport {
      high' := lamport;
    }
    if low == 0 || low > lamport {
      low' := lamport;
    }
    PrefixStep(d, trace, i, high, low, high', low');
  }

  /** What the callbacks of the walk gather, and the state of the application that is told of each event. */
  method Gather(d: Graph, ghost n: nat, ghost atropos: EventId, vec: seq<BranchSeq>, ghost times: seq<nat>,
      ghost new': set<EventId>, allowed: (Event, nat) -> bool, confirm: (nat, Notice) -> nat, state: nat,
      trace: seq<EventId>)
    returns (events: seq<EventId>, high: nat, low: nat, sane: bool, state': nat, ghost told: seq<Notice>)
    requires WellFormed(d, n) && atropos in d && new' <= Past(d, atropos) && Lists(trace, new')
    requires forall c: nat :: c < n ==> TopOk(d, atropos, c, SeqAt(vec, c), NumAt(times, c))
    ensures NoDuplicates(events) && forall x :: x in events <==> InBlock(d, atropos, new', allowed, x)
    ensures LamportSpan(d, new', high, low) && low <= high
    ensures sane
    ensures Tells(d, atropos, trace, told) && state' == Hear(confirm, state, told)
  {
    events, high, low, sane := [], 0, 0, true;
    state', told := state, [];
    for i := 0 to |trace|
      invariant Gathered(d, atropos, new', allowed, trace[..i], events, high, low)
      invariant sane
      invariant Heard(d, atropos, trace[..i], confirm, state, told, state')
    {
      var fine, notice;
      events, high, low, fine, notice := Visit(d, n, atropos, vec, times, new', allowed, trace, i, events, high, low);
      sane := sane && fine;
      HearOne(d, atropos, trace, i, confirm, state, told, state', notice);
      state', told := confirm(state', notice), told + [notice];
    }
    assert trace[..|trace|] == trace;
    PrefixIsSpan(d, trace, new', high, low);
  }

  /** The application was told of the events of `s`, and that took it from `state` to `state'`. */
  ghost predicate Heard(d: Graph, atropos: EventId, s: seq<EventId>, confirm: (nat, Notice) -> nat, state: nat,
      told: seq<Notice>, state': nat) {
    Tells(d, atropos, s, told) && state' == Hear(confirm, state, told)
  }

  lemma HearOne(d: Graph, atropos: EventId, trace: seq<EventId>, i: nat, confirm: (nat, Notice) -> nat, state: nat,
      told: seq<Notice>, state': nat, notice: Notice)
    requires i < |trace| && Heard(d, atropos, trace[..i], confirm, state, told, state')
    requires IsNotice(d, atropos, trace[i], notice)
    ensures Heard(d, atropos, trace[..i + 1], confirm, state, told + [notice], confirm(state', notice))
  {
    assert (told + [notice])[..|told|] == told;
  }

  /** The callback on one walked event. */
  method Visit(d: Graph, ghost n: nat, ghost atropos: EventId, vec: seq<BranchSeq>, ghost times: seq<nat>,
      ghost new': set<EventId>, allowed: (Event, nat) -> bool, trace: seq<EventId>, i: nat, events: seq<EventId>,
      high: nat, low: nat)
    returns (events': seq<EventId>, high': nat, low': nat, sane: bool, notice: Notice)
    requires WellFormed(d, n) && new' <= Past(d, atropos) && Lists(trace, new') && i < |trace|
    requires forall c: nat :: c < n ==> TopOk(d, atropos, c, SeqAt(vec, c), NumAt(times, c))
    requires Gathered(d, atropos, new', allowed, trace[..i], events, high, low)
    ensures Gathered(d, atropos, new', allowed, trace[..i + 1], events', high', low')
    ensures sane && IsNotice(d, atropos, trace[i], notice)
  {
    var x := trace[i];
    assert x in trace && Linked(d, d[x]);
    high', low' := TrackLamports(d, trace, i, high, low);
    var taken, depth;
    taken, depth, sane := Inspect(d, n, atropos, vec, times, new', allowed, x);
    notice := Notice(x, d[x], depth);
    assert x !in trace[..i];
    assert trace[..i + 1] == trace[..i] + [x];
    GatherStep(d, atropos, new', allowed, trace[..i], events, x);
    events' := if taken then events + [x] else events;
  }

  ghost predicate SpanOfPrefix(d: Graph, s: seq<EventId>, high: nat, low: nat) {
    if s == [] then high == 0 && low == 0
    else
      && low > 0
      && (exists x :: x in s && x in d && d[x].lamport == high)
      && (exists x :: x in s && x in d && d[x].lamport == low)
      && (forall x :: x in s && x in d ==> low <= d[x].lamport <= high)
  }

  lemma PrefixStep(d: Graph, trace: seq<EventId>, i: nat, high: nat, low: nat, high': nat, low': nat)
    requires i < |trace| && trace[i] in d && d[trace[i]].lamport > 0 && SpanOfPrefix(d, trace[..i], high, low)
    requires high' == if high == 0 || high < d[trace[i]].lamport then d[trace[i]].lamport else high
    requires low' == if low == 0 || low > d[trace[i]].lamport then d[trace[i]].lamport else low
    ensures SpanOfPrefix(d, trace[..i + 1], high', low')
  {
    var x := trace[i];
    assert trace[..i + 1] == trace[..i] + [x];
    assert x in trace[..i + 1];
    if trace[..i] != [] {
      var h :| h in trace[..i] && h in d && d[h].lamport == high;
      var l :| l in trace[..i] && l in d && d[l].lamport == low;
      assert h in trace[..i + 1] && l in trace[..i + 1];
    }
  }

  lemma PrefixIsSpan(d: Graph, trace: seq<EventId>, s: set<EventId>, high: nat, low: nat)
    requires SpanOfPrefix(d, trace, high, low) && Lists(trace, s) && s <= d.Keys
    ensures LamportSpan(d, s, high, low) && low <= high
  {
    assert s * d.Keys == s;
    if trace == [] {
      assert s == {};
    } else {
      assert trace[0] in s;
    }
  }

  /** From the walk and the merged vector of the Atropos to the block and the times of the frame. */
  method BuildBlock(d: Graph, n: nat, ghost confirmed: set<EventId>, atropos: EventId, vec: seq<BranchSeq>,
      ghost times: seq<nat>, trace: seq<EventId>, last: nat, allowed: (Event, nat) -> bool,
      confirm: (nat, Notice) -> nat, state: nat, index: nat, prev: EventId)
    returns (block: Block, cheaters: seq<nat>, info: FrameInfo, state': nat, sane: bool, ghost r: Record)
    requires WellFormed(d, n) && atropos in d && Lists(trace, Past(d, atropos) - confirmed)
    requires trace == WalkOrder(d, Past(d, atropos) - confirmed, [atropos])
    requires forall c: nat :: c < n ==> TopOk(d, atropos, c, SeqAt(vec, c), NumAt(times, c))
    ensures FrameResult(d, n, confirmed, atropos, last, allowed, r)
    ensures r.block == block && r.cheaters == cheaters && r.info == info
    ensures state' == Hear(confirm, state, r.told)
    ensures block.index == index && block.prev == prev
    ensures sane
  {
    ghost var new' := Past(d, atropos) - confirmed;
    cheaters := ListCheaters(d, n, atropos, vec, times);
    var events, high, low;
    ghost var told;
    events, high, low, sane, state', told := Gather(d, n, atropos, vec, times, new', allowed, confirm, state, trace);
    var ordered := FareOrdering(d, events);
    info := FareTimestamps(last, d[atropos].medianTime, high, low);
    block := Block(index, info.lastConsensusTime, atropos, prev, ordered);
    r := Record(block, cheaters, info, high, low, told);
  }
}

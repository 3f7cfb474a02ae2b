/** The tables of the fork-aware vector clock (vector/index.go): what they say about the graph, and that adding an
    event keeps them exact. */
module VectorIndex {
  import Folds
  import opened Dag
  import opened Vectors
  import opened VectorSpec
  import opened VectorFill

  /** The tables; `events` are the headers of the added events, as the event source returns them. */
  datatype Tables = Tables(
    events: Graph,
    branches: Option<Branches>,
    branchOf: map<EventId, nat>,
    highest: map<EventId, seq<BranchSeq>>,
    times: map<EventId, seq<nat>>,
    lowest: map<EventId, seq<nat>>)

  ghost predicate AllHighestOk(ids: set<EventId>, d: Graph, n: nat, bi: Branches, br: map<EventId, nat>,
      highest: map<EventId, seq<BranchSeq>>, times: map<EventId, seq<nat>>) {
    && ids <= highest.Keys && ids <= times.Keys
    && forall a {:trigger HighestOk(d, n, bi, br, a, highest[a], times[a])} ::
      a in ids ==> HighestOk(d, n, bi, br, a, highest[a], times[a])
  }

  ghost predicate LowestOkFor(d: Graph, bi: Branches, br: map<EventId, nat>, lowest: map<EventId, seq<nat>>) {
    forall x {:trigger LowestOk(d, bi, br, x, lowest[x])} :: x in lowest ==> LowestOk(d, bi, br, x, lowest[x])
  }

  /** All vectors of all added events are exact. */
  ghost predicate Exact(t: Tables, n: nat, bi: Branches) {
    && WellFormed(t.events, n)
    && Branched(t.events, n, bi, t.branchOf)
    && t.highest.Keys == t.events.Keys && t.times.Keys == t.events.Keys
    && AllHighestOk(t.events.Keys, t.events, n, bi, t.branchOf, t.highest, t.times)
    && AllLowestOk(t.events, bi, t.branchOf, t.lowest)
  }

  /** `Exact`, folded so that users of the clock do not carry its definition around. */
  ghost predicate Faithful(t: Tables, n: nat, bi: Branches) {
    && WellFormed(t.events, n)
    && t.highest.Keys == t.events.Keys
    && forall u {:trigger Folds.Open(u)} :: Folds.Open(u) && u == Folds.Vectors ==> Exact(t, n, bi)
  }

  lemma Unfold(t: Tables, n: nat, bi: Branches)
    requires Faithful(t, n, bi)
    ensures Exact(t, n, bi)
  {
    assert Folds.Open(Folds.Vectors);
  }

  lemma Fold(t: Tables, n: nat, bi: Branches)
    requires Exact(t, n, bi)
    ensures Faithful(t, n, bi)
  {
  }

  /** The branches before any event: one for each validator. */
  function Initial(n: nat): Branches {
    Branches(seq(n, _ => 0), seq(n, i => i), seq(n, i => [i]))
  }

  function Current(bi: Option<Branches>, t: Tables, n: nat): Branches {
    match bi
    case Some(b) => b
    case None =>
      match t.branches
      case Some(b) => b
      case None => Initial(n)
  }

  const EMPTY := Tables(map[], None, map[], map[], map[], map[])

  lemma InitialIsExact(n: nat)
    ensures Faithful(EMPTY, n, Initial(n))
  {
    var bi := Initial(n);
    assert forall c: nat :: c < n ==> bi.byCreator[c] == [c];
  }

  method NewInitialBranches(n: nat) returns (bi: Branches)
    ensures bi == Initial(n)
  {
    var lastSeq: seq<nat>, creators: seq<nat>, byCreator: seq<seq<nat>> := [], [], [];
    for i := 0 to n
      invariant lastSeq == seq(i, _ => 0)
      invariant creators == seq(i, k => k)
      invariant byCreator == seq(i, k => [k])
    {
      lastSeq, creators, byCreator := lastSeq + [0], creators + [i], byCreator + [[i]];
    }
    bi := Branches(lastSeq, creators, byCreator);
  }

  /** Puts a new event on the branch it continues, or opens a branch for it. */
  method FillGlobalBranchID(n: nat, bi: Branches, ghost d: Graph, br: map<EventId, nat>, ghost id: EventId, e: Event)
    returns (b: nat, bi': Branches)
    requires WellFormed(d, n) && Branched(d, n, bi, br) && Addable(d, n, id, e)
    ensures Branched(d[id := e], n, bi', br[id := b]) && Grown(bi, bi')
    ensures forall y :: y in d && On(br, y, b) ==> d[y].seqNum < e.seqNum
    ensures b < |bi'.creators| && bi'.creators[b] == e.creator
    ensures bi'.AtLeastOneFork(n) <==> bi.AtLeastOneFork(n) || !ContinuesBranch(d, bi, br, e, b)
  {
    match e.SelfParent() {
      case None =>
        if bi.lastSeq[e.creator] == 0 {
          b, bi' := e.creator, bi.(lastSeq := bi.lastSeq[e.creator := e.seqNum]);
          Continues(n, bi, d, br, id, e, b);
          return;
        }
      case Some(p) =>
        assert p in e.parents && br[p] < |bi.creators|;
        b := br[p];
        if bi.lastSeq[b] + 1 == e.seqNum {
          bi' := bi.(lastSeq := bi.lastSeq[b := e.seqNum]);
          Continues(n, bi, d, br, id, e, b);
          return;
        }
    }
    BranchedFork(d, n, bi, br, id, e);
    b, bi' := |bi.creators|, Opened(bi, e);
    forall y | y in d
      ensures !On(br, y, b)
    {
      assert br[y] < |bi.creators|;
    }
  }

  lemma Continues(n: nat, bi: Branches, d: Graph, br: map<EventId, nat>, id: EventId, e: Event, b: nat)
    requires WellFormed(d, n) && Branched(d, n, bi, br) && Addable(d, n, id, e)
    requires ContinuesBranch(d, bi, br, e, b)
    ensures Branched(d[id := e], n, bi.(lastSeq := bi.lastSeq[b := e.seqNum]), br[id := b])
    ensures forall y :: y in d && On(br, y, b) ==> d[y].seqNum < e.seqNum
  {
    BranchedContinue(d, n, bi, br, id, e, b);
    forall y | y in d && On(br, y, b)
      ensures d[y].seqNum < e.seqNum
    {
      NewAboveBranch(d, n, bi, br, e, b, y);
    }
  }

  /** The vectors of an event that has seen nothing but itself. */
  lemma SelfMerged(d: Graph, bi: Branches, br: map<EventId, nat>, id: EventId, b: nat, vec: seq<BranchSeq>,
      times: seq<nat>)
    requires id in d && On(br, id, b) && b < |bi.creators| && d[id].seqNum > 0
    requires |vec| <= |bi.creators| && |times| <= |bi.creators|
    requires forall j: nat :: SeqAt(vec, j) == if j == b then BranchSeq(d[id].seqNum, d[id].seqNum) else NOTHING
    requires NumAt(times, b) == d[id].claimedTime
    ensures Merged(d, bi, br, {id}, {}, vec, times)
  {
    forall j: nat | j < |bi.creators|
      ensures EntryOk(d, bi, br, {id}, {}, vec, times, j)
    {
    }
  }

  lemma ForkSeenByParent(d: Graph, n: nat, id: EventId, p: EventId, c: nat)
    requires WellFormed(d, n) && id in d && p in d[id].parents && ForkSeen(d, p, c)
    ensures ForkSeen(d, id, c)
  {
    assert Linked(d, d[id]);
    var x, y :| IsFork(d, x, y, c) && Sees(d, p, x) && Sees(d, p, y);
    assert Sees(d, id, x) && Sees(d, id, y);
  }

  lemma ForksOfParent(d: Graph, n: nat, id: EventId, p: EventId)
    requires WellFormed(d, n) && id in d && p in d[id].parents
    ensures ForksSeen(d, n, p) <= ForksSeen(d, n, id)
  {
    forall c | c in ForksSeen(d, n, p)
      ensures c in ForksSeen(d, n, id)
    {
      ForkSeenByParent(d, n, id, p, c);
    }
  }

  method OwnVectors(ghost d: Graph, ghost bi: Branches, ghost br: map<EventId, nat>, ghost id: EventId, e: Event,
      b: nat, size: nat)
    returns (vec: seq<BranchSeq>, vecTimes: seq<nat>)
    requires id in d && d[id] == e && On(br, id, b) && b < |bi.creators| && e.seqNum > 0 && size <= |bi.creators|
    ensures Merged(d, bi, br, {id}, {}, vec, vecTimes)
  {
    vec := Put(seq(size, _ => NOTHING), b, BranchSeq(e.seqNum, e.seqNum), NOTHING);
    vecTimes := Put(seq(size, _ => 0), b, e.claimedTime, 0);
    SelfMerged(d, bi, br, id, b, vec, vecTimes);
  }

  /** Merges the vectors of all parents and detects forks. */
  method FillHighest(ghost d: Graph, n: nat, bi: Branches, ghost br: map<EventId, nat>,
      highest: map<EventId, seq<BranchSeq>>, times: map<EventId, seq<nat>>, ghost id: EventId, e: Event, b: nat,
      size: nat)
    returns (vec: seq<BranchSeq>, vecTimes: seq<nat>)
    requires WellFormed(d, n) && Branched(d, n, bi, br) && id in d && d[id] == e && On(br, id, b)
    requires size <= |bi.creators|
    requires AllHighestOk(d.Keys - {id}, d, n, bi, br, highest, times) && id !in e.parents
    ensures HighestOk(d, n, bi, br, id, vec, vecTimes)
  {
    assert Linked(d, d[id]) && br[id] == b;
    vec, vecTimes := OwnVectors(d, bi, br, id, e, b, size);
    ghost var s, forks: set<nat> := {id}, {};
    for i := 0 to |e.parents|
      invariant s == {id} + Below(d, e.parents[..i])
      invariant forks <= ForksSeen(d, n, id)
      invariant Merged(d, bi, br, s, forks, vec, vecTimes)
    {
      var p := e.parents[i];
      assert p in e.parents && p in d.Keys - {id};
      assert HighestOk(d, n, bi, br, p, highest[p], times[p]);
      vec, vecTimes := MergeParent(d, n, bi, br, s, forks, vec, vecTimes, p, highest[p], times[p]);
      s, forks := s + Past(d, p), forks + ForksSeen(d, n, p);
      BelowPrefix(d, e.parents, i);
      ForksOfParent(d, n, id, p);
    }
    assert e.parents[..|e.parents|] == e.parents;
    PastIsBelow(d, n, id);
    vec := DetectForks(d, n, bi, br, id, forks, vec, vecTimes);
  }

  lemma BelowPrefix(d: Graph, parents: seq<EventId>, i: nat)
    requires i < |parents|
    ensures Below(d, parents[..i + 1]) == Below(d, parents[..i]) + Past(d, parents[i])
  {
    assert parents[..i + 1] == parents[..i] + [parents[i]];
  }

  lemma PastIsBelow(d: Graph, n: nat, id: EventId)
    requires WellFormed(d, n) && id in d
    ensures Past(d, id) == {id} + Below(d, d[id].parents)
  {
    forall x
      ensures x in Past(d, id) <==> x in {id} + Below(d, d[id].parents)
    {
      SeesParents(d, n, id, x);
    }
  }

  lemma HighestOfOthers(t: Tables, n: nat, bi: Branches, id: EventId, e: Event, bi': Branches, b: nat)
    requires Exact(t, n, bi) && id !in t.events && Grown(bi, bi')
    ensures AllHighestOk(t.events.Keys, t.events[id := e], n, bi', t.branchOf[id := b], t.highest, t.times)
  {
    forall a | a in t.events
      ensures HighestOk(t.events[id := e], n, bi', t.branchOf[id := b], a, t.highest[a], t.times[a])
    {
      assert HighestOk(t.events, n, bi, t.branchOf, a, t.highest[a], t.times[a]);
      HighestStable(t.events, n, bi, t.branchOf, id, e, bi', b, a, t.highest[a], t.times[a]);
    }
  }

  lemma LowestOfOthers(t: Tables, n: nat, bi: Branches, id: EventId, e: Event, bi': Branches, b: nat,
      lowest: map<EventId, seq<nat>>)
    requires Exact(t, n, bi) && Addable(t.events, n, id, e) && Grown(bi, bi') && b < |bi'.creators|
    requires forall y :: y in t.events && On(t.branchOf, y, b) ==> t.events[y].seqNum < e.seqNum
    requires lowest.Keys == t.events.Keys
    requires forall x :: x in t.events ==>
      lowest[x] == Lowered(t.lowest[x], x in Below(t.events, e.parents), b, e.seqNum)
    ensures LowestOkFor(t.events[id := e], bi', t.branchOf[id := b], lowest)
  {
    forall x | x in t.events
      ensures LowestOk(t.events[id := e], bi', t.branchOf[id := b], x, lowest[x])
    {
      assert LowestOk(t.events, bi, t.branchOf, x, t.lowest[x]);
      LowestAfterAdd(t.events, n, bi, t.branchOf, id, e, bi', b, x, t.lowest[x]);
      AddedSees(t.events, n, id, e, x);
      assert x in Below(t.events, e.parents) <==> Sees(t.events[id := e], id, x);
    }
  }

  lemma HighestPut(ids: set<EventId>, d: Graph, n: nat, bi: Branches, br: map<EventId, nat>,
      highest: map<EventId, seq<BranchSeq>>, times: map<EventId, seq<nat>>, id: EventId, vec: seq<BranchSeq>,
      vecTimes: seq<nat>)
    requires AllHighestOk(ids, d, n, bi, br, highest, times) && id !in ids
    requires HighestOk(d, n, bi, br, id, vec, vecTimes)
    ensures AllHighestOk(ids + {id}, d, n, bi, br, highest[id := vec], times[id := vecTimes])
  {
    var highest', times' := highest[id := vec], times[id := vecTimes];
    forall a | a in ids + {id}
      ensures HighestOk(d, n, bi, br, a, highest'[a], times'[a])
    {
      if a in ids {
        assert HighestOk(d, n, bi, br, a, highest[a], times[a]);
        assert highest'[a] == highest[a] && times'[a] == times[a];
      }
    }
  }

  lemma KeysWithout(d: Graph, id: EventId, e: Event)
    requires id !in d
    ensures d[id := e].Keys - {id} == d.Keys
  {
  }

  lemma LowestPut(d: Graph, bi: Branches, br: map<EventId, nat>, lowest: map<EventId, seq<nat>>, id: EventId,
      own: seq<nat>)
    requires id in d && lowest.Keys == d.Keys - {id}
    requires LowestOkFor(d, bi, br, lowest) && LowestOk(d, bi, br, id, own)
    ensures AllLowestOk(d, bi, br, lowest[id := own])
  {
    var lowest' := lowest[id := own];
    forall x | x in d
      ensures LowestOk(d, bi, br, x, lowest'[x])
    {
      if x != id {
        assert LowestOk(d, bi, br, x, lowest[x]);
        assert lowest'[x] == lowest[x];
      }
    }
  }

  /** `bi'` and branch `b` are where the new event goes. */
  ghost predicate Ready(n: nat, bi: Branches, t: Tables, id: EventId, e: Event, bi': Branches, b: nat) {
    && Addable(t.events, n, id, e)
    && WellFormed(t.events[id := e], n) && Branched(t.events[id := e], n, bi', t.branchOf[id := b])
    && Grown(bi, bi') && b < |bi'.creators|
    && forall y :: y in t.events && On(t.branchOf, y, b) ==> t.events[y].seqNum < e.seqNum
  }

  method StoreHighest(n: nat, ghost bi: Branches, t: Tables, id: EventId, e: Event, bi': Branches, b: nat, size: nat)
    returns (highest: map<EventId, seq<BranchSeq>>, times: map<EventId, seq<nat>>)
    requires Exact(t, n, bi) && Ready(n, bi, t, id, e, bi', b) && size <= |bi'.creators|
    ensures highest.Keys == times.Keys == t.events.Keys + {id}
    ensures AllHighestOk(t.events.Keys + {id}, t.events[id := e], n, bi', t.branchOf[id := b], highest, times)
  {
    HighestOfOthers(t, n, bi, id, e, bi', b);
    ghost var d', br' := t.events[id := e], t.branchOf[id := b];
    assert d'.Keys - {id} == t.events.Keys;
    assert id !in e.parents;
    var vec, vecTimes := FillHighest(d', n, bi', br', t.highest, t.times, id, e, b, size);
    highest, times := t.highest[id := vec], t.times[id := vecTimes];
    HighestPut(t.events.Keys, d', n, bi', br', t.highest, t.times, id, vec, vecTimes);
  }

  method StoreLowest(ghost n: nat, ghost bi: Branches, t: Tables, id: EventId, e: Event, ghost bi': Branches, b: nat,
      size: nat)
    returns (lowest: map<EventId, seq<nat>>)
    requires Exact(t, n, bi) && Ready(n, bi, t, id, e, bi', b) && size <= |bi'.creators|
    ensures AllLowestOk(t.events[id := e], bi', t.branchOf[id := b], lowest)
  {
    var own := Put(seq(size, _ => 0), b, e.seqNum, 0);
    LowestOfNew(t.events, n, bi', t.branchOf, id, e, b, own);
    lowest := LowerAncestors(t.events, n, bi, t.branchOf, t.lowest, e.parents, b, e.seqNum);
    LowestOfOthers(t, n, bi, id, e, bi', b, lowest);
    KeysWithout(t.events, id, e);
    LowestPut(t.events[id := e], bi', t.branchOf[id := b], lowest, id, own);
    lowest := lowest[id := own];
  }

  method Place(n: nat, bi: Branches, t: Tables, id: EventId, e: Event) returns (bi': Branches, b: nat)
    requires Exact(t, n, bi) && Addable(t.events, n, id, e)
    ensures Ready(n, bi, t, id, e, bi', b)
  {
    b, bi' := FillGlobalBranchID(n, bi, t.events, t.branchOf, id, e);
    AddedIsWellFormed(t.events, n, id, e);
  }

  function Stored(t: Tables, id: EventId, e: Event, b: nat, highest: map<EventId, seq<BranchSeq>>,
      times: map<EventId, seq<nat>>, lowest: map<EventId, seq<nat>>): Tables {
    Tables(t.events[id := e], t.branches, t.branchOf[id := b], highest, times, lowest)
  }

  lemma StoredIsExact(n: nat, bi: Branches, t: Tables, id: EventId, e: Event, bi': Branches, b: nat,
      highest: map<EventId, seq<BranchSeq>>, times: map<EventId, seq<nat>>, lowest: map<EventId, seq<nat>>)
    requires Ready(n, bi, t, id, e, bi', b)
    requires highest.Keys == times.Keys == t.events.Keys + {id}
    requires AllHighestOk(t.events.Keys + {id}, t.events[id := e], n, bi', t.branchOf[id := b], highest, times)
    requires AllLowestOk(t.events[id := e], bi', t.branchOf[id := b], lowest)
    ensures Exact(Stored(t, id, e, b, highest, times, lowest), n, bi')
  {
    assert t.events[id := e].Keys == t.events.Keys + {id};
  }

  /** Computes and stores the vectors of a new event, and lowers LowestAfter of what it sees. */
  method FillEventVectors(n: nat, bi: Branches, t: Tables, id: EventId, e: Event) returns (bi': Branches, t': Tables)
    requires Faithful(t, n, bi) && Addable(t.events, n, id, e)
    ensures Faithful(t', n, bi')
    ensures t'.events == t.events[id := e] && t'.branches == t.branches
  {
    Unfold(t, n, bi);
    var size := |bi.creators|;
    var b;
    bi', b := Place(n, bi, t, id, e);
    var highest, times := StoreHighest(n, bi, t, id, e, bi', b, size);
    var lowest := StoreLowest(n, bi, t, id, e, bi', b, size);
    t' := Stored(t, id, e, b, highest, times, lowest);
    StoredIsExact(n, bi, t, id, e, bi', b, highest, times, lowest);
    Fold(t', n, bi');
  }
}

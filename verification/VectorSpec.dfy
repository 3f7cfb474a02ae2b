/** What the tables of the vector clock mean in terms of reachability, and the facts that
    make the branch-by-branch computation exact. */
module VectorSpec {
  import opened Dag
  import opened Stakes
  import opened ForklessCause
  import opened Vectors

  /** Global branches (branchesInfo): the number reached on each, whose it is, and the list of each validator's. */
  datatype Branches = Branches(lastSeq: seq<nat>, creators: seq<nat>, byCreator: seq<seq<nat>>) {
    predicate AtLeastOneFork(n: nat) {
      |creators| > n
    }

    ghost predicate Consistent(n: nat) {
      && |lastSeq| == |creators| >= n == |byCreator|
      && (forall b: nat :: b < n ==> creators[b] == b)
      && (forall b: nat :: b < |creators| ==> creators[b] < n)
      && (forall c: nat :: c < n ==> |byCreator[c]| > 0 && byCreator[c][0] == c)
      && (forall c: nat, b: nat {:trigger b in byCreator[c]} :: c < n ==>
          (b in byCreator[c] <==> b < |creators| && creators[b] == c))
    }
  }

  predicate On(br: map<EventId, nat>, x: EventId, b: nat) {
    x in br && br[x] == b
  }

  /** No event of its branch has a lower number than `y`. */
  ghost predicate StartsBranch(d: Graph, br: map<EventId, nat>, y: EventId)
    requires y in d
  {
    forall x :: x in d && y in br && On(br, x, br[y]) ==> d[y].seqNum <= d[x].seqNum
  }

  /** Every event lies on a branch of its creator, not above the number the branch has reached. */
  ghost predicate Placed(d: Graph, bi: Branches, br: map<EventId, nat>) {
    && br.Keys == d.Keys && |bi.lastSeq| == |bi.creators|
    && (forall x {:trigger br[x]} :: x in d ==>
          br[x] < |bi.creators| && bi.creators[br[x]] == d[x].creator && d[x].seqNum <= bi.lastSeq[br[x]])
  }

  /** A branch holds one event per number. */
  ghost predicate OnePerNumber(d: Graph, br: map<EventId, nat>) {
    forall x, y {:trigger br[x], br[y]} ::
      x in d && y in d && x in br && y in br && br[x] == br[y] && d[x].seqNum == d[y].seqNum ==> x == y
  }

  /** Below every event of a branch but its first lies the self-parent. */
  ghost predicate Runs(d: Graph, br: map<EventId, nat>) {
    forall y {:trigger StartsBranch(d, br, y)} :: y in d && y in br && !StartsBranch(d, br, y) ==>
      d[y].seqNum > 1 && |d[y].parents| > 0 && On(br, d[y].parents[0], br[y])
  }

  /** Every event lies on one branch of its creator, and a branch is a run of a self-parent chain. */
  ghost predicate Branched(d: Graph, n: nat, bi: Branches, br: map<EventId, nat>) {
    bi.Consistent(n) && Placed(d, bi, br) && OnePerNumber(d, br) && Runs(d, br)
  }

  ghost function Past(d: Graph, a: EventId): set<EventId> {
    set x | x in d && Sees(d, a, x)
  }

  /** `entry` is the exact span of the numbers on branch `b` within `s`; `time` is the claimed time of the highest. */
  ghost predicate SpanOk(d: Graph, br: map<EventId, nat>, s: set<EventId>, b: nat, entry: BranchSeq, time: nat) {
    if entry.hi == 0 then
      && entry.lo == 0
      && (forall x :: x in s ==> !On(br, x, b))
    else
      && (exists x :: x in s && x in d && On(br, x, b) && d[x].seqNum == entry.hi && d[x].claimedTime == time)
      && (exists x :: x in s && x in d && On(br, x, b) && d[x].seqNum == entry.lo)
      && (forall x :: x in s && x in d && On(br, x, b) ==> entry.lo <= d[x].seqNum <= entry.hi)
  }

  predicate Marked(vec: seq<BranchSeq>, b: nat) {
    SeqAt(vec, b) == FORK
  }

  /** HighestBefore of `e` is exact: unmarked entries are spans, and the marker stands exactly for an observed fork. */
  ghost predicate HighestOk(d: Graph, n: nat, bi: Branches, br: map<EventId, nat>, e: EventId, vec: seq<BranchSeq>,
      times: seq<nat>) {
    && |vec| <= |bi.creators| && |times| <= |bi.creators|
    && (forall b: nat {:trigger SpanOk(d, br, Past(d, e), b, SeqAt(vec, b), NumAt(times, b))} ::
          b < |bi.creators| && !Marked(vec, b) ==> SpanOk(d, br, Past(d, e), b, SeqAt(vec, b), NumAt(times, b)))
    && (forall b: nat {:trigger Marked(vec, b)} :: b < |bi.creators| && Marked(vec, b) ==>
        ForkSeen(d, e, bi.creators[b]))
    && (forall c: nat {:trigger ForkSeen(d, e, c)} :: c < n && ForkSeen(d, e, c) ==> Marked(vec, c))
    && (forall x {:trigger Marked(vec, br[x])} ::
        x in d && x in br && Sees(d, e, x) && ForkSeen(d, e, d[x].creator) ==> Marked(vec, br[x]))
  }

  /** Some event on branch `b` with number `s` sees `x`. */
  ghost predicate SeenFrom(d: Graph, br: map<EventId, nat>, x: EventId, b: nat, s: nat) {
    exists y :: y in d && On(br, y, b) && Sees(d, y, x) && d[y].seqNum == s
  }

  /** LowestAfter of `x` is exact: entry `b` is the least number of an event on branch `b` that sees `x`, or zero. */
  ghost predicate LowestOk(d: Graph, bi: Branches, br: map<EventId, nat>, x: EventId, vec: seq<nat>) {
    && |vec| <= |bi.creators|
    && (forall y {:trigger Sees(d, y, x)} :: y in d && y in br && Sees(d, y, x) ==>
        0 < NumAt(vec, br[y]) <= d[y].seqNum)
    && (forall b: nat {:trigger SeenFrom(d, br, x, b, NumAt(vec, b))} ::
          b < |bi.creators| && NumAt(vec, b) != 0 ==> SeenFrom(d, br, x, b, NumAt(vec, b)))
  }

  // ---------------------------------------------------------------- branches are chains

  /** Walking down the chain from `y` stays on the branch as long as the branch reaches that far. */
  lemma {:induction false} ChainStaysOnBranch(d: Graph, n: nat, bi: Branches, br: map<EventId, nat>, x: EventId,
      y: EventId, s: nat)
    requires WellFormed(d, n) && Branched(d, n, bi, br)
    requires x in d && y in d && br[x] == br[y] && d[x].seqNum <= s <= d[y].seqNum
    ensures 1 <= s && On(br, ChainAt(d, n, y, s), br[y])
    decreases d[y].seqNum
  {
    assert Linked(d, d[x]) && Linked(d, d[y]);
    if s < d[y].seqNum {
      assert On(br, x, br[y]) && !StartsBranch(d, br, y);
      var p := d[y].parents[0];
      assert p in d[y].parents;
      ChainStaysOnBranch(d, n, bi, br, x, p, s);
    }
  }

  lemma BranchIsChain(d: Graph, n: nat, bi: Branches, br: map<EventId, nat>, x: EventId, y: EventId)
    requires WellFormed(d, n) && Branched(d, n, bi, br)
    requires x in d && y in d && br[x] == br[y] && d[x].seqNum <= d[y].seqNum
    ensures Sees(d, y, x)
  {
    ChainStaysOnBranch(d, n, bi, br, x, y, d[x].seqNum);
    var z := ChainAt(d, n, y, d[x].seqNum);
    assert br[z] == br[x];
    assert z == x;
  }

  lemma ForkIsOnTwoBranches(d: Graph, n: nat, bi: Branches, br: map<EventId, nat>, x: EventId, y: EventId, c: nat)
    requires Branched(d, n, bi, br) && IsFork(d, x, y, c)
    ensures br[x] != br[y]
    ensures |bi.creators| > n
  {
    assert bi.creators[br[x]] == bi.creators[br[y]] == c;
  }

  // ---------------------------------------------------------------- forkless cause by vectors

  /** Branch `b` vouches: the highest event `a` sees on it is not below the lowest one that sees `b`. */
  predicate Vouches(highest: seq<BranchSeq>, lowest: seq<nat>, b: nat) {
    NumAt(lowest, b) <= SeqAt(highest, b).hi && NumAt(lowest, b) != 0 && !Marked(highest, b)
  }

  lemma VouchingIsWitness(d: Graph, n: nat, bi: Branches, br: map<EventId, nat>, a: EventId, highest: seq<BranchSeq>,
      times: seq<nat>, b: EventId, lowest: seq<nat>, j: nat)
    requires WellFormed(d, n) && Branched(d, n, bi, br) && a in d && b in d
    requires HighestOk(d, n, bi, br, a, highest, times) && LowestOk(d, bi, br, b, lowest)
    requires j < |bi.creators| && Vouches(highest, lowest, j)
    ensures bi.creators[j] in Witnesses(d, n, a, b)
  {
    var x := HighestIsSeen(d, n, bi, br, a, highest, times, j);
    var y := LowestSees(d, bi, br, b, lowest, j);
    BranchIsChain(d, n, bi, br, y, x);
    SeesTransitive(d, x, y, b);
  }

  lemma HighestIsSeen(d: Graph, n: nat, bi: Branches, br: map<EventId, nat>, a: EventId, highest: seq<BranchSeq>,
      times: seq<nat>, j: nat) returns (x: EventId)
    requires HighestOk(d, n, bi, br, a, highest, times) && j < |bi.creators| && !Marked(highest, j)
    requires SeqAt(highest, j).hi > 0
    ensures x in Past(d, a) && x in d && On(br, x, j) && d[x].seqNum == SeqAt(highest, j).hi
  {
    assert SpanOk(d, br, Past(d, a), j, SeqAt(highest, j), NumAt(times, j));
    x :| x in Past(d, a) && x in d && On(br, x, j) && d[x].seqNum == SeqAt(highest, j).hi;
  }

  lemma LowestSees(d: Graph, bi: Branches, br: map<EventId, nat>, b: EventId, lowest: seq<nat>, j: nat)
      returns (y: EventId)
    requires LowestOk(d, bi, br, b, lowest) && j < |bi.creators| && NumAt(lowest, j) != 0
    ensures y in d && On(br, y, j) && Sees(d, y, b) && d[y].seqNum == NumAt(lowest, j)
  {
    assert SeenFrom(d, br, b, j, NumAt(lowest, j));
    y :| y in d && On(br, y, j) && Sees(d, y, b) && d[y].seqNum == NumAt(lowest, j);
  }

  lemma WitnessVouches(d: Graph, n: nat, bi: Branches, br: map<EventId, nat>, a: EventId, highest: seq<BranchSeq>,
      times: seq<nat>, b: EventId, lowest: seq<nat>, c: nat) returns (j: nat)
    requires WellFormed(d, n) && Branched(d, n, bi, br) && a in d && b in d
    requires HighestOk(d, n, bi, br, a, highest, times) && LowestOk(d, bi, br, b, lowest)
    requires c in Witnesses(d, n, a, b)
    ensures j < |bi.creators| && bi.creators[j] == c && Vouches(highest, lowest, j)
  {
    var x :| x in d && d[x].creator == c && Sees(d, a, x) && Sees(d, x, b);
    j := br[x];
    assert Linked(d, d[x]);
    assert !Marked(highest, j);
    assert SpanOk(d, br, Past(d, a), j, SeqAt(highest, j), NumAt(times, j));
    assert x in Past(d, a) && On(br, x, j);
  }

  /** An unmarked entry at the branch of `b` can only hide a fork from an event that does not see `b`. */
  lemma UnmarkedBranch(d: Graph, stakes: seq<nat>, bi: Branches, br: map<EventId, nat>, a: EventId,
      highest: seq<BranchSeq>, times: seq<nat>, b: EventId)
    requires WellFormed(d, |stakes|) && Branched(d, |stakes|, bi, br) && a in d && b in d
    requires HighestOk(d, |stakes|, bi, br, a, highest, times)
    requires !Marked(highest, br[b]) && HasQuorum(stakes, Witnesses(d, |stakes|, a, b))
    ensures !ForkSeen(d, a, d[b].creator)
  {
    var w := Witnesses(d, |stakes|, a, b);
    if w == {} {
      StakeEmpty(stakes, |stakes|);
      assert false;
    }
    var c :| c in w;
    var x :| x in d && d[x].creator == c && Sees(d, a, x) && Sees(d, x, b);
    SeesTransitive(d, a, x, b);
  }

  // ---------------------------------------------------------------- merging spans

  function MergeSpan(mine: BranchSeq, their: BranchSeq): BranchSeq {
    BranchSeq(if mine.hi < their.hi then their.hi else mine.hi,
              if mine.hi == 0 || mine.lo > their.lo then their.lo else mine.lo)
  }

  lemma SpanUnion(d: Graph, br: map<EventId, nat>, s: set<EventId>, t: set<EventId>, b: nat, mine: BranchSeq,
      myTime: nat, their: BranchSeq, theirTime: nat)
    requires SpanOk(d, br, s, b, mine, myTime) && SpanOk(d, br, t, b, their, theirTime)
    requires their.hi != 0 && s <= d.Keys && t <= d.Keys
    ensures SpanOk(d, br, s + t, b, MergeSpan(mine, their), if mine.hi < their.hi then theirTime else myTime)
  {
    var m := MergeSpan(mine, their);
    var h :| h in t && h in d && On(br, h, b) && d[h].seqNum == their.hi && d[h].claimedTime == theirTime;
    var l :| l in t && l in d && On(br, l, b) && d[l].seqNum == their.lo;
    assert h in s + t && l in s + t;
    if mine.hi != 0 {
      var h' :| h' in s && h' in d && On(br, h', b) && d[h'].seqNum == mine.hi && d[h'].claimedTime == myTime;
      var l' :| l' in s && l' in d && On(br, l', b) && d[l'].seqNum == mine.lo;
      assert h' in s + t && l' in s + t;
    }
  }

  lemma SpanUnionNothing(d: Graph, br: map<EventId, nat>, s: set<EventId>, t: set<EventId>, b: nat, mine: BranchSeq,
      myTime: nat, theirTime: nat)
    requires SpanOk(d, br, s, b, mine, myTime) && SpanOk(d, br, t, b, NOTHING, theirTime)
    ensures SpanOk(d, br, s + t, b, mine, myTime)
  {
    assert forall x :: x in s ==> x in s + t;
  }

  /** Two spans share a number. */
  predicate Overlap(a: BranchSeq, b: BranchSeq) {
    a.hi != 0 && b.hi != 0 && a.lo <= b.hi && b.lo <= a.hi
  }

  /** The event of `past(e)` with number `s` on a branch whose span covers `s`. */
  lemma EventInSpan(d: Graph, n: nat, bi: Branches, br: map<EventId, nat>, e: EventId, b: nat, span: BranchSeq,
      time: nat, s: nat) returns (z: EventId)
    requires WellFormed(d, n) && Branched(d, n, bi, br)
    requires SpanOk(d, br, Past(d, e), b, span, time) && span.hi != 0 && span.lo <= s <= span.hi
    ensures z in d && Sees(d, e, z) && On(br, z, b) && d[z].seqNum == s
  {
    var past := Past(d, e);
    var h :| h in past && h in d && On(br, h, b) && d[h].seqNum == span.hi;
    var l :| l in past && l in d && On(br, l, b) && d[l].seqNum == span.lo;
    ChainStaysOnBranch(d, n, bi, br, l, h, s);
    z := ChainAt(d, n, h, s);
    SeesTransitive(d, e, h, z);
  }

  lemma OverlapIsFork(d: Graph, n: nat, bi: Branches, br: map<EventId, nat>, e: EventId, b1: nat, s1: BranchSeq,
      t1: nat, b2: nat, s2: BranchSeq, t2: nat)
    requires WellFormed(d, n) && Branched(d, n, bi, br)
    requires b1 != b2 && b1 < |bi.creators| && b2 < |bi.creators| && bi.creators[b1] == bi.creators[b2]
    requires SpanOk(d, br, Past(d, e), b1, s1, t1) && SpanOk(d, br, Past(d, e), b2, s2, t2)
    requires Overlap(s1, s2)
    ensures ForkSeen(d, e, bi.creators[b1])
  {
    var l1 :| l1 in Past(d, e) && l1 in d && On(br, l1, b1) && d[l1].seqNum == s1.lo;
    var l2 :| l2 in Past(d, e) && l2 in d && On(br, l2, b2) && d[l2].seqNum == s2.lo;
    assert s1.lo <= s1.hi && s2.lo <= s2.hi;
    var s := if s1.lo < s2.lo then s2.lo else s1.lo;
    var x := EventInSpan(d, n, bi, br, e, b1, s1, t1, s);
    var y := EventInSpan(d, n, bi, br, e, b2, s2, t2, s);
    assert IsFork(d, x, y, bi.creators[b1]);
  }

  lemma ForkIsOverlap(d: Graph, n: nat, bi: Branches, br: map<EventId, nat>, e: EventId, vec: seq<BranchSeq>,
      times: seq<nat>, c: nat)
    returns (b1: nat, b2: nat)
    requires WellFormed(d, n) && Branched(d, n, bi, br) && c < n && ForkSeen(d, e, c)
    requires forall b: nat :: b < |bi.creators| && bi.creators[b] == c ==>
      SpanOk(d, br, Past(d, e), b, SeqAt(vec, b), NumAt(times, b))
    ensures b1 in bi.byCreator[c] && b2 in bi.byCreator[c] && b1 != b2 && Overlap(SeqAt(vec, b1), SeqAt(vec, b2))
  {
    var x, y :| IsFork(d, x, y, c) && Sees(d, e, x) && Sees(d, e, y);
    ForkIsOnTwoBranches(d, n, bi, br, x, y, c);
    b1, b2 := br[x], br[y];
    assert x in Past(d, e) && y in Past(d, e) && On(br, x, b1) && On(br, y, b2);
    assert Linked(d, d[x]) && Linked(d, d[y]);
  }

  // ---------------------------------------------------------------- adding one event

  /** `e` is new and its parents are in the graph. */
  predicate Addable(d: Graph, n: nat, id: EventId, e: Event) {
    id !in d && e.creator < n && Linked(d, e)
  }

  lemma AddedIsWellFormed(d: Graph, n: nat, id: EventId, e: Event)
    requires WellFormed(d, n) && Addable(d, n, id, e)
    ensures WellFormed(d[id := e], n) && Extends(d, d[id := e])
  {
    var d' := d[id := e];
    forall x | x in d'
      ensures d'[x].creator < n && Linked(d', d'[x])
    {
      if x != id {
        assert Linked(d, d[x]);
      }
    }
  }

  lemma AddedSees(d: Graph, n: nat, id: EventId, e: Event, x: EventId)
    requires WellFormed(d, n) && Addable(d, n, id, e)
    ensures Sees(d[id := e], id, x) <==> x == id || exists p :: p in e.parents && Sees(d, p, x)
  {
    var d' := d[id := e];
    forall p | p in e.parents
      ensures Sees(d, p, x) <==> Sees(d', p, x)
    {
      SeesStable(d, d', n, p, x);
    }
  }

  /** Nobody sees an event before it is added. */
  lemma NewIsUnseen(d: Graph, n: nat, id: EventId, e: Event, a: EventId)
    requires WellFormed(d, n) && id !in d && a in d
    ensures !Sees(d, a, id) && !Sees(d[id := e], a, id)
  {
    SeesStable(d, d[id := e], n, a, id);
    if Sees(d, a, id) {
      SeesInside(d, a, id);
    }
  }

  /** Branch `b` of the creator ends right below `e`: `e` goes on with it. */
  ghost predicate ContinuesBranch(d: Graph, bi: Branches, br: map<EventId, nat>, e: Event, b: nat) {
    && b < |bi.creators| && b < |bi.lastSeq| && bi.creators[b] == e.creator
    && match e.SelfParent()
       case None => bi.lastSeq[b] == 0
       case Some(p) => On(br, p, b) && bi.lastSeq[b] + 1 == e.seqNum
  }

  lemma NewAboveBranch(d: Graph, n: nat, bi: Branches, br: map<EventId, nat>, e: Event, b: nat, x: EventId)
    requires WellFormed(d, n) && Placed(d, bi, br) && ContinuesBranch(d, bi, br, e, b) && 1 <= e.seqNum
    requires x in d && On(br, x, b)
    ensures d[x].seqNum < e.seqNum && e.SelfParent().Some?
  {
    assert Linked(d, d[x]);
    assert br[x] == b;
  }

  /** An event above everything on its branch, right after its self-parent, keeps the runs. */
  lemma RunsGrow(d: Graph, br: map<EventId, nat>, id: EventId, e: Event, b: nat)
    requires Runs(d, br) && OnePerNumber(d, br) && br.Keys == d.Keys && id !in d
    requires forall x :: x in d && On(br, x, b) ==>
      d[x].seqNum < e.seqNum && e.SelfParent().Some? && On(br, e.parents[0], b)
    ensures Runs(d[id := e], br[id := b]) && OnePerNumber(d[id := e], br[id := b])
  {
    var d', br' := d[id := e], br[id := b];
    forall y | y in d' && !StartsBranch(d', br', y)
      ensures d'[y].seqNum > 1 && |d'[y].parents| > 0 && On(br', d'[y].parents[0], br'[y])
    {
      var x :| x in d' && On(br', x, br'[y]) && d'[x].seqNum < d'[y].seqNum;
      if y == id {
        assert On(br, x, b);
      } else {
        assert x == id ==> On(br, y, b);
        assert On(br, x, br[y]) && !StartsBranch(d, br, y);
      }
    }
    assert forall x :: x in d ==> On(br, x, br[x]);
  }

  lemma BranchedContinue(d: Graph, n: nat, bi: Branches, br: map<EventId, nat>, id: EventId, e: Event, b: nat)
    requires WellFormed(d, n) && Branched(d, n, bi, br) && Addable(d, n, id, e)
    requires ContinuesBranch(d, bi, br, e, b)
    ensures Branched(d[id := e], n, bi.(lastSeq := bi.lastSeq[b := e.seqNum]), br[id := b])
  {
    forall x | x in d && On(br, x, b)
      ensures d[x].seqNum < e.seqNum && e.SelfParent().Some? && On(br, e.parents[0], b)
    {
      NewAboveBranch(d, n, bi, br, e, b, x);
    }
    RunsGrow(d, br, id, e, b);
    PlacedGrow(d, bi, br, id, e, bi.(lastSeq := bi.lastSeq[b := e.seqNum]), b);
  }

  lemma PlacedGrow(d: Graph, bi: Branches, br: map<EventId, nat>, id: EventId, e: Event, bi': Branches, b: nat)
    requires Placed(d, bi, br) && Grown(bi, bi') && |bi'.lastSeq| == |bi'.creators|
    requires forall j: nat :: j < |bi.lastSeq| && j != b ==> bi'.lastSeq[j] == bi.lastSeq[j]
    requires b < |bi'.creators| && bi'.creators[b] == e.creator && bi'.lastSeq[b] == e.seqNum
    requires forall x :: x in d && On(br, x, b) ==> d[x].seqNum < e.seqNum
    ensures Placed(d[id := e], bi', br[id := b])
  {
    var d', br' := d[id := e], br[id := b];
    forall x | x in d'
      ensures br'[x] < |bi'.creators| && bi'.creators[br'[x]] == d'[x].creator && d'[x].seqNum <= bi'.lastSeq[br'[x]]
    {
      if x != id {
        assert br'[x] == br[x];
        assert On(br, x, br[x]);
      }
    }
  }

  /** The branches after a new one was opened for `e`. */
  function Opened(bi: Branches, e: Event): Branches
    requires e.creator < |bi.byCreator|
  {
    Branches(bi.lastSeq + [e.seqNum], bi.creators + [e.creator],
             bi.byCreator[e.creator := bi.byCreator[e.creator] + [|bi.creators|]])
  }

  lemma OpenedIsConsistent(bi: Branches, n: nat, e: Event)
    requires bi.Consistent(n) && e.creator < n
    ensures Opened(bi, e).Consistent(n)
  {
    var bi' := Opened(bi, e);
    forall c: nat, b: nat | c < n
      ensures b in bi'.byCreator[c] <==> b < |bi'.creators| && bi'.creators[b] == c
    {
      assert b in bi.byCreator[c] <==> b < |bi.creators| && bi.creators[b] == c;
    }
  }

  lemma BranchedFork(d: Graph, n: nat, bi: Branches, br: map<EventId, nat>, id: EventId, e: Event)
    requires WellFormed(d, n) && Branched(d, n, bi, br) && Addable(d, n, id, e)
    ensures Branched(d[id := e], n, Opened(bi, e), br[id := |bi.creators|])
  {
    var b := |bi.creators|;
    OpenedIsConsistent(bi, n, e);
    forall x | x in d
      ensures !On(br, x, b)
    {
      assert br[x] < b;
    }
    RunsGrow(d, br, id, e, b);
    PlacedGrow(d, bi, br, id, e, Opened(bi, e), b);
  }

  /** `bi'` has all branches of `bi`, unchanged in owner. */
  predicate Grown(bi: Branches, bi': Branches) {
    |bi.creators| <= |bi'.creators| && bi.creators == bi'.creators[..|bi.creators|]
  }

  lemma PastStable(d: Graph, n: nat, id: EventId, e: Event, a: EventId)
    requires WellFormed(d, n) && id !in d && a in d
    ensures Past(d[id := e], a) == Past(d, a)
  {
    var d' := d[id := e];
    forall x
      ensures x in Past(d, a) <==> x in Past(d', a)
    {
      SeesStable(d, d', n, a, x);
      NewIsUnseen(d, n, id, e, a);
    }
  }

  lemma SpanStable(d: Graph, br: map<EventId, nat>, d': Graph, br': map<EventId, nat>, s: set<EventId>, b: nat,
      entry: BranchSeq, time: nat)
    requires SpanOk(d, br, s, b, entry, time) && Extends(d, d') && s <= d.Keys == br.Keys
    requires forall x :: x in br ==> x in br' && br'[x] == br[x]
    ensures SpanOk(d', br', s, b, entry, time)
  {
    assert forall x :: x in s ==> (On(br, x, b) <==> On(br', x, b));
    if entry.hi != 0 {
      var h :| h in s && h in d && On(br, h, b) && d[h].seqNum == entry.hi && d[h].claimedTime == time;
      var l :| l in s && l in d && On(br, l, b) && d[l].seqNum == entry.lo;
      assert On(br', h, b) && On(br', l, b);
    }
  }

  lemma SpansStable(d: Graph, n: nat, bi: Branches, br: map<EventId, nat>, id: EventId, e: Event, b': nat, a: EventId,
      vec: seq<BranchSeq>, times: seq<nat>, b: nat)
    requires WellFormed(d, n) && Placed(d, bi, br) && id !in d && a in d
    requires |vec| <= |bi.creators| && !Marked(vec, b)
    requires b < |bi.creators| ==> SpanOk(d, br, Past(d, a), b, SeqAt(vec, b), NumAt(times, b))
    ensures SpanOk(d[id := e], br[id := b'], Past(d[id := e], a), b, SeqAt(vec, b), NumAt(times, b))
  {
    PastStable(d, n, id, e, a);
    if b < |bi.creators| {
      SpanStable(d, br, d[id := e], br[id := b'], Past(d, a), b, SeqAt(vec, b), NumAt(times, b));
    } else {
      forall x | x in Past(d, a)
        ensures !On(br[id := b'], x, b)
      {
        assert br[x] < |bi.creators|;
      }
    }
  }

  lemma MarksStable(d: Graph, n: nat, bi: Branches, br: map<EventId, nat>, id: EventId, e: Event, b': nat, a: EventId,
      vec: seq<BranchSeq>, x: EventId)
    requires WellFormed(d, n) && Placed(d, bi, br) && id !in d && a in d
    requires Sees(d[id := e], a, x) && x in d[id := e] && ForkSeen(d[id := e], a, d[id := e][x].creator)
    requires forall y {:trigger Marked(vec, br[y])} ::
      y in d && y in br && Sees(d, a, y) && ForkSeen(d, a, d[y].creator) ==> Marked(vec, br[y])
    ensures Marked(vec, br[id := b'][x])
  {
    NewIsUnseen(d, n, id, e, a);
    SeesStable(d, d[id := e], n, a, x);
    ForkSeenStable(d, d[id := e], n, a, d[x].creator);
    assert br[id := b'][x] == br[x];
    assert Marked(vec, br[x]);
  }

  /** Adding an event leaves the HighestBefore vectors of the others exact. */
  lemma HighestStable(d: Graph, n: nat, bi: Branches, br: map<EventId, nat>, id: EventId, e: Event, bi': Branches,
      b': nat, a: EventId, vec: seq<BranchSeq>, times: seq<nat>)
    requires WellFormed(d, n) && Placed(d, bi, br) && id !in d && a in d
    requires Grown(bi, bi')
    requires HighestOk(d, n, bi, br, a, vec, times)
    ensures HighestOk(d[id := e], n, bi', br[id := b'], a, vec, times)
  {
    var d', br' := d[id := e], br[id := b'];
    forall b: nat | b < |bi'.creators| && !Marked(vec, b)
      ensures SpanOk(d', br', Past(d', a), b, SeqAt(vec, b), NumAt(times, b))
    {
      assert b < |bi.creators| ==> SpanOk(d, br, Past(d, a), b, SeqAt(vec, b), NumAt(times, b));
      SpansStable(d, n, bi, br, id, e, b', a, vec, times, b);
    }
    forall c: nat
      ensures ForkSeen(d, a, c) <==> ForkSeen(d', a, c)
    {
      ForkSeenStable(d, d', n, a, c);
    }
    forall b: nat | b < |bi'.creators| && Marked(vec, b)
      ensures ForkSeen(d', a, bi'.creators[b])
    {
      assert b < |bi.creators| && bi.creators[b] == bi'.creators[b];
    }
    forall x | x in d' && x in br' && Sees(d', a, x) && ForkSeen(d', a, d'[x].creator)
      ensures Marked(vec, br'[x])
    {
      MarksStable(d, n, bi, br, id, e, b', a, vec, x);
    }
  }

  /** What becomes of a LowestAfter vector when `e` on branch `b` is added. */
  function Lowered(vec: seq<nat>, sees: bool, b: nat, s: nat): seq<nat> {
    if sees && NumAt(vec, b) == 0 then Put(vec, b, s, 0) else vec
  }

  /** Adding an event and lowering the vectors of what it sees keeps LowestAfter exact. */
  lemma LowestAfterAdd(d: Graph, n: nat, bi: Branches, br: map<EventId, nat>, id: EventId, e: Event, bi': Branches,
      b': nat, x: EventId, vec: seq<nat>)
    requires WellFormed(d, n) && Placed(d, bi, br) && id !in d && x in d && 1 <= e.seqNum
    requires Grown(bi, bi') && b' < |bi'.creators|
    requires forall y :: y in d && On(br, y, b') ==> d[y].seqNum < e.seqNum
    requires LowestOk(d, bi, br, x, vec)
    ensures LowestOk(d[id := e], bi', br[id := b'], x, Lowered(vec, Sees(d[id := e], id, x), b', e.seqNum))
  {
    var d', br' := d[id := e], br[id := b'];
    var vec' := Lowered(vec, Sees(d', id, x), b', e.seqNum);
    if NumAt(vec, b') != 0 {
      assert SeenFrom(d, br, x, b', NumAt(vec, b'));
    }
    forall y | y in d' && y in br' && Sees(d', y, x)
      ensures 0 < NumAt(vec', br'[y]) <= d'[y].seqNum
    {
      if y != id {
        SeesStable(d, d', n, y, x);
        assert br'[y] == br[y] && Sees(d, y, x);
      }
    }
    forall b: nat | b < |bi'.creators| && NumAt(vec', b) != 0
      ensures SeenFrom(d', br', x, b, NumAt(vec', b))
    {
      if NumAt(vec, b) != 0 {
        assert SeenFrom(d, br, x, b, NumAt(vec, b));
        SeenFromStable(d, n, br, id, e, b', x, b, NumAt(vec, b));
      } else {
        assert On(br', id, b) && d'[id].seqNum == NumAt(vec', b);
      }
    }
  }

  lemma SeenFromStable(d: Graph, n: nat, br: map<EventId, nat>, id: EventId, e: Event, b': nat, x: EventId, b: nat,
      s: nat)
    requires WellFormed(d, n) && id !in d && SeenFrom(d, br, x, b, s)
    ensures SeenFrom(d[id := e], br[id := b'], x, b, s)
  {
    var y :| y in d && On(br, y, b) && Sees(d, y, x) && d[y].seqNum == s;
    SeesStable(d, d[id := e], n, y, x);
    assert On(br[id := b'], y, b);
  }

  lemma LowestOfNew(d: Graph, n: nat, bi': Branches, br: map<EventId, nat>, id: EventId, e: Event, b': nat,
      vec: seq<nat>)
    requires WellFormed(d, n) && Addable(d, n, id, e) && Branched(d[id := e], n, bi', br[id := b'])
    requires |vec| <= |bi'.creators| && (forall b: nat :: NumAt(vec, b) == if b == b' then e.seqNum else 0)
    ensures LowestOk(d[id := e], bi', br[id := b'], id, vec)
  {
    var d', br' := d[id := e], br[id := b'];
    forall y | y in d' && y in br' && Sees(d', y, id)
      ensures 0 < NumAt(vec, br'[y]) <= d'[y].seqNum
    {
      if y != id {
        NewIsUnseen(d, n, id, e, y);
        assert false;
      }
    }
    forall b: nat | b < |bi'.creators| && NumAt(vec, b) != 0
      ensures SeenFrom(d', br', id, b, NumAt(vec, b))
    {
      assert id in d' && On(br', id, b) && Sees(d', id, id);
    }
  }
}

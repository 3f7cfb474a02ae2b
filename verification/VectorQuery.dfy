/** Questions answered from the vectors: forkless cause, cheaters among candidate parents, and the
    vector in which the branches of a validator are merged. */
module VectorQuery {
  import opened Dag
  import opened Stakes
  import opened ForklessCause
  import opened Vectors
  import opened VectorSpec
  import opened VectorIndex

  /** The creators with a vouching branch among the first `j`. */
  ghost predicate VouchedBefore(bi: Branches, highest: seq<BranchSeq>, lowest: seq<nat>, j: nat, c: nat)
    requires j <= |bi.creators|
  {
    exists k :: 0 <= k < j && bi.creators[k] == c && Vouches(highest, lowest, k)
  }

  lemma VouchedAreWitnesses(t: Tables, n: nat, bi: Branches, a: EventId, b: EventId, counted: set<nat>)
    requires Exact(t, n, bi) && a in t.events && b in t.events
    requires forall c :: c in counted <==> VouchedBefore(bi, t.highest[a], t.lowest[b], |bi.creators|, c)
    ensures counted == Witnesses(t.events, n, a, b)
  {
    assert HighestOk(t.events, n, bi, t.branchOf, a, t.highest[a], t.times[a]);
    assert LowestOk(t.events, bi, t.branchOf, b, t.lowest[b]);
    forall c
      ensures c in counted <==> c in Witnesses(t.events, n, a, b)
    {
      if c in counted {
        var k :| 0 <= k < |bi.creators| && bi.creators[k] == c && Vouches(t.highest[a], t.lowest[b], k);
        VouchingIsWitness(t.events, n, bi, t.branchOf, a, t.highest[a], t.times[a], b, t.lowest[b], k);
      }
      if c in Witnesses(t.events, n, a, b) {
        var k := WitnessVouches(t.events, n, bi, t.branchOf, a, t.highest[a], t.times[a], b, t.lowest[b], c);
      }
    }
  }

  /** Counts the stake of the creators of vouching branches. */
  method CountVouchers(stakes: seq<nat>, bi: Branches, highest: seq<BranchSeq>, lowest: seq<nat>) returns (yes: bool,
      ghost counted: set<nat>)
    requires bi.Consistent(|stakes|)
    ensures yes <==> HasQuorum(stakes, counted)
    ensures forall c :: c in counted <==> VouchedBefore(bi, highest, lowest, |bi.creators|, c)
  {
    var counter := new StakeCounter(stakes);
    for j := 0 to |bi.creators|
      invariant counter.Valid() && counter.stakes == stakes && fresh(counter)
      invariant forall c :: c in counter.counted <==> VouchedBefore(bi, highest, lowest, j, c)
    {
      var lowestAfter := NumAt(lowest, j);
      var highestBefore := SeqAt(highest, j);
      ghost var before := counter.counted;
      if lowestAfter <= highestBefore.hi && lowestAfter != 0 && highestBefore != FORK {
        var _ := counter.CountByIdx(bi.creators[j]);
        assert Vouches(highest, lowest, j);
      }
      forall c
        ensures c in counter.counted <==> VouchedBefore(bi, highest, lowest, j + 1, c)
      {
        assert VouchedBefore(bi, highest, lowest, j + 1, c) <==>
               VouchedBefore(bi, highest, lowest, j, c) || (bi.creators[j] == c && Vouches(highest, lowest, j));
      }
    }
    yes := counter.Reached();
    counted := counter.counted;
  }

  /** The comparison of two vectors answers the reachability-and-quorum question, forks or not. */
  method Causes(stakes: seq<nat>, bi: Branches, t: Tables, a: EventId, b: EventId) returns (yes: bool)
    requires Faithful(t, |stakes|, bi) && a in t.events && b in t.events
    ensures yes <==> ForklessCaused(t.events, stakes, a, b)
  {
    Unfold(t, |stakes|, bi);
    assert HighestOk(t.events, |stakes|, bi, t.branchOf, a, t.highest[a], t.times[a]);
    var highest := t.highest[a];
    var n := |stakes|;
    var bBranch := t.branchOf[b];
    assert bBranch < |bi.creators| && bi.creators[bBranch] == t.events[b].creator;
    if bi.AtLeastOneFork(n) && SeqAt(highest, bBranch) == FORK {
      assert Marked(highest, bBranch);
      return false;
    }
    ghost var counted;
    yes, counted := CountVouchers(stakes, bi, highest, t.lowest[b]);
    VouchedAreWitnesses(t, n, bi, a, b, counted);
    ForkCheckSkipped(t, stakes, bi, a, b);
  }

  lemma ForkCheckSkipped(t: Tables, stakes: seq<nat>, bi: Branches, a: EventId, b: EventId)
    requires Exact(t, |stakes|, bi) && a in t.events && b in t.events
    requires !bi.AtLeastOneFork(|stakes|) || !Marked(t.highest[a], t.branchOf[b])
    ensures HasQuorum(stakes, Witnesses(t.events, |stakes|, a, b)) ==> !ForkSeen(t.events, a, t.events[b].creator)
  {
    var n, d := |stakes|, t.events;
    assert HighestOk(d, n, bi, t.branchOf, a, t.highest[a], t.times[a]);
    if bi.AtLeastOneFork(n) {
      if HasQuorum(stakes, Witnesses(d, n, a, b)) {
        UnmarkedBranch(d, stakes, bi, t.branchOf, a, t.highest[a], t.times[a], b);
      }
    } else if ForkSeen(d, a, d[b].creator) {
      var x, y :| IsFork(d, x, y, d[b].creator) && Sees(d, a, x) && Sees(d, a, y);
      ForkIsOnTwoBranches(d, n, bi, t.branchOf, x, y, d[b].creator);
      assert false;
    }
  }

  // ---------------------------------------------------------------- cheaters

  /** The candidates whose creators `self` has not seen forking, in order. */
  ghost function Honest(d: Graph, self: EventId, options: seq<EventId>): seq<EventId>
    requires forall o :: o in options ==> o in d
  {
    if options == [] then []
    else
      var rest := Honest(d, self, options[..|options| - 1]);
      var o := options[|options| - 1];
      if ForkSeen(d, self, d[o].creator) then rest else rest + [o]
  }

  /** Nothing is dropped exactly when the self-parent has seen no fork of any candidate's creator. */
  lemma {:induction false} HonestKeepsAll(d: Graph, self: EventId, options: seq<EventId>)
    requires forall o :: o in options ==> o in d
    ensures |Honest(d, self, options)| <= |options|
    ensures |Honest(d, self, options)| == |options| <==> forall o :: o in options ==> !ForkSeen(d, self, d[o].creator)
  {
    if options != [] {
      var init, last := options[..|options| - 1], options[|options| - 1];
      HonestKeepsAll(d, self, init);
      assert forall o :: o in options <==> o in init || o == last;
    }
  }

  lemma MarkIsFork(t: Tables, n: nat, bi: Branches, id: EventId, c: nat)
    requires Faithful(t, n, bi) && id in t.events && c < n
    ensures SeqAt(t.highest[id], c) == FORK <==> ForkSeen(t.events, id, c)
  {
    Unfold(t, n, bi);
    assert HighestOk(t.events, n, bi, t.branchOf, id, t.highest[id], t.times[id]);
    assert Marked(t.highest[id], c) <==> ForkSeen(t.events, id, c);
  }

  method NoCheaters(n: nat, bi: Branches, t: Tables, self: Option<EventId>, options: seq<EventId>)
      returns (filtered: seq<EventId>)
    requires Faithful(t, n, bi) && (self.Some? ==> self.value in t.events)
    requires forall o :: o in options ==> o in t.events
    ensures self.None? ==> filtered == options
    ensures self.Some? ==> filtered == Honest(t.events, self.value, options)
  {
    if self.None? {
      return options;
    }
    var highest := t.highest[self.value];
    filtered := [];
    for i := 0 to |options|
      invariant filtered == Honest(t.events, self.value, options[..i])
    {
      var id := options[i];
      assert id in options && Linked(t.events, t.events[id]);
      var c := t.events[id].creator;
      assert options[..i + 1][..i] == options[..i];
      MarkIsFork(t, n, bi, self.value, c);
      if SeqAt(highest, c) != FORK {
        filtered := filtered + [id];
      }
    }
    assert options[..|options|] == options;
  }

  // ---------------------------------------------------------------- merged branches

  /** `entry` is the marker for a fork seen, else the highest number of validator `c` that `id` sees, with its claimed
      time. */
  ghost predicate TopOk(d: Graph, id: EventId, c: nat, entry: BranchSeq, time: nat) {
    if ForkSeen(d, id, c) then entry == FORK
    else if entry.hi == 0 then entry == NOTHING && forall x :: x in d && Sees(d, id, x) ==> d[x].creator != c
    else
      && (exists x ::
            x in d && Sees(d, id, x) && d[x].creator == c && d[x].seqNum == entry.hi && d[x].claimedTime == time)
      && (forall x :: x in d && Sees(d, id, x) && d[x].creator == c ==> d[x].seqNum <= entry.hi)
  }

  /** Branches without a fork among them: the highest entry is the top. */
  ghost predicate TopOfBranches(vec: seq<BranchSeq>, times: seq<nat>, branches: seq<nat>, entry: BranchSeq, time: nat) {
    && (forall b :: b in branches ==> SeqAt(vec, b).hi <= entry.hi)
    && (entry.hi == 0 ==> entry == NOTHING)
    && (entry.hi != 0 ==> exists b :: b in branches && SeqAt(vec, b) == entry && NumAt(times, b) == time)
  }

  lemma BranchTopIsTop(t: Tables, n: nat, bi: Branches, id: EventId, c: nat, entry: BranchSeq, time: nat)
    requires Exact(t, n, bi) && id in t.events && c < n && !ForkSeen(t.events, id, c)
    requires TopOfBranches(t.highest[id], t.times[id], bi.byCreator[c], entry, time)
    ensures TopOk(t.events, id, c, entry, time)
  {
    var d, vec, times := t.events, t.highest[id], t.times[id];
    forall x | x in d && Sees(d, id, x) && d[x].creator == c
      ensures 0 < d[x].seqNum <= entry.hi
    {
      SeenIsBelowTop(t, n, bi, id, c, entry, time, x);
    }
    if entry.hi != 0 {
      var b :| b in bi.byCreator[c] && SeqAt(vec, b) == entry && NumAt(times, b) == time;
      var x := TopIsOnBranch(t, n, bi, id, c, b);
    }
  }

  lemma SeenIsBelowTop(t: Tables, n: nat, bi: Branches, id: EventId, c: nat, entry: BranchSeq, time: nat, x: EventId)
    requires Exact(t, n, bi) && id in t.events && c < n && !ForkSeen(t.events, id, c)
    requires TopOfBranches(t.highest[id], t.times[id], bi.byCreator[c], entry, time)
    requires x in t.events && Sees(t.events, id, x) && t.events[x].creator == c
    ensures 0 < t.events[x].seqNum <= entry.hi
  {
    var d, br, vec, times := t.events, t.branchOf, t.highest[id], t.times[id];
    assert HighestOk(d, n, bi, br, id, vec, times);
    var b := br[x];
    assert b in bi.byCreator[c] && !Marked(vec, b) && Linked(d, d[x]);
    assert SpanOk(d, br, Past(d, id), b, SeqAt(vec, b), NumAt(times, b));
    assert x in Past(d, id) && On(br, x, b);
  }

  lemma TopIsOnBranch(t: Tables, n: nat, bi: Branches, id: EventId, c: nat, b: nat) returns (x: EventId)
    requires Exact(t, n, bi) && id in t.events && c < n && !ForkSeen(t.events, id, c)
    requires b in bi.byCreator[c] && SeqAt(t.highest[id], b).hi != 0
    ensures x in t.events && Sees(t.events, id, x) && t.events[x].creator == c
    ensures t.events[x].seqNum == SeqAt(t.highest[id], b).hi && t.events[x].claimedTime == NumAt(t.times[id], b)
  {
    var d, br, vec, times := t.events, t.branchOf, t.highest[id], t.times[id];
    assert HighestOk(d, n, bi, br, id, vec, times);
    assert SpanOk(d, br, Past(d, id), b, SeqAt(vec, b), NumAt(times, b));
    x :| x in Past(d, id) && x in d && On(br, x, b) && d[x].seqNum == SeqAt(vec, b).hi && d[x].claimedTime ==
      NumAt(times, b);
    assert br[x] == b && d[x].creator == c;
  }

  /** The entry of one validator, read over all its branches. */
  method TopOf(n: nat, bi: Branches, t: Tables, id: EventId, c: nat) returns (entry: BranchSeq, time: nat)
    requires Faithful(t, n, bi) && id in t.events && c < n
    ensures TopOk(t.events, id, c, entry, time)
    ensures ForkSeen(t.events, id, c) ==> time == 0
  {
    Unfold(t, n, bi);
    var vec, times := t.highest[id], t.times[id];
    assert HighestOk(t.events, n, bi, t.branchOf, id, vec, times);
    var branches := bi.byCreator[c];
    entry, time := NOTHING, 0;
    for i := 0 to |branches|
      invariant i > 0 ==> !ForkSeen(t.events, id, c)
      invariant TopOfBranches(vec, times, branches[..i], entry, time)
      invariant i == 0 ==> time == 0
    {
      var b := branches[i];
      assert b in bi.byCreator[c];
      var branch := SeqAt(vec, b);
      assert ForkSeen(t.events, id, c) ==> Marked(vec, c);
      if branch == FORK {
        assert Marked(vec, b);
        entry := branch;
        return;
      }
      assert branches[..i + 1] == branches[..i] + [b];
      if branch.hi > entry.hi {
        entry, time := branch, NumAt(times, b);
        assert b in branches[..i + 1];
      }
    }
    assert branches[..|branches|] == branches;
    assert branches[0] == c;
    BranchTopIsTop(t, n, bi, id, c, entry, time);
  }

  lemma OneBranchIsTop(t: Tables, n: nat, bi: Branches, id: EventId, c: nat)
    requires Exact(t, n, bi) && id in t.events && c < n && !bi.AtLeastOneFork(n)
    ensures !ForkSeen(t.events, id, c)
    ensures TopOk(t.events, id, c, SeqAt(t.highest[id], c), NumAt(t.times[id], c))
  {
    var d, br, vec, times := t.events, t.branchOf, t.highest[id], t.times[id];
    if ForkSeen(d, id, c) {
      var x, y :| IsFork(d, x, y, c) && Sees(d, id, x) && Sees(d, id, y);
      ForkIsOnTwoBranches(d, n, bi, br, x, y, c);
      assert false;
    }
    assert HighestOk(d, n, bi, br, id, vec, times);
    assert !Marked(vec, c);
    assert SpanOk(d, br, Past(d, id), c, SeqAt(vec, c), NumAt(times, c));
    forall b | b in bi.byCreator[c]
      ensures b == c
    {
    }
    assert c in bi.byCreator[c];
    BranchTopIsTop(t, n, bi, id, c, SeqAt(vec, c), NumAt(times, c));
  }

  lemma OneBranchEach(t: Tables, n: nat, bi: Branches, id: EventId)
    requires Faithful(t, n, bi) && id in t.events && !bi.AtLeastOneFork(n)
    ensures id in t.times
    ensures forall c: nat :: c < n ==>
      TopOk(t.events, id, c, SeqAt(t.highest[id], c), NumAt(t.times[id], c)) && !ForkSeen(t.events, id, c)
  {
    Unfold(t, n, bi);
    forall c: nat | c < n
      ensures TopOk(t.events, id, c, SeqAt(t.highest[id], c), NumAt(t.times[id], c)) && !ForkSeen(t.events, id, c)
    {
      OneBranchIsTop(t, n, bi, id, c);
    }
  }

  /** GetHighestBeforeAllBranches: one entry per validator. */
  method AllBranches(n: nat, bi: Branches, t: Tables, id: EventId) returns (vec: seq<BranchSeq>, times: seq<nat>)
    requires Faithful(t, n, bi) && id in t.events
    ensures forall c: nat :: c < n ==> TopOk(t.events, id, c, SeqAt(vec, c), NumAt(times, c))
    ensures forall c: nat :: c < n && ForkSeen(t.events, id, c) ==> NumAt(times, c) == 0
  {
    if !bi.AtLeastOneFork(n) {
      OneBranchEach(t, n, bi, id);
      return t.highest[id], t.times[id];
    }
    vec, times := [], [];
    for c := 0 to n
      invariant |vec| == |times| == c
      invariant forall k: nat :: k < c ==> TopOk(t.events, id, k, vec[k], times[k])
      invariant forall k: nat :: k < c && ForkSeen(t.events, id, k) ==> times[k] == 0
    {
      var entry, time := TopOf(n, bi, t, id, c);
      vec, times := vec + [entry], times + [time];
    }
  }
}

/** The stake-weighted median of claimed times (vector/median_time.go). */
module Median {
  import opened Dag
  import opened Stakes
  import opened Vectors
  import opened VectorSpec
  import opened VectorIndex
  import opened VectorQuery
  import opened Sorting

  /** A validator's stake and the time it counts with. */
  datatype Weighted = Weighted(stake: nat, time: nat)

  ghost function Stake(): Weighted -> nat {
    (x: Weighted) => x.stake
  }

  ghost function UpTo(t: nat): Weighted -> nat {
    (x: Weighted) => if x.time <= t then x.stake else 0
  }

  ghost function TimeBefore(t: nat): Weighted -> nat {
    (x: Weighted) => if x.time < t then x.stake else 0
  }

  ghost function From(t: nat): Weighted -> nat {
    (x: Weighted) => if x.time >= t then x.stake else 0
  }

  ghost function OutOf(lo: nat, hi: nat): Weighted -> nat {
    (x: Weighted) => if x.time < lo || hi < x.time then x.stake else 0
  }

  /** `m` is the earliest counted time at which half of the stake is reached. */
  ghost predicate IsMedian(s: seq<Weighted>, m: nat) {
    && (exists x :: x in s && x.time == m)
    && Sum(s, UpTo(m)) >= Sum(s, Stake()) / 2
    && (Sum(s, TimeBefore(m)) < Sum(s, Stake()) / 2 || forall x :: x in s ==> m <= x.time)
  }

  /** There is one median, whatever the order of the entries. */
  lemma MedianIsUnique(a: seq<Weighted>, b: seq<Weighted>, m: nat, m': nat)
    requires multiset(a) == multiset(b) && IsMedian(a, m) && IsMedian(b, m')
    ensures m == m'
  {
    MedianOfPermutation(a, b, m');
    if m < m' {
      SumMonotone(a, UpTo(m), TimeBefore(m'));
    } else if m' < m {
      SumMonotone(a, UpTo(m'), TimeBefore(m));
    }
  }

  lemma MedianOfPermutation(a: seq<Weighted>, b: seq<Weighted>, m: nat)
    requires multiset(a) == multiset(b) && IsMedian(b, m)
    ensures IsMedian(a, m)
  {
    SumOfPermutation(a, b, Stake());
    SumOfPermutation(a, b, UpTo(m));
    SumOfPermutation(a, b, TimeBefore(m));
    assert forall x :: x in a <==> x in multiset(a);
    assert forall x :: x in b <==> x in multiset(b);
    assert forall x :: x in a <==> x in b;
  }

  lemma {:induction false} SplitAt(s: seq<Weighted>, t: nat)
    ensures Sum(s, TimeBefore(t)) + Sum(s, From(t)) == Sum(s, Stake())
  {
    if s != [] {
      SplitAt(s[1..], t);
    }
  }

  /** As long as the times outside an interval hold less than half of the counted stake, the median is inside. */
  lemma MedianIsBounded(s: seq<Weighted>, m: nat, lo: nat, hi: nat)
    requires IsMedian(s, m) && Sum(s, Stake()) >= 2 && Sum(s, OutOf(lo, hi)) < Sum(s, Stake()) / 2
    ensures lo <= m <= hi
  {
    var out := OutOf(lo, hi);
    if m < lo {
      SumMonotone(s, UpTo(m), out);
    } else if hi < m {
      SplitAt(s, m);
      SumMonotone(s, From(m), out);
      if forall x :: x in s ==> m <= x.time {
        SumMonotone(s, Stake(), From(m));
      }
    }
  }

  /** Walks the entries by time until half of the stake is reached; the walk always gets there. */
  method WeightedMedian(entries: seq<Weighted>) returns (median: nat, sane: bool)
    requires entries != []
    ensures IsMedian(entries, median)
    ensures sane
  {
    var le := (x: Weighted, y: Weighted) => x.time <= y.time;
    var sorted := Sort(entries, le);
    var total := 0;
    ghost var stake := Stake();
    for i := 0 to |entries|
      invariant total == Sum(entries[..i], stake)
    {
      assert entries[..i + 1] == entries[..i] + [entries[i]];
      SumAppend(entries[..i], [entries[i]], stake);
      total := total + entries[i].stake;
    }
    assert entries[..|entries|] == entries;
    SumOfPermutation(entries, sorted, stake);
    var half := total / 2;
    var curr := 0;
    median := 0;
    assert |sorted| == |multiset(sorted)| == |multiset(entries)|;
    var i, found := 0, false;
    while i < |sorted| && !found
      invariant 0 <= i <= |sorted| && (!found ==> i < |sorted|)
      invariant curr == Sum(sorted[..i], stake) && curr <= total
      invariant !found && i > 0 ==> curr < half
      invariant found ==> curr >= half && IsMedian(sorted, median)
      decreases |sorted| - i
    {
      RunningSum(sorted, i);
      curr := curr + sorted[i].stake;
      if curr >= half {
        median := sorted[i].time;
        PrefixReachesHalf(sorted, i, half);
        found := true;
      }
      i := i + 1;
    }
    MedianOfPermutation(entries, sorted, median);
    sane := !(curr < half || curr > total);
  }

  lemma RunningSum(s: seq<Weighted>, i: nat)
    requires i < |s|
    ensures Sum(s[..i + 1], Stake()) == Sum(s[..i], Stake()) + s[i].stake <= Sum(s, Stake())
    ensures i + 1 == |s| ==> Sum(s[..i + 1], Stake()) == Sum(s, Stake())
  {
    assert s[..i + 1] == s[..i] + [s[i]];
    SumAppend(s[..i], [s[i]], Stake());
    SumAppend(s[..i + 1], s[i + 1..], Stake());
    assert s == s[..i + 1] + s[i + 1..];
  }

  /** In sorted order, the entry at which the running sum reaches half is the median. */
  lemma PrefixReachesHalf(s: seq<Weighted>, i: nat, half: nat)
    requires i < |s| && half == Sum(s, Stake()) / 2
    requires SortedBy(s, (x: Weighted, y: Weighted) => x.time <= y.time)
    requires Sum(s[..i + 1], Stake()) >= half
    requires i > 0 ==> Sum(s[..i], Stake()) < half
    ensures IsMedian(s, s[i].time)
  {
    var m := s[i].time;
    PrefixIsUpTo(s, i);
    PrefixIsBefore(s, i);
    assert s[i] in s;
    if i == 0 {
      assert forall x :: x in s ==> m <= x.time;
    }
  }

  lemma PrefixIsUpTo(s: seq<Weighted>, i: nat)
    requires i < |s| && SortedBy(s, (x: Weighted, y: Weighted) => x.time <= y.time)
    ensures Sum(s, UpTo(s[i].time)) >= Sum(s[..i + 1], Stake())
  {
    var atMost := UpTo(s[i].time);
    assert s == s[..i + 1] + s[i + 1..];
    SumAppend(s[..i + 1], s[i + 1..], atMost);
    SumMonotone(s[..i + 1], Stake(), atMost);
  }

  lemma PrefixIsBefore(s: seq<Weighted>, i: nat)
    requires i < |s| && SortedBy(s, (x: Weighted, y: Weighted) => x.time <= y.time)
    ensures Sum(s, TimeBefore(s[i].time)) <= Sum(s[..i], Stake())
  {
    var below := TimeBefore(s[i].time);
    assert s == s[..i] + s[i..];
    SumAppend(s[..i], s[i..], below);
    SumMonotone(s[..i], below, Stake());
    SumZero(s[i..], below);
  }

  lemma {:induction false} SumZero(s: seq<Weighted>, w: Weighted -> nat)
    requires forall x :: x in s ==> w(x) == 0
    ensures Sum(s, w) == 0
  {
    if s != [] {
      SumZero(s[1..], w);
    }
  }

  // ---------------------------------------------------------------- the median time of an event

  /** `x` is the highest event of validator `c` that `id` sees. */
  ghost predicate IsTop(d: Graph, id: EventId, c: nat, x: EventId) {
    && x in d && Sees(d, id, x) && d[x].creator == c
    && forall y :: y in d && Sees(d, id, y) && d[y].creator == c ==> d[y].seqNum <= d[x].seqNum
  }

  /** The claimed time of the highest event seen of `c`, or the genesis time when none was seen. */
  ghost function CountedTime(d: Graph, id: EventId, c: nat, genesis: nat): nat {
    if exists x :: IsTop(d, id, c, x) then
      var x :| IsTop(d, id, c, x);
      d[x].claimedTime
    else genesis
  }

  ghost function EntryOf(d: Graph, stakes: seq<nat>, id: EventId, genesis: nat, c: nat): Weighted
    requires c < |stakes|
  {
    if ForkSeen(d, id, c) then Weighted(0, 0) else Weighted(stakes[c], CountedTime(d, id, c, genesis))
  }

  /** What counts for the median time of `id`: cheaters hold nothing, silent validators count with the genesis time. */
  ghost function Entries(d: Graph, stakes: seq<nat>, id: EventId, genesis: nat): seq<Weighted> {
    seq(|stakes|, c requires 0 <= c < |stakes| => EntryOf(d, stakes, id, genesis, c))
  }

  lemma TopIsUnique(d: Graph, id: EventId, c: nat, x: EventId, y: EventId)
    requires IsTop(d, id, c, x) && IsTop(d, id, c, y) && !ForkSeen(d, id, c)
    ensures x == y
  {
    assert IsFork(d, x, y, c) || x == y;
  }

  lemma TopIsCounted(d: Graph, stakes: seq<nat>, id: EventId, genesis: nat, c: nat, entry: BranchSeq, time: nat)
    requires c < |stakes| && TopOk(d, id, c, entry, time)
    requires ForkSeen(d, id, c) ==> time == 0
    ensures EntryOf(d, stakes, id, genesis, c)
         == Weighted(if entry == FORK then 0 else stakes[c], if entry != FORK && entry.hi == 0 then genesis else time)
  {
    if !ForkSeen(d, id, c) && entry.hi != 0 {
      var x :| x in d && Sees(d, id, x) && d[x].creator == c && d[x].seqNum == entry.hi && d[x].claimedTime == time;
      assert IsTop(d, id, c, x);
      var y :| IsTop(d, id, c, y) && CountedTime(d, id, c, genesis) == d[y].claimedTime;
      TopIsUnique(d, id, c, x, y);
    }
  }

  method MedianTime(stakes: seq<nat>, bi: Branches, t: Tables, id: EventId, genesis: nat) returns (median: nat)
    requires Faithful(t, |stakes|, bi) && id in t.events
    ensures IsMedian(Entries(t.events, stakes, id, genesis), median)
  {
    var n := |stakes|;
    var vec, times := AllBranches(n, bi, t, id);
    var entries: seq<Weighted> := [];
    for c := 0 to n
      invariant |entries| == c
      invariant forall k :: 0 <= k < c ==> entries[k] == EntryOf(t.events, stakes, id, genesis, k)
    {
      var stake, time := stakes[c], NumAt(times, c);
      var top := SeqAt(vec, c);
      TopIsCounted(t.events, stakes, id, genesis, c, top, time);
      if top == FORK {
        stake := 0;
      } else if top.hi == 0 {
        time := genesis;
      }
      entries := entries + [Weighted(stake, time)];
    }
    assert entries == Entries(t.events, stakes, id, genesis);
    assert Linked(t.events, t.events[id]);
    var sane;
    median, sane := WeightedMedian(entries);
  }

  /** Validator `c` counts with a time in the interval: its last event seen claims one, or none was seen and the genesis
      time is in it. */
  ghost predicate CountsWithin(d: Graph, id: EventId, c: nat, genesis: nat, lo: nat, hi: nat) {
    if exists x :: x in d && Sees(d, id, x) && d[x].creator == c
    then forall x :: IsTop(d, id, c, x) ==> lo <= d[x].claimedTime <= hi
    else lo <= genesis <= hi
  }

  /** The validators that the event has not seen forking. */
  ghost function Unforked(d: Graph, n: nat, id: EventId): set<nat> {
    set c: nat | c < n && !ForkSeen(d, id, c)
  }

  lemma {:induction false} SumIsStake(stakes: seq<nat>, s: seq<Weighted>, w: Weighted -> nat, who: set<nat>, k: nat)
    requires |s| == |stakes| && k <= |s|
    requires forall c: nat :: c < |s| ==> w(s[c]) == if c in who then stakes[c] else 0
    ensures Sum(s[..k], w) == StakeUpTo(stakes, who, k)
  {
    if k > 0 {
      SumIsStake(stakes, s, w, who, k - 1);
      assert s[..k] == s[..k - 1] + [s[k - 1]];
      SumAppend(s[..k - 1], [s[k - 1]], w);
    }
  }

  lemma EntryWithin(d: Graph, stakes: seq<nat>, id: EventId, genesis: nat, c: nat, lo: nat, hi: nat)
    requires c < |stakes| && !ForkSeen(d, id, c) && CountsWithin(d, id, c, genesis, lo, hi)
    ensures lo <= EntryOf(d, stakes, id, genesis, c).time <= hi
  {
    if exists x :: IsTop(d, id, c, x) {
      var x :| IsTop(d, id, c, x) && CountedTime(d, id, c, genesis) == d[x].claimedTime;
    } else if exists x :: x in d && Sees(d, id, x) && d[x].creator == c {
      var x :| x in d && Sees(d, id, x) && d[x].creator == c;
      HighestIsTop(d, id, c, x);
      assert false;
    }
  }

  lemma {:induction false} HighestIsTop(d: Graph, id: EventId, c: nat, x: EventId)
    requires x in d && Sees(d, id, x) && d[x].creator == c
    ensures exists y :: IsTop(d, id, c, y)
    decreases set y | y in d && Sees(d, id, y) && d[y].creator == c && d[y].seqNum > d[x].seqNum
  {
    if !IsTop(d, id, c, x) {
      var y :| y in d && Sees(d, id, y) && d[y].creator == c && d[y].seqNum > d[x].seqNum;
      var above := set z | z in d && Sees(d, id, z) && d[z].creator == c && d[z].seqNum > d[x].seqNum;
      assert y in above;
      HighestIsTop(d, id, c, y);
    }
  }

  /** Few liars cannot move the median time of an event: if all validators that it has not seen forking, but for some
      with less than half of their stake, count with a time in an interval, the median is in it. */
  lemma MedianWithin(d: Graph, stakes: seq<nat>, id: EventId, genesis: nat, m: nat, lo: nat, hi: nat, liars: set<nat>)
    requires IsMedian(Entries(d, stakes, id, genesis), m)
    requires StakeOf(stakes, Unforked(d, |stakes|, id)) >= 2
    requires StakeOf(stakes, liars) < StakeOf(stakes, Unforked(d, |stakes|, id)) / 2
    requires forall c: nat :: c < |stakes| && c !in liars && !ForkSeen(d, id, c) ==>
      CountsWithin(d, id, c, genesis, lo, hi)
    ensures lo <= m <= hi
  {
    var s, n := Entries(d, stakes, id, genesis), |stakes|;
    var honest := Unforked(d, n, id);
    SumIsStake(stakes, s, Stake(), honest, n);
    var out := set c: nat | c < n && !ForkSeen(d, id, c) && (s[c].time < lo || hi < s[c].time);
    SumIsStake(stakes, s, OutOf(lo, hi), out, n);
    assert s[..n] == s;
    forall c: nat | c in out
      ensures c in liars
    {
      if c !in liars {
        EntryWithin(d, stakes, id, genesis, c, lo, hi);
        assert false;
      }
    }
    StakeMonotone(stakes, out, liars, n);
    MedianIsBounded(s, m, lo, hi);
  }

  /** The median time of an event does not depend on what else a node knows. */
  lemma EntriesStable(small: Graph, big: Graph, stakes: seq<nat>, id: EventId, genesis: nat)
    requires Extends(small, big) && WellFormed(small, |stakes|) && id in small
    ensures Entries(small, stakes, id, genesis) == Entries(big, stakes, id, genesis)
  {
    forall c: nat | c < |stakes|
      ensures EntryOf(small, stakes, id, genesis, c) == EntryOf(big, stakes, id, genesis, c)
    {
      EntryStable(small, big, stakes, id, genesis, c);
    }
  }

  lemma TopStable(small: Graph, big: Graph, n: nat, id: EventId, c: nat, x: EventId)
    requires Extends(small, big) && WellFormed(small, n) && id in small
    ensures IsTop(small, id, c, x) <==> IsTop(big, id, c, x)
  {
    forall y
      ensures Sees(small, id, y) <==> Sees(big, id, y)
      ensures Sees(small, id, y) ==> y in small
    {
      SeesStable(small, big, n, id, y);
      if Sees(small, id, y) {
        SeesInside(small, id, y);
      }
    }
  }

  lemma EntryStable(small: Graph, big: Graph, stakes: seq<nat>, id: EventId, genesis: nat, c: nat)
    requires Extends(small, big) && WellFormed(small, |stakes|) && id in small && c < |stakes|
    ensures EntryOf(small, stakes, id, genesis, c) == EntryOf(big, stakes, id, genesis, c)
  {
    var n := |stakes|;
    ForkSeenStable(small, big, n, id, c);
    forall x
      ensures IsTop(small, id, c, x) <==> IsTop(big, id, c, x)
    {
      TopStable(small, big, n, id, c, x);
    }
    if !ForkSeen(small, id, c) && exists x :: IsTop(small, id, c, x) {
      var x :| IsTop(small, id, c, x) && CountedTime(small, id, c, genesis) == small[x].claimedTime;
      var y :| IsTop(big, id, c, y) && CountedTime(big, id, c, genesis) == big[y].claimedTime;
      TopIsUnique(small, id, c, x, y);
    }
  }
}

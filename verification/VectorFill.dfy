/** The loops that compute the vectors of a new event (vector/index.go, vector/traversal.go). */
module VectorFill {
  import opened Dag
  import opened Vectors
  import opened VectorSpec

  // ---------------------------------------------------------------- HighestBefore

  /** Entry `b` after merging: marked for the creators in `forks`, else the exact span within `s`. */
  ghost predicate EntryOk(d: Graph, bi: Branches, br: map<EventId, nat>, s: set<EventId>, forks: set<nat>,
      vec: seq<BranchSeq>, times: seq<nat>, b: nat)
    requires b < |bi.creators|
  {
    if bi.creators[b] in forks then Marked(vec, b)
    else !Marked(vec, b) && SpanOk(d, br, s, b, SeqAt(vec, b), NumAt(times, b))
  }

  ghost predicate Merged(d: Graph, bi: Branches, br: map<EventId, nat>, s: set<EventId>, forks: set<nat>,
      vec: seq<BranchSeq>, times: seq<nat>) {
    && |vec| <= |bi.creators| && |times| <= |bi.creators|
    && s <= d.Keys
    && forall b: nat :: b < |bi.creators| ==> EntryOk(d, bi, br, s, forks, vec, times, b)
  }

  ghost function ForksSeen(d: Graph, n: nat, e: EventId): set<nat> {
    set c: nat | c < n && ForkSeen(d, e, c)
  }

  ghost function ForksBelow(d: Graph, n: nat, e: EventId, j: nat): set<nat> {
    set c: nat | c < n && c < j && ForkSeen(d, e, c)
  }

  /** Entry `b` while the branches below `j` have been merged with those of a parent. */
  ghost predicate EntryMid(d: Graph, bi: Branches, br: map<EventId, nat>, s: set<EventId>, t: set<EventId>, j: nat,
      forks: set<nat>, vec: seq<BranchSeq>, times: seq<nat>, b: nat)
    requires b < |bi.creators|
  {
    EntryOk(d, bi, br, if b < j then s + t else s, forks, vec, times, b)
  }

  /** Marks every branch of the creator of `branch`. */
  method SetForkDetected(bi: Branches, n: nat, vec: seq<BranchSeq>, branch: nat) returns (res: seq<BranchSeq>)
    requires bi.Consistent(n) && branch < |bi.creators|
    ensures forall b: nat ::
      SeqAt(res, b) == if b < |bi.creators| && bi.creators[b] == bi.creators[branch] then FORK else SeqAt(vec, b)
    ensures |vec| <= |bi.creators| ==> |res| <= |bi.creators|
  {
    var creator := bi.creators[branch];
    var list := bi.byCreator[creator];
    res := vec;
    for i := 0 to |list|
      invariant forall b: nat :: SeqAt(res, b) == if b in list[..i] then FORK else SeqAt(vec, b)
      invariant |vec| <= |bi.creators| ==> |res| <= |bi.creators|
    {
      assert list[i] in bi.byCreator[creator];
      res := Put(res, list[i], FORK, NOTHING);
      assert list[..i + 1] == list[..i] + [list[i]];
    }
    assert list[..|list|] == list;
  }

  ghost predicate AllMid(d: Graph, bi: Branches, br: map<EventId, nat>, s: set<EventId>, t: set<EventId>, j: nat,
      forks: set<nat>, vec: seq<BranchSeq>, times: seq<nat>)
  {
    && |vec| <= |bi.creators| && |times| <= |bi.creators|
    && s <= d.Keys && t <= d.Keys
    && forall b: nat {:trigger EntryMid(d, bi, br, s, t, j, forks, vec, times, b)} ::
         b < |bi.creators| ==> EntryMid(d, bi, br, s, t, j, forks, vec, times, b)
  }

  /** Only entry `j` was touched, and it is merged now. */
  lemma MidOneEntry(d: Graph, bi: Branches, br: map<EventId, nat>, s: set<EventId>, t: set<EventId>, j: nat,
      forks: set<nat>, vec: seq<BranchSeq>, times: seq<nat>, vec': seq<BranchSeq>, times': seq<nat>)
    requires AllMid(d, bi, br, s, t, j, forks, vec, times) && j < |bi.creators|
    requires |vec'| <= |bi.creators| && |times'| <= |bi.creators|
    requires forall b: nat :: b != j ==> SeqAt(vec', b) == SeqAt(vec, b) && NumAt(times', b) == NumAt(times, b)
    requires EntryOk(d, bi, br, s + t, forks, vec', times', j)
    ensures AllMid(d, bi, br, s, t, j + 1, forks, vec', times')
  {
    var k := j + 1;
    forall b: nat | b < |bi.creators|
      ensures EntryMid(d, bi, br, s, t, k, forks, vec', times', b)
    {
      assert EntryMid(d, bi, br, s, t, j, forks, vec, times, b);
    }
  }

  /** Every entry of creator `j` was marked. */
  lemma MidMarked(d: Graph, bi: Branches, br: map<EventId, nat>, s: set<EventId>, t: set<EventId>, j: nat,
      forks: set<nat>, vec: seq<BranchSeq>, times: seq<nat>, vec': seq<BranchSeq>)
    requires AllMid(d, bi, br, s, t, j, forks, vec, times) && j < |bi.creators| && bi.creators[j] == j
    requires |vec'| <= |bi.creators|
    requires forall b: nat :: SeqAt(vec', b) == if b < |bi.creators| && bi.creators[b] == j then FORK else SeqAt(vec, b)
    ensures AllMid(d, bi, br, s, t, j + 1, forks + {j}, vec', times)
  {
    var k, marked := j + 1, forks + {j};
    forall b: nat | b < |bi.creators|
      ensures EntryMid(d, bi, br, s, t, k, marked, vec', times, b)
    {
      assert EntryMid(d, bi, br, s, t, j, forks, vec, times, b);
    }
  }

  /** The merge of one branch; `seen` tells whether the parent saw a fork of the branch's creator. */
  method MergeBranch(ghost d: Graph, n: nat, bi: Branches, ghost br: map<EventId, nat>, ghost s: set<EventId>,
      ghost t: set<EventId>, j: nat, ghost forks: set<nat>, vec: seq<BranchSeq>, times: seq<nat>,
      theirVec: seq<BranchSeq>, theirTimes: seq<nat>)
    returns (newVec: seq<BranchSeq>, newTimes: seq<nat>)
    requires bi.Consistent(n) && j < |bi.creators| && AllMid(d, bi, br, s, t, j, forks, vec, times)
    requires !Marked(theirVec, j) ==> SpanOk(d, br, t, j, SeqAt(theirVec, j), NumAt(theirTimes, j))
    requires Marked(theirVec, j) && bi.creators[j] !in forks ==> bi.creators[j] == j
    ensures var forks' := if Marked(theirVec, j) && bi.creators[j] == j then forks + {j} else forks;
      AllMid(d, bi, br, s, t, j + 1, forks', newVec, newTimes)
  {
    newVec, newTimes := vec, times;
    var their := SeqAt(theirVec, j);
    var mine := SeqAt(vec, j);
    assert EntryMid(d, bi, br, s, t, j, forks, vec, times, j);
    if their.hi == 0 && their != FORK {
      assert their == NOTHING;
      if bi.creators[j] !in forks {
        SpanUnionNothing(d, br, s, t, j, mine, NumAt(times, j), NumAt(theirTimes, j));
      }
      MidOneEntry(d, bi, br, s, t, j, forks, vec, times, newVec, newTimes);
    } else if mine == FORK {
      assert Marked(theirVec, j) && bi.creators[j] == j ==> forks + {j} == forks;
      MidOneEntry(d, bi, br, s, t, j, forks, vec, times, newVec, newTimes);
    } else if their == FORK {
      newVec := SetForkDetected(bi, n, newVec, j);
      MidMarked(d, bi, br, s, t, j, forks, vec, times, newVec);
    } else {
      SpanUnion(d, br, s, t, j, mine, NumAt(times, j), their, NumAt(theirTimes, j));
      if mine.hi == 0 || mine.lo > their.lo {
        mine := mine.(lo := their.lo);
        newVec := Put(newVec, j, mine, NOTHING);
      }
      if mine.hi < their.hi {
        mine := mine.(hi := their.hi);
        newVec := Put(newVec, j, mine, NOTHING);
        newTimes := Put(newTimes, j, NumAt(theirTimes, j), 0);
      }
      assert SeqAt(newVec, j) == MergeSpan(SeqAt(vec, j), their);
      MidOneEntry(d, bi, br, s, t, j, forks, vec, times, newVec, newTimes);
    }
  }

  /** One parent's contribution to the HighestBefore vectors of its child. */
  method MergeParent(ghost d: Graph, n: nat, bi: Branches, ghost br: map<EventId, nat>, ghost s: set<EventId>,
      ghost forks: set<nat>, vec: seq<BranchSeq>, times: seq<nat>, ghost p: EventId, theirVec: seq<BranchSeq>,
      theirTimes: seq<nat>)
    returns (newVec: seq<BranchSeq>, newTimes: seq<nat>)
    requires bi.Consistent(n) && Merged(d, bi, br, s, forks, vec, times)
    requires HighestOk(d, n, bi, br, p, theirVec, theirTimes)
    ensures Merged(d, bi, br, s + Past(d, p), forks + ForksSeen(d, n, p), newVec, newTimes)
  {
    newVec, newTimes := vec, times;
    ghost var t := Past(d, p);
    assert forks + ForksBelow(d, n, p, 0) == forks;
    forall b: nat | b < |bi.creators|
      ensures EntryMid(d, bi, br, s, t, 0, forks, newVec, newTimes, b)
    {
      assert EntryOk(d, bi, br, s, forks, vec, times, b);
    }
    for j := 0 to |bi.creators|
      invariant AllMid(d, bi, br, s, t, j, forks + ForksBelow(d, n, p, j), newVec, newTimes)
    {
      ghost var was := forks + ForksBelow(d, n, p, j);
      TheirBranch(d, n, bi, br, forks, p, theirVec, theirTimes, j);
      newVec, newTimes := MergeBranch(d, n, bi, br, s, t, j, was, newVec, newTimes, theirVec, theirTimes);
      BelowStep(d, n, bi, br, p, theirVec, theirTimes, j);
      assert forks + ForksBelow(d, n, p, j + 1) ==
        if Marked(theirVec, j) && bi.creators[j] == j then was + {j} else was;
    }
    assert ForksBelow(d, n, p, |bi.creators|) == ForksSeen(d, n, p);
    forall b: nat | b < |bi.creators|
      ensures EntryOk(d, bi, br, s + t, forks + ForksSeen(d, n, p), newVec, newTimes, b)
    {
      assert EntryMid(d, bi, br, s, t, |bi.creators|, forks + ForksSeen(d, n, p), newVec, newTimes, b);
    }
  }

  lemma TheirBranch(d: Graph, n: nat, bi: Branches, br: map<EventId, nat>, forks: set<nat>, p: EventId,
      theirVec: seq<BranchSeq>, theirTimes: seq<nat>, j: nat)
    requires bi.Consistent(n) && HighestOk(d, n, bi, br, p, theirVec, theirTimes) && j < |bi.creators|
    ensures !Marked(theirVec, j) ==> SpanOk(d, br, Past(d, p), j, SeqAt(theirVec, j), NumAt(theirTimes, j))
    ensures Marked(theirVec, j) ==> ForkSeen(d, p, bi.creators[j])
    ensures Marked(theirVec, j) && bi.creators[j] !in forks + ForksBelow(d, n, p, j) ==> bi.creators[j] == j
  {
    assert bi.creators[j] == j <==> j < n;
  }

  lemma BelowStep(d: Graph, n: nat, bi: Branches, br: map<EventId, nat>, p: EventId, theirVec: seq<BranchSeq>,
      theirTimes: seq<nat>, j: nat)
    requires bi.Consistent(n) && HighestOk(d, n, bi, br, p, theirVec, theirTimes) && j < |bi.creators|
    ensures ForksBelow(d, n, p, j + 1) ==
      if Marked(theirVec, j) && bi.creators[j] == j then ForksBelow(d, n, p, j) + {j} else ForksBelow(d, n, p, j)
  {
    assert j < n ==> (ForkSeen(d, p, j) <==> Marked(theirVec, j));
    assert bi.creators[j] == j <==> j < n;
  }

  /** Do two branches of `c` overlap? */
  method HasOverlap(bi: Branches, n: nat, vec: seq<BranchSeq>, c: nat) returns (found: bool)
    requires bi.Consistent(n) && c < n
    ensures found <==> exists b1, b2 ::
      b1 in bi.byCreator[c] && b2 in bi.byCreator[c] && b1 != b2 && Overlap(SeqAt(vec, b1), SeqAt(vec, b2))
  {
    var list := bi.byCreator[c];
    for i := 0 to |list|
      invariant forall k, l :: 0 <= k < i && 0 <= l < |list| && list[k] != list[l] ==>
        !Overlap(SeqAt(vec, list[k]), SeqAt(vec, list[l]))
    {
      for j := 0 to |list|
        invariant forall l :: 0 <= l < j && list[i] != list[l] ==> !Overlap(SeqAt(vec, list[i]), SeqAt(vec, list[l]))
      {
        if list[i] != list[j] {
          var a, b := SeqAt(vec, list[i]), SeqAt(vec, list[j]);
          if a.hi == 0 || b.hi == 0 {
            continue;
          }
          if a.lo <= b.hi && b.lo <= a.hi {
            assert list[i] in list && list[j] in list;
            return true;
          }
        }
      }
    }
    return false;
  }

  /** A creator none of whose branches is marked yet: is there a fork? If so all its branches get the mark. */
  method DetectFork(ghost d: Graph, n: nat, bi: Branches, ghost br: map<EventId, nat>, ghost e: EventId,
      ghost forks: set<nat>, vec: seq<BranchSeq>, ghost times: seq<nat>, c: nat)
    returns (res: seq<BranchSeq>)
    requires WellFormed(d, n) && Branched(d, n, bi, br) && c < n && c !in forks
    requires Merged(d, bi, br, Past(d, e), forks, vec, times)
    ensures Merged(d, bi, br, Past(d, e), if ForkSeen(d, e, c) then forks + {c} else forks, res, times)
  {
    res := vec;
    var overlap := HasOverlap(bi, n, vec, c);
    forall b: nat | b < |bi.creators| && bi.creators[b] == c
      ensures SpanOk(d, br, Past(d, e), b, SeqAt(vec, b), NumAt(times, b))
    {
      assert EntryOk(d, bi, br, Past(d, e), forks, vec, times, b);
    }
    if overlap {
      ghost var b1, b2 :| b1 in bi.byCreator[c] && b2 in bi.byCreator[c] && b1 != b2 && Overlap(SeqAt(vec, b1),
          SeqAt(vec, b2));
      OverlapIsFork(d, n, bi, br, e, b1, SeqAt(vec, b1), NumAt(times, b1), b2, SeqAt(vec, b2), NumAt(times, b2));
      res := SetForkDetected(bi, n, res, c);
      MergedMarked(d, bi, br, Past(d, e), forks, vec, times, res, c);
    } else if ForkSeen(d, e, c) {
      ghost var b1, b2 := ForkIsOverlap(d, n, bi, br, e, vec, times, c);
      assert false;
    }
  }

  lemma MergedMarked(d: Graph, bi: Branches, br: map<EventId, nat>, s: set<EventId>, forks: set<nat>,
      vec: seq<BranchSeq>, times: seq<nat>, vec': seq<BranchSeq>, c: nat)
    requires Merged(d, bi, br, s, forks, vec, times) && |vec'| <= |bi.creators|
    requires forall b: nat :: SeqAt(vec', b) == if b < |bi.creators| && bi.creators[b] == c then FORK else SeqAt(vec, b)
    ensures Merged(d, bi, br, s, forks + {c}, vec', times)
  {
    forall b: nat | b < |bi.creators|
      ensures EntryOk(d, bi, br, s, forks + {c}, vec', times, b)
    {
      assert EntryOk(d, bi, br, s, forks, vec, times, b);
    }
  }

  lemma ForksBelowNext(d: Graph, n: nat, e: EventId, forks: set<nat>, c: nat)
    requires c < n
    ensures forks + ForksBelow(d, n, e, c + 1)
         == if ForkSeen(d, e, c) then forks + ForksBelow(d, n, e, c) + {c} else forks + ForksBelow(d, n, e, c)
  {
  }

  lemma ForksBelowAll(d: Graph, n: nat, e: EventId, forks: set<nat>)
    requires forks <= ForksSeen(d, n, e)
    ensures forks + ForksBelow(d, n, e, n) == ForksSeen(d, n, e)
  {
    assert ForksBelow(d, n, e, n) == ForksSeen(d, n, e);
  }

  lemma MarkedIsIn(d: Graph, n: nat, bi: Branches, br: map<EventId, nat>, s: set<EventId>, forks: set<nat>,
      vec: seq<BranchSeq>, times: seq<nat>, c: nat)
    requires bi.Consistent(n) && c < n && Merged(d, bi, br, s, forks, vec, times)
    ensures SeqAt(vec, c) == FORK <==> c in forks
    ensures c in forks ==> forks + {c} == forks
  {
    assert EntryOk(d, bi, br, s, forks, vec, times, c);
  }

  /** Detects the forks that no single parent saw; the result is the exact HighestBefore of `e`. */
  method DetectForks(ghost d: Graph, n: nat, bi: Branches, ghost br: map<EventId, nat>, ghost e: EventId,
      ghost forks: set<nat>, vec: seq<BranchSeq>, ghost times: seq<nat>)
    returns (res: seq<BranchSeq>)
    requires WellFormed(d, n) && Branched(d, n, bi, br) && e in d
    requires Merged(d, bi, br, Past(d, e), forks, vec, times) && forks <= ForksSeen(d, n, e)
    ensures HighestOk(d, n, bi, br, e, res, times)
  {
    res := vec;
    assert forks + ForksBelow(d, n, e, 0) == forks;
    for c := 0 to n
      invariant Merged(d, bi, br, Past(d, e), forks + ForksBelow(d, n, e, c), res, times)
    {
      ghost var was := forks + ForksBelow(d, n, e, c);
      ForksBelowNext(d, n, e, forks, c);
      MarkedIsIn(d, n, bi, br, Past(d, e), was, res, times, c);
      if SeqAt(res, c) == FORK {
        continue;
      }
      res := DetectFork(d, n, bi, br, e, was, res, times, c);
    }
    ForksBelowAll(d, n, e, forks);
    MergedIsHighest(d, n, bi, br, e, res, times);
  }

  lemma MergedIsHighest(d: Graph, n: nat, bi: Branches, br: map<EventId, nat>, e: EventId, vec: seq<BranchSeq>,
      times: seq<nat>)
    requires Branched(d, n, bi, br) && Merged(d, bi, br, Past(d, e), ForksSeen(d, n, e), vec, times)
    ensures HighestOk(d, n, bi, br, e, vec, times)
  {
    forall b: nat | b < |bi.creators|
      ensures if ForkSeen(d, e, bi.creators[b]) then Marked(vec, b)
              else !Marked(vec, b) && SpanOk(d, br, Past(d, e), b, SeqAt(vec, b), NumAt(times, b))
    {
      EntryIsHighest(d, n, bi, br, e, vec, times, b);
    }
    forall x | x in d && x in br && Sees(d, e, x) && ForkSeen(d, e, d[x].creator)
      ensures Marked(vec, br[x])
    {
      assert br[x] < |bi.creators|;
    }
  }

  lemma EntryIsHighest(d: Graph, n: nat, bi: Branches, br: map<EventId, nat>, e: EventId, vec: seq<BranchSeq>,
      times: seq<nat>, b: nat)
    requires Branched(d, n, bi, br) && Merged(d, bi, br, Past(d, e), ForksSeen(d, n, e), vec, times)
    requires b < |bi.creators|
    ensures if ForkSeen(d, e, bi.creators[b]) then Marked(vec, b)
            else !Marked(vec, b) && SpanOk(d, br, Past(d, e), b, SeqAt(vec, b), NumAt(times, b))
  {
    assert EntryOk(d, bi, br, Past(d, e), ForksSeen(d, n, e), vec, times, b);
  }

  // ---------------------------------------------------------------- LowestAfter

  ghost predicate AllLowestOk(d: Graph, bi: Branches, br: map<EventId, nat>, la: map<EventId, seq<nat>>) {
    && la.Keys == d.Keys
    && forall x {:trigger LowestOk(d, bi, br, x, la[x])} :: x in d ==> LowestOk(d, bi, br, x, la[x])
  }

  /** What a new event with these parents sees, itself excluded. */
  ghost function Below(d: Graph, parents: seq<EventId>): set<EventId> {
    set x | x in d && exists p :: p in parents && Sees(d, p, x)
  }

  lemma BelowIsClosed(d: Graph, n: nat, parents: seq<EventId>, w: EventId, p: EventId)
    requires WellFormed(d, n) && w in Below(d, parents) && p in d[w].parents
    ensures p in Below(d, parents)
  {
    assert Linked(d, d[w]);
    var q :| q in parents && Sees(d, q, w);
    assert Sees(d, w, p);
    SeesTransitive(d, q, w, p);
  }

  /** The part of a walk that is done: everything an accounted event points at is visited, stopped at, or waits on the
      stack. */
  ghost predicate Frontier(d: Graph, parents: seq<EventId>, visited: set<EventId>, closed: set<EventId>,
      stack: seq<EventId>) {
    && visited <= Below(d, parents) && visited !! closed
    && (forall p :: p in stack ==> p in Below(d, parents))
    && (forall p :: p in parents ==> p in visited || p in closed || p in stack)
    && (forall w, p :: w in visited && w in d && p in d[w].parents ==> p in visited || p in closed || p in stack)
  }

  lemma FrontierStart(d: Graph, parents: seq<EventId>, closed: set<EventId>)
    requires forall p :: p in parents ==> p in d
    ensures Frontier(d, parents, {}, closed, parents)
  {
    forall p | p in parents
      ensures p in Below(d, parents)
    {
      assert Sees(d, p, p);
    }
  }

  lemma FrontierSkip(d: Graph, parents: seq<EventId>, visited: set<EventId>, closed: set<EventId>, stack: seq<EventId>)
    requires Frontier(d, parents, visited, closed, stack) && stack != []
    requires stack[|stack| - 1] in visited || stack[|stack| - 1] in closed
    ensures Frontier(d, parents, visited, closed, stack[..|stack| - 1])
  {
    var rest := stack[..|stack| - 1];
    assert forall p :: p in stack ==> p in rest || p == stack[|stack| - 1];
    assert forall p :: p in rest ==> p in stack;
  }

  lemma FrontierVisit(d: Graph, n: nat, parents: seq<EventId>, visited: set<EventId>, closed: set<EventId>,
      stack: seq<EventId>)
    requires WellFormed(d, n) && Frontier(d, parents, visited, closed, stack) && stack != []
    requires stack[|stack| - 1] in d && stack[|stack| - 1] !in closed
    ensures Frontier(d, parents, visited + {stack[|stack| - 1]}, closed,
        stack[..|stack| - 1] + d[stack[|stack| - 1]].parents)
  {
    var curr := stack[|stack| - 1];
    var rest := stack[..|stack| - 1] + d[curr].parents;
    assert forall p :: p in stack ==> p in rest || p == curr;
    assert curr in stack;
    forall p | p in d[curr].parents
      ensures p in Below(d, parents)
    {
      BelowIsClosed(d, n, parents, curr, p);
    }
    forall p | p in rest
      ensures p in Below(d, parents)
    {
      assert p in stack || p in d[curr].parents;
    }
  }

  /** The vectors `la`, with entry `b` set in those of `visited`. */
  ghost predicate LoweredIn(la: map<EventId, seq<nat>>, res: map<EventId, seq<nat>>, visited: set<EventId>, b: nat,
      s: nat) {
    res.Keys == la.Keys && forall x :: x in la ==> res[x] == if x in visited then Put(la[x], b, s, 0) else la[x]
  }

  lemma LoweredStep(la: map<EventId, seq<nat>>, res: map<EventId, seq<nat>>, visited: set<EventId>, b: nat, s: nat,
      curr: EventId)
    requires LoweredIn(la, res, visited, b, s) && curr in la && curr !in visited
    ensures LoweredIn(la, res[curr := Put(res[curr], b, s, 0)], visited + {curr}, b, s)
  {
    var next := res[curr := Put(res[curr], b, s, 0)];
    forall x | x in la
      ensures next[x] == if x in visited + {curr} then Put(la[x], b, s, 0) else la[x]
    {
      assert x != curr ==> next[x] == res[x];
    }
  }

  lemma LoweredEntry(la: map<EventId, seq<nat>>, res: map<EventId, seq<nat>>, visited: set<EventId>, b: nat, s: nat,
      x: EventId)
    requires LoweredIn(la, res, visited, b, s) && x in la && s > 0
    ensures NumAt(res[x], b) != 0 <==> x in visited || NumAt(la[x], b) != 0
  {
  }

  /** The pruned walk below a new event on branch `b`: stops at whatever the branch already sees. */
  method LowerAncestors(d: Graph, ghost n: nat, ghost bi: Branches, ghost br: map<EventId, nat>,
      la: map<EventId, seq<nat>>, parents: seq<EventId>, b: nat, s: nat)
    returns (res: map<EventId, seq<nat>>)
    requires WellFormed(d, n) && Placed(d, bi, br) && AllLowestOk(d, bi, br, la) && s > 0
    requires forall p :: p in parents ==> p in d
    ensures res.Keys == la.Keys
    ensures forall x :: x in d ==> res[x] == Lowered(la[x], x in Below(d, parents), b, s)
  {
    ghost var visited, closed;
    res, visited, closed := Walk(d, n, la, parents, b, s);
    WalkIsComplete(d, n, bi, br, la, parents, b, visited, closed);
    LoweredExactly(d, la, res, Below(d, parents), visited, closed, b, s);
  }

  lemma LoweredExactly(d: Graph, la: map<EventId, seq<nat>>, res: map<EventId, seq<nat>>, below: set<EventId>,
      visited: set<EventId>, closed: set<EventId>, b: nat, s: nat)
    requires LoweredIn(la, res, visited, b, s) && la.Keys == d.Keys
    requires closed == set x | x in d && NumAt(la[x], b) != 0
    requires visited <= below && visited !! closed && (forall x :: x in below && x !in closed ==> x in visited)
    ensures forall x :: x in d ==> res[x] == Lowered(la[x], x in below, b, s)
  {
    forall x | x in d
      ensures res[x] == Lowered(la[x], x in below, b, s)
    {
      assert x in closed <==> NumAt(la[x], b) != 0;
      assert x in visited <==> x in below && x !in closed;
    }
  }

  method Walk(d: Graph, ghost n: nat, la: map<EventId, seq<nat>>, parents: seq<EventId>, b: nat, s: nat)
    returns (res: map<EventId, seq<nat>>, ghost visited: set<EventId>, ghost closed: set<EventId>)
    requires WellFormed(d, n) && la.Keys == d.Keys && s > 0
    requires forall p :: p in parents ==> p in d
    ensures LoweredIn(la, res, visited, b, s)
    ensures closed == set x | x in d && NumAt(la[x], b) != 0
    ensures Frontier(d, parents, visited, closed, [])
  {
    res := la;
    var stack := parents;
    visited := {};
    closed := set x | x in d && NumAt(la[x], b) != 0;
    FrontierStart(d, parents, closed);
    while stack != []
      invariant LoweredIn(la, res, visited, b, s)
      invariant Frontier(d, parents, visited, closed, stack)
      decreases d.Keys - visited, |stack|
    {
      var curr := stack[|stack| - 1];
      assert curr in stack && curr in Below(d, parents);
      LoweredEntry(la, res, visited, b, s, curr);
      if NumAt(res[curr], b) != 0 {
        FrontierSkip(d, parents, visited, closed, stack);
        stack := stack[..|stack| - 1];
        continue;
      }
      FrontierVisit(d, n, parents, visited, closed, stack);
      LoweredStep(la, res, visited, b, s, curr);
      res := res[curr := Put(res[curr], b, s, 0)];
      visited := visited + {curr};
      stack := stack[..|stack| - 1] + d[curr].parents;
    }
  }

  /** The walk reached exactly the ancestors that the branch did not see before. */
  lemma WalkIsComplete(d: Graph, n: nat, bi: Branches, br: map<EventId, nat>, la: map<EventId, seq<nat>>,
      parents: seq<EventId>, b: nat, visited: set<EventId>, closed: set<EventId>)
    requires WellFormed(d, n) && Placed(d, bi, br) && AllLowestOk(d, bi, br, la)
    requires closed == set x | x in d && NumAt(la[x], b) != 0
    requires Frontier(d, parents, visited, closed, [])
    ensures forall x :: x in Below(d, parents) && x !in closed ==> x in visited
  {
    forall w, p | w in closed && w in d && p in d[w].parents
      ensures p in closed
    {
      ClosedUnderParents(d, n, bi, br, la, b, w, p);
    }
    forall x, p | x in Below(d, parents) && x !in closed && p in parents && Sees(d, p, x)
      ensures x in visited
    {
      WalkSkipsNothing(d, n, visited, closed, p, x);
    }
  }

  lemma ClosedUnderParents(d: Graph, n: nat, bi: Branches, br: map<EventId, nat>, la: map<EventId, seq<nat>>, b: nat,
      w: EventId, p: EventId)
    requires WellFormed(d, n) && Placed(d, bi, br) && AllLowestOk(d, bi, br, la)
    requires w in d && p in d[w].parents && NumAt(la[w], b) != 0
    ensures p in d && NumAt(la[p], b) != 0
  {
    assert Linked(d, d[w]);
    assert LowestOk(d, bi, br, w, la[w]) && LowestOk(d, bi, br, p, la[p]);
    assert b < |bi.creators|;
    assert SeenFrom(d, br, w, b, NumAt(la[w], b));
    var y :| y in d && On(br, y, b) && Sees(d, y, w);
    assert Sees(d, w, p);
    SeesTransitive(d, y, w, p);
  }
}

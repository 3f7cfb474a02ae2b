/** Frames and roots (poset/poset.go): the frame rule an accepted event obeys, and what it means for
    chains of events and for the frames that hold roots. */
module Frames {
  import opened Dag
  import opened Stakes
  import opened ForklessCause

  /** The frame of the self-parent; zero when there is none. */
  function SelfFrame(d: Graph, e: Event): nat {
    match e.SelfParent()
    case None => 0
    case Some(p) => if p in d then d[p].frame else 0
  }

  predicate IsRootAt(d: Graph, r: EventId, f: nat) {
    r in d && d[r].isRoot && d[r].frame == f
  }

  /** Root `r` of validator `c` on frame `f` forkless-causes `a`. */
  ghost predicate IsCausingRoot(d: Graph, stakes: seq<nat>, a: EventId, f: nat, c: nat, r: EventId) {
    IsRootAt(d, r, f) && d[r].creator == c && ForklessCaused(d, stakes, a, r)
  }

  ghost predicate HasCausingRoot(d: Graph, stakes: seq<nat>, a: EventId, f: nat, c: nat) {
    exists r: EventId :: IsCausingRoot(d, stakes, a, f, c, r)
  }

  /** The validators with a root on frame `f` that forkless-causes `a`. */
  ghost function CausingRoots(d: Graph, stakes: seq<nat>, a: EventId, f: nat): set<nat> {
    set c: nat | c < |stakes| && HasCausingRoot(d, stakes, a, f, c)
  }

  ghost predicate QuorumOn(d: Graph, stakes: seq<nat>, a: EventId, f: nat) {
    HasQuorum(stakes, CausingRoots(d, stakes, a, f))
  }

  /** Frames grow along a self-parent chain by one at each root, and a root above frame 1 needs a quorum of roots one
      below. */
  ghost predicate FrameOk(d: Graph, stakes: seq<nat>, id: EventId)
    requires id in d
  {
    var e := d[id];
    && 1 <= e.frame
    && if e.isRoot then e.frame == SelfFrame(d, e) + 1 && (e.frame == 1 || QuorumOn(d, stakes, id, e.frame - 1))
       else e.frame == SelfFrame(d, e)
  }

  ghost predicate FramesOk(d: Graph, stakes: seq<nat>) {
    && WellFormed(d, |stakes|)
    && forall id {:trigger FrameOk(d, stakes, id)} :: id in d ==> FrameOk(d, stakes, id)
  }

  // ---------------------------------------------------------------- chains

  ghost function RootCount(d: Graph, n: nat, id: EventId): nat
    requires WellFormed(d, n) && id in d
    decreases d[id].seqNum
  {
    assert Linked(d, d[id]);
    (if d[id].isRoot then 1 else 0)
    + (if d[id].seqNum <= 1 then 0
       else assert d[id].parents[0] in d[id].parents; RootCount(d, n, d[id].parents[0]))
  }

  /** The frame of an event is the number of roots on its self-parent chain. */
  lemma {:induction false} FrameCountsRoots(d: Graph, stakes: seq<nat>, id: EventId)
    requires FramesOk(d, stakes) && id in d
    ensures d[id].frame == RootCount(d, |stakes|, id)
    decreases d[id].seqNum
  {
    assert FrameOk(d, stakes, id) && Linked(d, d[id]);
    if d[id].seqNum > 1 {
      var p := d[id].parents[0];
      assert p in d[id].parents;
      FrameCountsRoots(d, stakes, p);
    }
  }

  /** Down a self-parent chain frames do not grow, and below a root they are smaller. */
  lemma {:induction false} FramesAlongChain(d: Graph, stakes: seq<nat>, y: EventId, s: nat)
    requires FramesOk(d, stakes) && y in d && 1 <= s <= d[y].seqNum
    ensures var z := ChainAt(d, |stakes|, y, s);
      d[z].frame <= d[y].frame && (z != y && d[y].isRoot ==> d[z].frame < d[y].frame)
    decreases d[y].seqNum
  {
    assert FrameOk(d, stakes, y) && Linked(d, d[y]);
    if s < d[y].seqNum {
      var p := d[y].parents[0];
      assert p in d[y].parents;
      FramesAlongChain(d, stakes, p, s);
    }
  }

  /** Two roots of one validator on one frame conflict: neither is on the chain of the other. */
  lemma RootsOfOneSlotConflict(d: Graph, stakes: seq<nat>, x: EventId, y: EventId, f: nat)
    requires FramesOk(d, stakes) && IsRootAt(d, x, f) && IsRootAt(d, y, f)
    requires x != y && d[x].creator == d[y].creator
    ensures Conflicting(d, |stakes|, x, y)
  {
    var n := |stakes|;
    assert Linked(d, d[x]) && Linked(d, d[y]);
    if d[x].seqNum <= d[y].seqNum {
      FramesAlongChain(d, stakes, y, d[x].seqNum);
      assert ChainAt(d, n, x, d[x].seqNum) == x;
    } else {
      FramesAlongChain(d, stakes, x, d[y].seqNum);
      assert ChainAt(d, n, y, d[y].seqNum) == y;
    }
  }

  // ---------------------------------------------------------------- no gaps

  /** Below a root of frame `f` there is a root on every frame down to the first. */
  lemma {:induction false} RootsHaveNoGaps(d: Graph, stakes: seq<nat>, r: EventId, g: nat) returns (q: EventId)
    requires FramesOk(d, stakes) && r in d && d[r].isRoot && 1 <= g <= d[r].frame
    ensures IsRootAt(d, q, g) && Sees(d, r, q)
    decreases d[r].frame
  {
    assert FrameOk(d, stakes, r);
    if g == d[r].frame {
      return r;
    }
    var f := d[r].frame - 1;
    var who := CausingRoots(d, stakes, r, f);
    if who == {} {
      StakeEmpty(stakes, |stakes|);
      assert false;
    }
    var c :| c in who;
    var p: EventId :| IsCausingRoot(d, stakes, r, f, c, p);
    CausedIsSeen(d, stakes, r, p);
    q := RootsHaveNoGaps(d, stakes, p, g);
    SeesTransitive(d, r, p, q);
  }

  /** So whoever reads the roots frame by frame may stop at the first frame without any. */
  lemma EmptyFrameIsTheEnd(d: Graph, stakes: seq<nat>, f: nat)
    requires FramesOk(d, stakes) && 1 <= f && (forall r: EventId :: !IsRootAt(d, r, f))
    ensures forall r: EventId, g: nat :: g >= f ==> !IsRootAt(d, r, g)
  {
    forall r: EventId, g: nat | g >= f && IsRootAt(d, r, g)
      ensures false
    {
      var q := RootsHaveNoGaps(d, stakes, r, f);
    }
  }

  // ---------------------------------------------------------------- stability

  lemma CausingRootsStable(small: Graph, big: Graph, stakes: seq<nat>, a: EventId, f: nat)
    requires Extends(small, big) && WellFormed(small, |stakes|) && a in small
    ensures CausingRoots(small, stakes, a, f) == CausingRoots(big, stakes, a, f)
  {
    forall c: nat | c < |stakes|
      ensures c in CausingRoots(small, stakes, a, f) <==> c in CausingRoots(big, stakes, a, f)
    {
      if c in CausingRoots(small, stakes, a, f) {
        var r: EventId :| IsCausingRoot(small, stakes, a, f, c, r);
        CausedStable(small, big, stakes, a, r);
        assert IsCausingRoot(big, stakes, a, f, c, r);
      }
      if c in CausingRoots(big, stakes, a, f) {
        var r: EventId :| IsCausingRoot(big, stakes, a, f, c, r);
        CausedStable(small, big, stakes, a, r);
        assert IsCausingRoot(small, stakes, a, f, c, r);
      }
    }
  }

  /** Whether an event obeys the frame rule is settled when it is added. */
  lemma FrameOkStable(small: Graph, big: Graph, stakes: seq<nat>, id: EventId)
    requires Extends(small, big) && WellFormed(small, |stakes|) && id in small
    ensures FrameOk(small, stakes, id) <==> FrameOk(big, stakes, id)
  {
    assert Linked(small, small[id]);
    assert SelfFrame(small, small[id]) == SelfFrame(big, small[id]);
    if small[id].frame > 1 {
      CausingRootsStable(small, big, stakes, id, small[id].frame - 1);
    }
  }
}

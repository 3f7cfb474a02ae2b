/** What the roots of a frame vote, as a function of the graph alone, and why all nodes elect the
    same Atropos (poset/election) as long as forking validators hold at most a third of the stake. */
module ElectionSafety {
  import opened Dag
  import opened Stakes
  import opened ForklessCause
  import opened Frames

  /** `r` is a root above the frame to decide. */
  predicate Votes(d: Graph, f: nat, r: EventId) {
    r in d && d[r].isRoot && d[r].frame > f
  }

  /** Root `r` votes that validator `v` has a visible root on frame `f`: it sees one itself in the first
      round, and follows the stake majority of the roots that cause it afterwards. */
  ghost predicate VotesYes(d: Graph, stakes: seq<nat>, f: nat, r: EventId, v: nat)
    requires Votes(d, f, r)
    decreases d[r].frame, 1
  {
    if d[r].frame == f + 1 then HasCausingRoot(d, stakes, r, f, v)
    else StakeOf(stakes, Voters(d, stakes, f, r, v, true)) >= StakeOf(stakes, Voters(d, stakes, f, r, v, false))
  }

  /** The validators whose roots one frame below `r` cause it and vote `yes` on `v`. */
  ghost function Voters(d: Graph, stakes: seq<nat>, f: nat, r: EventId, v: nat, yes: bool): set<nat>
    requires Votes(d, f, r) && d[r].frame > f + 1
    decreases d[r].frame, 0
  {
    set c: nat | c < |stakes| && HasVoter(d, stakes, f, r, v, yes, c)
  }

  ghost predicate HasVoter(d: Graph, stakes: seq<nat>, f: nat, r: EventId, v: nat, yes: bool, c: nat)
    requires Votes(d, f, r) && d[r].frame > f + 1
    decreases d[r].frame - 1, 3
  {
    exists q: EventId :: IsVoter(d, stakes, f, r, v, yes, c, q)
  }

  ghost predicate IsVoter(d: Graph, stakes: seq<nat>, f: nat, r: EventId, v: nat, yes: bool, c: nat, q: EventId)
    requires Votes(d, f, r) && d[r].frame > f + 1
    decreases d[r].frame - 1, 2
  {
    IsCausingRoot(d, stakes, r, d[r].frame - 1, c, q) && VotesYes(d, stakes, f, q, v) == yes
  }

  /** Root `r` sees a quorum of equal votes on `v`. */
  ghost predicate Decides(d: Graph, stakes: seq<nat>, f: nat, r: EventId, v: nat, yes: bool) {
    Votes(d, f, r) && d[r].frame > f + 1 && HasQuorum(stakes, Voters(d, stakes, f, r, v, yes))
  }

  ghost predicate Decided(d: Graph, stakes: seq<nat>, f: nat, v: nat, yes: bool) {
    exists r: EventId :: Decides(d, stakes, f, r, v, yes)
  }

  /** `q` is the root of `v` on frame `f` that first-round votes are about. */
  ghost predicate IsSubject(d: Graph, stakes: seq<nat>, f: nat, v: nat, q: EventId) {
    exists r: EventId :: IsRootAt(d, r, f + 1) && IsCausingRoot(d, stakes, r, f, v, q)
  }

  /** The first validator decided "yes" after nothing but "no" gives the Atropos. */
  ghost predicate IsAtropos(d: Graph, stakes: seq<nat>, f: nat, a: EventId) {
    exists v: nat :: v < |stakes| && IsAtroposOf(d, stakes, f, a, v)
  }

  ghost predicate IsAtroposOf(d: Graph, stakes: seq<nat>, f: nat, a: EventId, v: nat) {
    && Decided(d, stakes, f, v, true) && IsSubject(d, stakes, f, v, a)
    && forall u: nat :: u < v ==> Decided(d, stakes, f, u, false)
  }

  /** The setting of all agreement results. */
  ghost predicate Honest(d: Graph, stakes: seq<nat>) {
    FramesOk(d, stakes) && Sane(stakes) && FewForkers(d, stakes)
  }

  /** The root behind a vote. */
  lemma VoterOf(d: Graph, stakes: seq<nat>, f: nat, r: EventId, v: nat, yes: bool, c: nat) returns (q: EventId)
    requires Votes(d, f, r) && d[r].frame > f + 1 && c in Voters(d, stakes, f, r, v, yes)
    ensures IsCausingRoot(d, stakes, r, d[r].frame - 1, c, q) && Votes(d, f, q) && VotesYes(d, stakes, f, q, v) == yes
  {
    assert HasVoter(d, stakes, f, r, v, yes, c);
    q :| IsVoter(d, stakes, f, r, v, yes, c, q);
  }

  lemma VoterIn(d: Graph, stakes: seq<nat>, f: nat, r: EventId, v: nat, yes: bool, c: nat, q: EventId)
    requires Votes(d, f, r) && d[r].frame > f + 1 && c < |stakes|
    requires IsCausingRoot(d, stakes, r, d[r].frame - 1, c, q) && VotesYes(d, stakes, f, q, v) == yes
    ensures c in Voters(d, stakes, f, r, v, yes)
  {
    assert IsVoter(d, stakes, f, r, v, yes, c, q);
    assert HasVoter(d, stakes, f, r, v, yes, c);
  }

  // ---------------------------------------------------------------- one visible root per slot

  /** Of all roots of one validator on one frame, at most one forkless-causes anything. */
  lemma OneVisibleRoot(d: Graph, stakes: seq<nat>, f: nat, c: nat, a1: EventId, r1: EventId, a2: EventId, r2: EventId)
    requires Honest(d, stakes)
    requires IsCausingRoot(d, stakes, a1, f, c, r1) && IsCausingRoot(d, stakes, a2, f, c, r2)
    ensures r1 == r2
  {
    if r1 != r2 {
      RootsOfOneSlotConflict(d, stakes, r1, r2, f);
      ForkSafety(d, stakes, a1, r1, a2, r2);
      assert false;
    }
  }

  lemma VotersPartition(d: Graph, stakes: seq<nat>, f: nat, r: EventId, v: nat)
    requires Votes(d, f, r) && d[r].frame > f + 1
    ensures Voters(d, stakes, f, r, v, true) + Voters(d, stakes, f, r, v, false) ==
      CausingRoots(d, stakes, r, d[r].frame - 1)
  {
    var g := d[r].frame - 1;
    forall c: nat | c < |stakes|
      ensures c in CausingRoots(d, stakes, r, g) <==>
        c in Voters(d, stakes, f, r, v, true) || c in Voters(d, stakes, f, r, v, false)
    {
      if c in Voters(d, stakes, f, r, v, true) {
        var q := VoterOf(d, stakes, f, r, v, true, c);
      }
      if c in Voters(d, stakes, f, r, v, false) {
        var q := VoterOf(d, stakes, f, r, v, false, c);
      }
      if c in CausingRoots(d, stakes, r, g) {
        var q: EventId :| IsCausingRoot(d, stakes, r, g, c, q);
        VoterIn(d, stakes, f, r, v, VotesYes(d, stakes, f, q, v), c, q);
      }
    }
  }

  /** A validator cannot vote both ways, not even to two different roots. */
  lemma VotersDisjoint(d: Graph, stakes: seq<nat>, f: nat, v: nat, r1: EventId, r2: EventId, c: nat, yes: bool)
    requires Honest(d, stakes)
    requires Votes(d, f, r1) && Votes(d, f, r2) && d[r1].frame == d[r2].frame > f + 1
    requires c in Voters(d, stakes, f, r1, v, yes)
    ensures c !in Voters(d, stakes, f, r2, v, !yes)
  {
    var no := !yes;
    if c in Voters(d, stakes, f, r2, v, no) {
      var q1 := VoterOf(d, stakes, f, r1, v, yes, c);
      var q2 := VoterOf(d, stakes, f, r2, v, no, c);
      OneVisibleRoot(d, stakes, d[r1].frame - 1, c, r1, q1, r2, q2);
      assert false;
    }
  }

  /** After the first round a root votes "yes" exactly if at least half of the stake that causes it does. */
  lemma HalfVotesYes(d: Graph, stakes: seq<nat>, f: nat, r: EventId, v: nat)
    requires Honest(d, stakes) && Votes(d, f, r) && d[r].frame > f + 1
    ensures var causing := CausingRoots(d, stakes, r, d[r].frame - 1);
      VotesYes(d, stakes, f, r, v) <==>
        2 * StakeOf(stakes, Voters(d, stakes, f, r, v, true)) >= StakeOf(stakes, causing)
  {
    var yes, no := Voters(d, stakes, f, r, v, true), Voters(d, stakes, f, r, v, false);
    VotersPartition(d, stakes, f, r, v);
    forall c | c in yes
      ensures c !in no
    {
      VotersDisjoint(d, stakes, f, v, r, r, c, true);
    }
    assert yes * no == {};
    StakeOverlap(stakes, yes, no, |stakes|);
    StakeEmpty(stakes, |stakes|);
  }

  // ---------------------------------------------------------------- decisions are final

  /** A decision binds every root of its frame: all of them vote the decided way. */
  lemma DecisionBindsFrame(d: Graph, stakes: seq<nat>, f: nat, v: nat, yes: bool, r: EventId, r': EventId)
    requires Honest(d, stakes) && Decides(d, stakes, f, r, v, yes)
    requires IsRootAt(d, r', d[r].frame)
    ensures VotesYes(d, stakes, f, r', v) == yes
  {
    var same, other := Voters(d, stakes, f, r', v, yes), Voters(d, stakes, f, r', v, !yes);
    var decided := Voters(d, stakes, f, r, v, yes);
    assert FrameOk(d, stakes, r');
    var all := CausingRoots(d, stakes, r', d[r'].frame - 1);
    VotersPartition(d, stakes, f, r', v);
    assert same + other == all;
    forall c | c in decided
      ensures c !in other
    {
      VotersDisjoint(d, stakes, f, v, r, r', c, yes);
    }
    QuorumsIntersect(stakes, decided, all);
    StakeMonotone(stakes, decided * all, same, |stakes|);
    DisjointFromQuorum(stakes, decided, other);
  }

  /** Whatever is disjoint from a quorum holds less than a third. */
  lemma DisjointFromQuorum(stakes: seq<nat>, q: set<nat>, other: set<nat>)
    requires Sane(stakes) && HasQuorum(stakes, q) && q !! other
    ensures 3 * StakeOf(stakes, other) < Total(stakes)
  {
    StakeOverlap(stakes, q, other, |stakes|);
    assert q * other == {};
    StakeEmpty(stakes, |stakes|);
    QuorumIsTwoThirds(stakes);
  }

  /** Once a frame votes one way, every later frame does. */
  lemma {:induction false} UnanimityLasts(d: Graph, stakes: seq<nat>, f: nat, v: nat, yes: bool, g: nat, r: EventId)
    requires Honest(d, stakes) && f < g && Votes(d, f, r) && g <= d[r].frame
    requires forall q: EventId :: IsRootAt(d, q, g) ==> VotesYes(d, stakes, f, q, v) == yes
    ensures VotesYes(d, stakes, f, r, v) == yes
    decreases d[r].frame
  {
    if g < d[r].frame {
      var no := !yes;
      var other := Voters(d, stakes, f, r, v, no);
      forall c | c in other
        ensures false
      {
        var q := VoterOf(d, stakes, f, r, v, no, c);
        UnanimityLasts(d, stakes, f, v, yes, g, q);
      }
      assert other == {};
      StakeEmpty(stakes, |stakes|);
      VotersPartition(d, stakes, f, r, v);
      assert FrameOk(d, stakes, r);
      assert Voters(d, stakes, f, r, v, yes) == CausingRoots(d, stakes, r, d[r].frame - 1);
    }
  }

  /** No two roots of any two frames ever decide differently on a validator. */
  lemma DecisionsAgree(d: Graph, stakes: seq<nat>, f: nat, v: nat, yes1: bool, r1: EventId, yes2: bool, r2: EventId)
    requires Honest(d, stakes)
    requires Decides(d, stakes, f, r1, v, yes1) && Decides(d, stakes, f, r2, v, yes2)
    ensures yes1 == yes2
  {
    if d[r1].frame <= d[r2].frame {
      EarlierDecisionHolds(d, stakes, f, v, yes1, r1, yes2, r2);
    } else {
      EarlierDecisionHolds(d, stakes, f, v, yes2, r2, yes1, r1);
    }
  }

  lemma EarlierDecisionHolds(d: Graph, stakes: seq<nat>, f: nat, v: nat, yes1: bool, r1: EventId, yes2: bool,
      r2: EventId)
    requires Honest(d, stakes) && Decides(d, stakes, f, r1, v, yes1) && Decides(d, stakes, f, r2, v, yes2)
    requires d[r1].frame <= d[r2].frame
    ensures yes1 == yes2
  {
    forall q: EventId | IsRootAt(d, q, d[r1].frame)
      ensures VotesYes(d, stakes, f, q, v) == yes1
    {
      DecisionBindsFrame(d, stakes, f, v, yes1, r1, q);
    }
    UnanimityLasts(d, stakes, f, v, yes1, d[r1].frame, r2);
    DecisionBindsFrame(d, stakes, f, v, yes2, r2, r2);
  }

  lemma SubjectIsUnique(d: Graph, stakes: seq<nat>, f: nat, v: nat, q1: EventId, q2: EventId)
    requires Honest(d, stakes) && IsSubject(d, stakes, f, v, q1) && IsSubject(d, stakes, f, v, q2)
    ensures q1 == q2
  {
    var r1: EventId :| IsRootAt(d, r1, f + 1) && IsCausingRoot(d, stakes, r1, f, v, q1);
    var r2: EventId :| IsRootAt(d, r2, f + 1) && IsCausingRoot(d, stakes, r2, f, v, q2);
    OneVisibleRoot(d, stakes, f, v, r1, q1, r2, q2);
  }

  /** A frame has one Atropos. */
  lemma AtroposIsUnique(d: Graph, stakes: seq<nat>, f: nat, a1: EventId, a2: EventId)
    requires Honest(d, stakes) && IsAtropos(d, stakes, f, a1) && IsAtropos(d, stakes, f, a2)
    ensures a1 == a2
  {
    var v1: nat :| v1 < |stakes| && IsAtroposOf(d, stakes, f, a1, v1);
    var v2: nat :| v2 < |stakes| && IsAtroposOf(d, stakes, f, a2, v2);
    if v1 < v2 {
      OppositeDecisions(d, stakes, f, v1);
      assert false;
    }
    if v2 < v1 {
      OppositeDecisions(d, stakes, f, v2);
      assert false;
    }
    SubjectIsUnique(d, stakes, f, v1, a1, a2);
  }

  lemma OppositeDecisions(d: Graph, stakes: seq<nat>, f: nat, v: nat)
    requires Honest(d, stakes)
    ensures !(Decided(d, stakes, f, v, true) && Decided(d, stakes, f, v, false))
  {
    if Decided(d, stakes, f, v, true) && Decided(d, stakes, f, v, false) {
      var r1: EventId :| Decides(d, stakes, f, r1, v, true);
      var r2: EventId :| Decides(d, stakes, f, r2, v, false);
      DecisionsAgree(d, stakes, f, v, true, r1, false, r2);
    }
  }

  // ---------------------------------------------------------------- nodes with different graphs

  lemma {:induction false} VoteStable(small: Graph, big: Graph, stakes: seq<nat>, f: nat, r: EventId, v: nat)
    requires Extends(small, big) && WellFormed(small, |stakes|) && Votes(small, f, r)
    ensures Votes(big, f, r) && (VotesYes(small, stakes, f, r, v) <==> VotesYes(big, stakes, f, r, v))
    ensures small[r].frame > f + 1 ==>
      forall yes :: Voters(small, stakes, f, r, v, yes) == Voters(big, stakes, f, r, v, yes)
    decreases small[r].frame, 0
  {
    if small[r].frame == f + 1 {
      CausingStable(small, big, stakes, r, f, v);
    } else {
      forall yes, c: nat | c < |stakes|
        ensures c in Voters(small, stakes, f, r, v, yes) <==> c in Voters(big, stakes, f, r, v, yes)
      {
        VoterStable(small, big, stakes, f, r, v, yes, c);
      }
      forall yes
        ensures Voters(small, stakes, f, r, v, yes) == Voters(big, stakes, f, r, v, yes)
      {
      }
    }
  }

  lemma CausingStable(small: Graph, big: Graph, stakes: seq<nat>, a: EventId, f: nat, c: nat)
    requires Extends(small, big) && WellFormed(small, |stakes|) && a in small
    ensures HasCausingRoot(small, stakes, a, f, c) <==> HasCausingRoot(big, stakes, a, f, c)
    ensures forall q: EventId :: IsCausingRoot(small, stakes, a, f, c, q) <==> IsCausingRoot(big, stakes, a, f, c, q)
  {
    forall q: EventId
      ensures IsCausingRoot(small, stakes, a, f, c, q) <==> IsCausingRoot(big, stakes, a, f, c, q)
    {
      CausedStable(small, big, stakes, a, q);
    }
  }

  lemma {:induction false} VoterStable(small: Graph, big: Graph, stakes: seq<nat>, f: nat, r: EventId, v: nat,
      yes: bool, c: nat)
    requires Extends(small, big) && WellFormed(small, |stakes|) && Votes(small, f, r) && small[r].frame > f + 1
    requires c < |stakes|
    ensures c in Voters(small, stakes, f, r, v, yes) <==> c in Voters(big, stakes, f, r, v, yes)
    decreases small[r].frame - 1, 1
  {
    CausingStable(small, big, stakes, r, small[r].frame - 1, c);
    if c in Voters(small, stakes, f, r, v, yes) {
      var q := VoterOf(small, stakes, f, r, v, yes, c);
      VoteStable(small, big, stakes, f, q, v);
      VoterIn(big, stakes, f, r, v, yes, c, q);
    }
    if c in Voters(big, stakes, f, r, v, yes) {
      var q := VoterOf(big, stakes, f, r, v, yes, c);
      assert IsCausingRoot(small, stakes, r, small[r].frame - 1, c, q);
      VoteStable(small, big, stakes, f, q, v);
      VoterIn(small, stakes, f, r, v, yes, c, q);
    }
  }

  /** A node's decision is a decision of every larger graph. */
  lemma AtroposStable(small: Graph, big: Graph, stakes: seq<nat>, f: nat, a: EventId)
    requires Extends(small, big) && WellFormed(small, |stakes|) && IsAtropos(small, stakes, f, a)
    ensures IsAtropos(big, stakes, f, a)
  {
    var v: nat :| v < |stakes| && IsAtroposOf(small, stakes, f, a, v);
    DecidedStable(small, big, stakes, f, v, true);
    var r: EventId :| IsRootAt(small, r, f + 1) && IsCausingRoot(small, stakes, r, f, v, a);
    CausingStable(small, big, stakes, r, f, v);
    assert IsRootAt(big, r, f + 1) && IsCausingRoot(big, stakes, r, f, v, a);
    forall u: nat | u < v
      ensures Decided(big, stakes, f, u, false)
    {
      DecidedStable(small, big, stakes, f, u, false);
    }
    assert IsAtroposOf(big, stakes, f, a, v);
  }

  lemma DecidedStable(small: Graph, big: Graph, stakes: seq<nat>, f: nat, v: nat, yes: bool)
    requires Extends(small, big) && WellFormed(small, |stakes|) && Decided(small, stakes, f, v, yes)
    ensures Decided(big, stakes, f, v, yes)
  {
    var r: EventId :| Decides(small, stakes, f, r, v, yes);
    VoteStable(small, big, stakes, f, r, v);
    assert Decides(big, stakes, f, r, v, yes);
  }

  // ---------------------------------------------------------------- progress

  ghost predicate AllVote(d: Graph, stakes: seq<nat>, f: nat, r: EventId, g: nat, v: nat, yes: bool)
    requires g > f
  {
    forall c: nat, q: EventId {:trigger IsCausingRoot(d, stakes, r, g, c, q)} ::
      IsCausingRoot(d, stakes, r, g, c, q) ==> VotesYes(d, stakes, f, q, v) == yes
  }

  /** Where all roots that cause a root vote alike, that root decides. */
  lemma UnanimousDecides(d: Graph, stakes: seq<nat>, f: nat, r: EventId, v: nat, yes: bool)
    requires FramesOk(d, stakes) && Votes(d, f, r) && d[r].frame > f + 1
    requires AllVote(d, stakes, f, r, d[r].frame - 1, v, yes)
    ensures Decides(d, stakes, f, r, v, yes)
  {
    assert FrameOk(d, stakes, r);
    var g := d[r].frame - 1;
    forall c | c in CausingRoots(d, stakes, r, g)
      ensures c in Voters(d, stakes, f, r, v, yes)
    {
      var q: EventId :| IsCausingRoot(d, stakes, r, g, c, q);
      VoterIn(d, stakes, f, r, v, yes, c, q);
    }
    StakeMonotone(stakes, CausingRoots(d, stakes, r, g), Voters(d, stakes, f, r, v, yes), |stakes|);
  }

  /** The first-round voters behind root `r` all have a root of `v` in sight, and none of a validator before `v`. */
  ghost predicate InFavour(d: Graph, stakes: seq<nat>, f: nat, r: EventId, v: nat) {
    forall c: nat, q: EventId {:trigger IsCausingRoot(d, stakes, r, f + 1, c, q)} ::
      IsCausingRoot(d, stakes, r, f + 1, c, q) ==>
        && HasCausingRoot(d, stakes, q, f, v)
        && forall u: nat :: u < v ==> !HasCausingRoot(d, stakes, q, f, u)
  }

  /** Elections end: a root two frames up, behind which the voters are of one mind, elects the Atropos. */
  lemma SecondRoundElects(d: Graph, stakes: seq<nat>, f: nat, r: EventId, v: nat) returns (a: EventId)
    requires FramesOk(d, stakes) && Sane(stakes) && IsRootAt(d, r, f + 2) && v < |stakes|
    requires InFavour(d, stakes, f, r, v)
    ensures IsAtropos(d, stakes, f, a)
  {
    UnanimousDecides(d, stakes, f, r, v, true);
    forall u: nat | u < v
      ensures Decided(d, stakes, f, u, false)
    {
      UnanimousDecides(d, stakes, f, r, u, false);
    }
    var c := SomeVoter(stakes, Voters(d, stakes, f, r, v, true));
    var q := VoterOf(d, stakes, f, r, v, true, c);
    a :| IsCausingRoot(d, stakes, q, f, v, a);
    assert IsSubject(d, stakes, f, v, a);
    assert IsAtroposOf(d, stakes, f, a, v);
  }

  lemma SomeVoter(stakes: seq<nat>, who: set<nat>) returns (c: nat)
    requires Sane(stakes) && HasQuorum(stakes, who)
    ensures c in who
  {
    if who == {} {
      StakeEmpty(stakes, |stakes|);
      assert false;
    }
    c :| c in who;
  }

  /** An id names one event in both graphs. */
  predicate Compatible(d1: Graph, d2: Graph) {
    forall id :: id in d1 && id in d2 ==> d1[id] == d2[id]
  }

  /** Everything two nodes know together still obeys the rules each of them checked. */
  lemma UnionObeysRules(d1: Graph, d2: Graph, stakes: seq<nat>)
    requires Compatible(d1, d2) && FramesOk(d1, stakes) && FramesOk(d2, stakes)
    ensures Extends(d1, d1 + d2) && Extends(d2, d1 + d2) && FramesOk(d1 + d2, stakes)
  {
    var d := d1 + d2;
    forall id | id in d
      ensures d[id].creator < |stakes| && Linked(d, d[id])
    {
      if id in d1 {
        assert Linked(d1, d1[id]);
      } else {
        assert Linked(d2, d2[id]);
      }
    }
    forall id | id in d
      ensures FrameOk(d, stakes, id)
    {
      if id in d1 {
        assert FrameOk(d1, stakes, id);
        FrameOkStable(d1, d, stakes, id);
      } else {
        assert FrameOk(d2, stakes, id);
        FrameOkStable(d2, d, stakes, id);
      }
    }
  }

  /** Agreement: two nodes that know different events, but together no more than a third of the stake
      forking, never elect different Atropoi for a frame. */
  lemma NodesAgree(d1: Graph, d2: Graph, stakes: seq<nat>, f: nat, a1: EventId, a2: EventId)
    requires Compatible(d1, d2) && FramesOk(d1, stakes) && FramesOk(d2, stakes)
    requires Sane(stakes) && FewForkers(d1 + d2, stakes)
    requires IsAtropos(d1, stakes, f, a1) && IsAtropos(d2, stakes, f, a2)
    ensures a1 == a2
  {
    UnionObeysRules(d1, d2, stakes);
    AtroposStable(d1, d1 + d2, stakes, f, a1);
    AtroposStable(d2, d1 + d2, stakes, f, a2);
    AtroposIsUnique(d1 + d2, stakes, f, a1, a2);
  }
}

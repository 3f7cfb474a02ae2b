/** The forkless-cause relation, defined by reachability and quorum alone, and the safety that
    rests on it: two conflicting events cannot both forkless-cause anything unless validators
    holding more than a third of the stake forked. */
module ForklessCause {
  import opened Dag
  import opened Stakes

  /** Some event of validator `c` sees `b` and is seen by `a`. */
  ghost predicate Relays(d: Graph, a: EventId, b: EventId, c: nat) {
    exists x :: x in d && d[x].creator == c && Sees(d, a, x) && Sees(d, x, b)
  }

  /** The validators that relay `b` to `a` and of which `a` has seen no fork. */
  ghost function Witnesses(d: Graph, n: nat, a: EventId, b: EventId): set<nat> {
    set c: nat | c < n && !ForkSeen(d, a, c) && Relays(d, a, b, c)
  }

  /** `a` is forkless-caused by `b`. */
  ghost predicate ForklessCaused(d: Graph, stakes: seq<nat>, a: EventId, b: EventId) {
    && a in d && b in d
    && !ForkSeen(d, a, d[b].creator)
    && HasQuorum(stakes, Witnesses(d, |stakes|, a, b))
  }

  /** A quorum of which `a` has seen no fork, and each member has an event that sees `b` and is seen by `a`. */
  ghost predicate RelayQuorum(d: Graph, stakes: seq<nat>, a: EventId, b: EventId, who: set<nat>) {
    && HasQuorum(stakes, who)
    && forall c :: c in who ==> c < |stakes| && !ForkSeen(d, a, c) && Relays(d, a, b, c)
  }

  /** Some quorum of relays is all that forkless cause takes, as long as the creator of `b` has no fork in sight. */
  lemma CausedByQuorum(d: Graph, stakes: seq<nat>, a: EventId, b: EventId)
    requires a in d && b in d
    ensures ForklessCaused(d, stakes, a, b) <==>
      !ForkSeen(d, a, d[b].creator) && exists who: set<nat> :: RelayQuorum(d, stakes, a, b, who)
  {
    var all := Witnesses(d, |stakes|, a, b);
    if exists who: set<nat> :: RelayQuorum(d, stakes, a, b, who) {
      var who: set<nat> :| RelayQuorum(d, stakes, a, b, who);
      StakeMonotone(stakes, who, all, |stakes|);
    }
    if HasQuorum(stakes, all) {
      assert RelayQuorum(d, stakes, a, b, all);
    }
  }

  /** Validators that forked somewhere in the graph. */
  ghost function Forkers(d: Graph, n: nat): set<nat> {
    set c: nat | c < n && Forked(d, c)
  }

  /** The forking validators hold at most a third of the whole stake. */
  ghost predicate FewForkers(d: Graph, stakes: seq<nat>) {
    3 * StakeOf(stakes, Forkers(d, |stakes|)) <= Total(stakes)
  }

  /** Two events of one creator, neither on the self-parent chain of the other. */
  ghost predicate Conflicting(d: Graph, n: nat, x: EventId, y: EventId)
    requires WellFormed(d, n)
  {
    && x in d && y in d && d[x].creator == d[y].creator
    && var s := if d[x].seqNum <= d[y].seqNum then d[x].seqNum else d[y].seqNum;
       1 <= s && ChainAt(d, n, x, s) != ChainAt(d, n, y, s)
  }

  lemma ForksConflict(d: Graph, n: nat, x: EventId, y: EventId)
    requires WellFormed(d, n) && x in d && IsFork(d, x, y, d[x].creator)
    ensures Conflicting(d, n, x, y)
  {
    assert Linked(d, d[x]);
  }

  lemma ConflictExposesFork(d: Graph, n: nat, a: EventId, x: EventId, y: EventId)
    requires WellFormed(d, n) && Conflicting(d, n, x, y)
    requires Sees(d, a, x) && Sees(d, a, y)
    ensures ForkSeen(d, a, d[x].creator)
  {
    var s := if d[x].seqNum <= d[y].seqNum then d[x].seqNum else d[y].seqNum;
    var u, v := ChainAt(d, n, x, s), ChainAt(d, n, y, s);
    SeesTransitive(d, a, x, u);
    SeesTransitive(d, a, y, v);
    assert IsFork(d, u, v, d[x].creator);
  }

  /** Forkless cause implies ancestry. */
  lemma CausedIsSeen(d: Graph, stakes: seq<nat>, a: EventId, b: EventId)
    requires ForklessCaused(d, stakes, a, b)
    ensures Sees(d, a, b)
  {
    var w := Witnesses(d, |stakes|, a, b);
    if w == {} {
      StakeEmpty(stakes, |stakes|);
      assert false;
    }
    var c :| c in w;
    var x :| x in d && d[x].creator == c && Sees(d, a, x) && Sees(d, x, b);
    SeesTransitive(d, a, x, b);
  }

  /** A validator that vouches for both of two conflicting events has forked itself. */
  lemma CommonWitnessForked(d: Graph, stakes: seq<nat>, a1: EventId, b1: EventId, a2: EventId, b2: EventId, c: nat)
    requires WellFormed(d, |stakes|) && Conflicting(d, |stakes|, b1, b2)
    requires ForklessCaused(d, stakes, a1, b1) && ForklessCaused(d, stakes, a2, b2)
    requires c in Witnesses(d, |stakes|, a1, b1) && c in Witnesses(d, |stakes|, a2, b2)
    ensures Forked(d, c)
  {
    var n := |stakes|;
    var x1 :| x1 in d && d[x1].creator == c && Sees(d, a1, x1) && Sees(d, x1, b1);
    var x2 :| x2 in d && d[x2].creator == c && Sees(d, a2, x2) && Sees(d, x2, b2);
    if !Forked(d, c) {
      HonestIsChain(d, n, x1, x2);
      if Sees(d, x1, x2) {
        SeesTransitive(d, x1, x2, b2);
        SeesTransitive(d, a1, x1, b2);
        SeesTransitive(d, a1, x1, b1);
        ConflictExposesFork(d, n, a1, b1, b2);
      } else {
        SeesTransitive(d, x2, x1, b1);
        SeesTransitive(d, a2, x2, b1);
        SeesTransitive(d, a2, x2, b2);
        ConflictExposesFork(d, n, a2, b1, b2);
      }
    }
  }

  /** Fork safety: two conflicting events that are both forkless causes, of whatever events,
      prove that more than a third of the stake forked. */
  lemma ForkSafety(d: Graph, stakes: seq<nat>, a1: EventId, b1: EventId, a2: EventId, b2: EventId)
    requires WellFormed(d, |stakes|) && Sane(stakes) && Conflicting(d, |stakes|, b1, b2)
    requires ForklessCaused(d, stakes, a1, b1) && ForklessCaused(d, stakes, a2, b2)
    ensures 3 * StakeOf(stakes, Forkers(d, |stakes|)) > Total(stakes)
  {
    var n := |stakes|;
    var w1, w2 := Witnesses(d, n, a1, b1), Witnesses(d, n, a2, b2);
    QuorumsIntersect(stakes, w1, w2);
    forall c | c in w1 * w2
      ensures c in Forkers(d, n)
    {
      CommonWitnessForked(d, stakes, a1, b1, a2, b2, c);
    }
    StakeMonotone(stakes, w1 * w2, Forkers(d, n), n);
  }

  /** The form the consensus relies on: forks of one sequence number. */
  lemma EqualSeqForkSafety(d: Graph, stakes: seq<nat>, a1: EventId, b1: EventId, a2: EventId, b2: EventId)
    requires WellFormed(d, |stakes|) && Sane(stakes)
    requires b1 in d && IsFork(d, b1, b2, d[b1].creator)
    requires ForklessCaused(d, stakes, a1, b1) && ForklessCaused(d, stakes, a2, b2)
    ensures 3 * StakeOf(stakes, Forkers(d, |stakes|)) > Total(stakes)
  {
    ForksConflict(d, |stakes|, b1, b2);
    ForkSafety(d, stakes, a1, b1, a2, b2);
  }

  /** The answer for a pair never changes while the graph grows. */
  lemma CausedStable(small: Graph, big: Graph, stakes: seq<nat>, a: EventId, b: EventId)
    requires Extends(small, big) && WellFormed(small, |stakes|) && a in small
    ensures ForklessCaused(small, stakes, a, b) <==> ForklessCaused(big, stakes, a, b)
  {
    var n := |stakes|;
    if b !in small {
      if ForklessCaused(big, stakes, a, b) {
        CausedIsSeen(big, stakes, a, b);
        SeesStable(small, big, n, a, b);
        SeesInside(small, a, b);
        assert false;
      }
    } else {
      forall c | 0 <= c < n
        ensures c in Witnesses(small, n, a, b) <==> c in Witnesses(big, n, a, b)
      {
        ForkSeenStable(small, big, n, a, c);
        RelaysStable(small, big, n, a, b, c);
      }
      ForkSeenStable(small, big, n, a, small[b].creator);
      assert Witnesses(small, n, a, b) == Witnesses(big, n, a, b);
    }
  }

  lemma RelaysStable(small: Graph, big: Graph, n: nat, a: EventId, b: EventId, c: nat)
    requires Extends(small, big) && WellFormed(small, n) && a in small
    ensures Relays(small, a, b, c) <==> Relays(big, a, b, c)
  {
    if Relays(small, a, b, c) {
      var x :| x in small && small[x].creator == c && Sees(small, a, x) && Sees(small, x, b);
      SeesStable(small, big, n, a, x);
      SeesStable(small, big, n, x, b);
    }
    if Relays(big, a, b, c) {
      var x :| x in big && big[x].creator == c && Sees(big, a, x) && Sees(big, x, b);
      SeesStable(small, big, n, a, x);
      SeesInside(small, a, x);
      SeesStable(small, big, n, x, b);
    }
  }
}

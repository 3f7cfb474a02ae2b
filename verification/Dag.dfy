/** The event graph of one epoch, seen as plain reachability.

    An event is named by its hash and points at its parents. `Sees` is the simple relation
    that the vector clock of `VectorIndex` answers questions about. */
module Dag {
  import opened Words

  /** A hash, read as one big-endian number, so that numeric order is byte order. */
  type EventId = nat

  datatype Option<+T> = None | Some(value: T)

  /** What consensus reads of an event header; the creator is a validator index. */
  datatype Event = Event(
    epoch: nat,
    creator: nat,
    seqNum: nat,
    parents: seq<EventId>,
    lamport: nat,
    claimedTime: nat,
    frame: nat,
    isRoot: bool,
    medianTime: nat,
    prevEpochHash: nat)
  {
    /** The self-parent is stored first, and only first events of a creator have none. */
    function SelfParent(): Option<EventId> {
      if seqNum <= 1 || |parents| == 0 then None else Some(parents[0])
    }

    predicate IsSelfParent(id: EventId) {
      SelfParent() == Some(id)
    }
  }

  type Graph = map<EventId, Event>

  /** Counters stay below half of the 31-bit maximum. */
  const SEQ_LIMIT := 0x3fff_ffff

  /** The first four bytes of a hash are the epoch of the event, the next four its Lamport time. */
  function EpochOf(id: EventId): nat {
    id / 0x1_0000_0000_0000_0000_0000_0000_0000_0000_0000_0000_0000_0000_0000_0000
  }

  function LamportOf(id: EventId): nat {
    id / 0x1_0000_0000_0000_0000_0000_0000_0000_0000_0000_0000_0000_0000 % 0x1_0000_0000
  }

  /** What the event checks establish of an event whose parents are in the graph. */
  predicate Linked(d: Graph, e: Event) {
    && 1 <= e.seqNum < SEQ_LIMIT
    && 1 <= e.lamport < SEQ_LIMIT
    && 1 <= e.claimedTime < WORD && e.medianTime < WORD
    && (forall p :: p in e.parents ==> p in d && d[p].lamport < e.lamport)
    && (forall p :: p in e.parents ==> (d[p].creator == e.creator <==> e.IsSelfParent(p)))
    && (e.seqNum > 1 ==> |e.parents| > 0 && d[e.parents[0]].seqNum + 1 == e.seqNum)
    && (e.seqNum > 1 ==> d[e.parents[0]].claimedTime < e.claimedTime)
  }

  /** Every event of the graph is linked to parents inside it; `n` is the number of validators. */
  predicate WellFormed(d: Graph, n: nat) {
    forall id {:trigger Linked(d, d[id])} :: id in d ==> d[id].creator < n && Linked(d, d[id])
  }

  /** `x` is `a` itself or an ancestor of `a`. */
  ghost predicate Sees(d: Graph, a: EventId, x: EventId)
    decreases if a in d then d[a].lamport else 0
  {
    && a in d
    && (a == x
        || exists p :: p in d[a].parents && p in d && d[p].lamport < d[a].lamport && Sees(d, p, x))
  }

  /** Two different events of one creator with one sequence number. */
  predicate IsFork(d: Graph, x: EventId, y: EventId, c: nat) {
    && x in d && y in d && x != y
    && d[x].creator == c && d[y].creator == c
    && d[x].seqNum == d[y].seqNum
  }

  ghost predicate ForkSeen(d: Graph, a: EventId, c: nat) {
    exists x, y :: IsFork(d, x, y, c) && Sees(d, a, x) && Sees(d, a, y)
  }

  /** The validators that forked anywhere in the graph. */
  ghost predicate Forked(d: Graph, c: nat) {
    exists x, y :: IsFork(d, x, y, c)
  }

  /** `small` is a part of `big`; an id names one event in both. */
  predicate Extends(small: Graph, big: Graph) {
    forall id :: id in small ==> id in big && big[id] == small[id]
  }

  // ---------------------------------------------------------------- reachability

  lemma {:induction false} SeesInside(d: Graph, a: EventId, x: EventId)
    requires Sees(d, a, x)
    ensures x in d && d[x].lamport <= d[a].lamport
    ensures x != a ==> d[x].lamport < d[a].lamport
    decreases d[a].lamport
  {
    if a != x {
      var p :| p in d[a].parents && p in d && d[p].lamport < d[a].lamport && Sees(d, p, x);
      SeesInside(d, p, x);
    }
  }

  lemma {:induction false} SeesTransitive(d: Graph, a: EventId, b: EventId, c: EventId)
    requires Sees(d, a, b) && Sees(d, b, c)
    ensures Sees(d, a, c)
    decreases d[a].lamport
  {
    if a != b {
      var p :| p in d[a].parents && p in d && d[p].lamport < d[a].lamport && Sees(d, p, b);
      SeesTransitive(d, p, b, c);
    }
  }

  /** What an event sees is fixed once it is in the graph: growing the graph changes nothing. */
  lemma {:induction false} SeesStable(small: Graph, big: Graph, n: nat, a: EventId, x: EventId)
    requires Extends(small, big) && WellFormed(small, n) && a in small
    ensures Sees(small, a, x) <==> Sees(big, a, x)
    decreases small[a].lamport
  {
    assert Linked(small, small[a]);
    forall p | p in small[a].parents
      ensures Sees(small, p, x) <==> Sees(big, p, x)
    {
      SeesStable(small, big, n, p, x);
    }
  }

  lemma SeesParents(d: Graph, n: nat, a: EventId, x: EventId)
    requires WellFormed(d, n) && a in d
    ensures Sees(d, a, x) <==> a == x || exists p :: p in d[a].parents && Sees(d, p, x)
  {
    assert Linked(d, d[a]);
  }

  // ---------------------------------------------------------------- self-parent chains

  /** The event with number `s` on the self-parent chain that ends in `y`. */
  ghost function ChainAt(d: Graph, n: nat, y: EventId, s: nat): (z: EventId)
    requires WellFormed(d, n) && y in d && 1 <= s <= d[y].seqNum
    ensures z in d && d[z].seqNum == s && d[z].creator == d[y].creator && Sees(d, y, z)
    decreases d[y].seqNum
  {
    if s == d[y].seqNum then y
    else
      assert Linked(d, d[y]);
      var p := d[y].parents[0];
      assert d[y].IsSelfParent(p);
      var z := ChainAt(d, n, p, s);
      assert p in d[y].parents && p in d && d[p].lamport < d[y].lamport;
      z
  }

  /** Without a fork in sight, events of one creator are totally ordered by `Sees`. */
  lemma NoForkIsChain(d: Graph, n: nat, a: EventId, x: EventId, y: EventId)
    requires WellFormed(d, n)
    requires Sees(d, a, x) && Sees(d, a, y)
    requires x in d && y in d && d[x].creator == d[y].creator && d[x].seqNum <= d[y].seqNum
    requires !ForkSeen(d, a, d[x].creator)
    ensures Sees(d, y, x)
  {
    assert 1 <= d[x].seqNum by { assert Linked(d, d[x]); }
    var z := ChainAt(d, n, y, d[x].seqNum);
    SeesTransitive(d, a, y, z);
    assert IsFork(d, x, z, d[x].creator) || z == x;
  }

  /** The events of a creator that never forked are totally ordered by `Sees`. */
  lemma HonestIsChain(d: Graph, n: nat, x: EventId, y: EventId)
    requires WellFormed(d, n) && x in d && y in d
    requires d[x].creator == d[y].creator && !Forked(d, d[x].creator)
    ensures Sees(d, x, y) || Sees(d, y, x)
  {
    var lo, hi := if d[x].seqNum <= d[y].seqNum then x else y, if d[x].seqNum <= d[y].seqNum then y else x;
    assert 1 <= d[lo].seqNum by { assert Linked(d, d[lo]); }
    var z := ChainAt(d, n, hi, d[lo].seqNum);
    assert IsFork(d, lo, z, d[x].creator) || z == lo;
  }

  lemma ForkSeenStable(small: Graph, big: Graph, n: nat, a: EventId, c: nat)
    requires Extends(small, big) && WellFormed(small, n) && a in small
    ensures ForkSeen(small, a, c) <==> ForkSeen(big, a, c)
  {
    if ForkSeen(small, a, c) {
      var x, y :| IsFork(small, x, y, c) && Sees(small, a, x) && Sees(small, a, y);
      SeesStable(small, big, n, a, x);
      SeesStable(small, big, n, a, y);
      assert IsFork(big, x, y, c);
    }
    if ForkSeen(big, a, c) {
      var x, y :| IsFork(big, x, y, c) && Sees(big, a, x) && Sees(big, a, y);
      SeesStable(small, big, n, a, x);
      SeesStable(small, big, n, a, y);
      SeesInside(small, a, x);
      SeesInside(small, a, y);
      assert IsFork(small, x, y, c);
    }
  }

  // ---------------------------------------------------------------- walks

  /** A walk that follows parents and stops at an ancestor-closed set skips no ancestor:
      whatever an accounted event sees is accounted for. */
  lemma {:induction false} WalkSkipsNothing(d: Graph, n: nat, visited: set<EventId>, closed: set<EventId>, a: EventId,
      x: EventId)
    requires WellFormed(d, n)
    requires forall w, p :: w in visited && w in d && p in d[w].parents ==> p in visited || p in closed
    requires forall w, p :: w in closed && w in d && p in d[w].parents ==> p in closed
    requires a in visited || a in closed
    requires Sees(d, a, x)
    ensures x in visited || x in closed
    ensures a in closed ==> x in closed
    decreases d[a].lamport
  {
    if a != x {
      var p :| p in d[a].parents && p in d && d[p].lamport < d[a].lamport && Sees(d, p, x);
      WalkSkipsNothing(d, n, visited, closed, p, x);
    }
  }
}

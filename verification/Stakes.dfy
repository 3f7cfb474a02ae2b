/** The validators of an epoch and the stake they hold (inter/pos).

    Validators are named by their index in the sorted order of the group, so a group is the
    sequence of its stakes. A quorum is strictly more than two thirds of the whole stake. */
module Stakes {
  import opened Words

  /** Stake held by the members of `who` among the first `k` validators. */
  ghost function StakeUpTo(stakes: seq<nat>, who: set<nat>, k: nat): nat
    requires k <= |stakes|
  {
    if k == 0 then 0
    else StakeUpTo(stakes, who, k - 1) + (if k - 1 in who then stakes[k - 1] else 0)
  }

  ghost function StakeOf(stakes: seq<nat>, who: set<nat>): nat {
    StakeUpTo(stakes, who, |stakes|)
  }

  function SumUpTo(stakes: seq<nat>, k: nat): nat
    requires k <= |stakes|
  {
    if k == 0 then 0 else SumUpTo(stakes, k - 1) + stakes[k - 1]
  }

  function Total(stakes: seq<nat>): nat {
    SumUpTo(stakes, |stakes|)
  }

  /** The quorum threshold as the 64-bit code computes it. */
  function Quorum(stakes: seq<nat>): nat {
    U64(Total(stakes) * 2) / 3 + 1
  }

  /** The whole stake is small enough for the quorum computation not to wrap around. */
  predicate Sane(stakes: seq<nat>) {
    Total(stakes) * 2 < WORD
  }

  type SaneStakes = s: seq<nat> | Sane(s) witness []

  ghost predicate HasQuorum(stakes: seq<nat>, who: set<nat>) {
    StakeOf(stakes, who) >= Quorum(stakes)
  }

  /** The threshold means "more than two thirds" exactly when doubling the whole stake does not wrap. */
  lemma QuorumIsTwoThirds(stakes: seq<nat>)
    requires Total(stakes) < WORD
    ensures 3 * Quorum(stakes) > 2 * Total(stakes) <==> Sane(stakes)
    ensures Sane(stakes) ==> 3 * (Quorum(stakes) - 1) <= 2 * Total(stakes)
  {
    var t := Total(stakes);
    if t * 2 < WORD {
      assert t * 2 % WORD == t * 2;
    } else {
      assert t * 2 % WORD == t * 2 - WORD;
    }
  }

  /** A single stake of 2^63 doubles to zero, and any validator makes a quorum. */
  lemma HalfTheWordWraps()
    ensures !Sane([HALF]) && Total([HALF]) == HALF && Quorum([HALF]) == 1
  {
    var stakes := [HALF];
    assert SumUpTo(stakes, 0) == 0 && SumUpTo(stakes, 1) == HALF;
  }

  lemma {:induction false} StakeInsert(stakes: seq<nat>, who: set<nat>, c: nat, k: nat)
    requires k <= |stakes| && c !in who
    ensures StakeUpTo(stakes, who + {c}, k) == StakeUpTo(stakes, who, k) + (if c < k then stakes[c] else 0)
  {
    if k > 0 {
      StakeInsert(stakes, who, c, k - 1);
    }
  }

  lemma {:induction false} StakeEmpty(stakes: seq<nat>, k: nat)
    requires k <= |stakes|
    ensures StakeUpTo(stakes, {}, k) == 0
  {
    if k > 0 {
      StakeEmpty(stakes, k - 1);
    }
  }

  lemma {:induction false} StakeMonotone(stakes: seq<nat>, a: set<nat>, b: set<nat>, k: nat)
    requires k <= |stakes| && (forall c :: c in a && c < k ==> c in b)
    ensures StakeUpTo(stakes, a, k) <= StakeUpTo(stakes, b, k)
  {
    if k > 0 {
      StakeMonotone(stakes, a, b, k - 1);
    }
  }

  /** Inclusion and exclusion; the union holds at most the whole stake. */
  lemma {:induction false} StakeOverlap(stakes: seq<nat>, a: set<nat>, b: set<nat>, k: nat)
    requires k <= |stakes|
    ensures StakeUpTo(stakes, a, k) + StakeUpTo(stakes, b, k)
         == StakeUpTo(stakes, a * b, k) + StakeUpTo(stakes, a + b, k)
    ensures StakeUpTo(stakes, a + b, k) <= SumUpTo(stakes, k)
  {
    if k > 0 {
      StakeOverlap(stakes, a, b, k - 1);
    }
  }

  /** Two quorums share more than one third of the whole stake. */
  lemma QuorumsIntersect(stakes: seq<nat>, a: set<nat>, b: set<nat>)
    requires Sane(stakes) && HasQuorum(stakes, a) && HasQuorum(stakes, b)
    ensures 3 * StakeOf(stakes, a * b) > Total(stakes)
  {
    StakeOverlap(stakes, a, b, |stakes|);
    QuorumIsTwoThirds(stakes);
  }

  /** Counts every validator once, however often it is offered (StakeCounter). */
  class StakeCounter {
    const stakes: seq<nat>
    var already: seq<bool>
    var sum: nat
    ghost var counted: set<nat>

    ghost predicate Valid()
      reads this
    {
      && |already| == |stakes|
      && (forall c :: c in counted <==> 0 <= c < |already| && already[c])
      && sum == StakeOf(stakes, counted)
    }

    constructor (stakes: seq<nat>)
      ensures Valid() && counted == {} && this.stakes == stakes
    {
      this.stakes := stakes;
      already := seq(|stakes|, _ => false);
      sum := 0;
      counted := {};
      StakeEmpty(stakes, |stakes|);
    }

    method CountByIdx(c: nat) returns (first: bool)
      requires Valid() && c < |stakes|
      modifies this
      ensures Valid() && counted == old(counted) + {c}
      ensures first <==> c !in old(counted)
    {
      if already[c] {
        assert counted == counted + {c};
        return false;
      }
      StakeInsert(stakes, counted, c, |stakes|);
      already := already[c := true];
      sum := sum + stakes[c];
      counted := counted + {c};
      return true;
    }

    method Reached() returns (yes: bool)
      requires Valid()
      ensures yes <==> HasQuorum(stakes, counted)
    {
      yes := sum >= Quorum(stakes);
    }
  }
}

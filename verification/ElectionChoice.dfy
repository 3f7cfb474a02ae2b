/** An election cannot end with every validator decided "no": counting the first-round votes twice,
    by voter and by candidate, leaves some candidate that every second-round root votes for. */
module ElectionChoice {
  import opened Dag
  import opened Stakes
  import opened Frames
  import opened ElectionSafety

  // ---------------------------------------------------------------- counting twice

  /** The members of `rows` whose set holds `v`. */
  ghost function Column(rows: map<nat, set<nat>>, v: nat): set<nat> {
    set c | c in rows && v in rows[c]
  }

  /** Voter by voter: the stake of each of the first `i` voters times the stake of what it votes for. */
  ghost function ByRow(stakes: seq<nat>, rows: map<nat, set<nat>>, i: nat): nat
    requires i <= |stakes|
  {
    if i == 0 then 0
    else ByRow(stakes, rows, i - 1) + (if i - 1 in rows then stakes[i - 1] * StakeOf(stakes, rows[i - 1]) else 0)
  }

  /** Candidate by candidate: the stake of each of the first `k` times the stake of its voters among the first `i`. */
  ghost function ByColumn(stakes: seq<nat>, rows: map<nat, set<nat>>, i: nat, k: nat): nat
    requires i <= |stakes| && k <= |stakes|
  {
    if k == 0 then 0
    else ByColumn(stakes, rows, i, k - 1) + stakes[k - 1] * StakeUpTo(stakes, Column(rows, k - 1), i)
  }

  lemma CrossStake(a: nat, b: nat, x: nat, y: nat)
    ensures a * (x + b) + b * y == a * x + b * (y + a)
  {
  }

  lemma {:induction false} OneMoreVoter(stakes: seq<nat>, rows: map<nat, set<nat>>, i: nat, k: nat)
    requires i < |stakes| && k <= |stakes|
    ensures ByColumn(stakes, rows, i + 1, k)
         == ByColumn(stakes, rows, i, k) + (if i in rows then stakes[i] * StakeUpTo(stakes, rows[i], k) else 0)
  {
    if k > 0 {
      OneMoreVoter(stakes, rows, i, k - 1);
      if i in rows && k - 1 in rows[i] {
        CrossStake(stakes[k - 1], stakes[i], StakeUpTo(stakes, Column(rows, k - 1), i),
            StakeUpTo(stakes, rows[i], k - 1));
      }
    }
  }

  lemma {:induction false} RowsEqualColumns(stakes: seq<nat>, rows: map<nat, set<nat>>, i: nat)
    requires i <= |stakes|
    ensures ByRow(stakes, rows, i) == ByColumn(stakes, rows, i, |stakes|)
  {
    if i == 0 {
      NoVoters(stakes, rows, |stakes|);
    } else {
      RowsEqualColumns(stakes, rows, i - 1);
      OneMoreVoter(stakes, rows, i - 1, |stakes|);
    }
  }

  lemma {:induction false} NoVoters(stakes: seq<nat>, rows: map<nat, set<nat>>, k: nat)
    requires k <= |stakes|
    ensures ByColumn(stakes, rows, 0, k) == 0
  {
    if k > 0 {
      NoVoters(stakes, rows, k - 1);
    }
  }

  /** Voters that each vote for at least `q` give at least `q` times their own stake. */
  lemma {:induction false} RowsAtLeast(stakes: seq<nat>, rows: map<nat, set<nat>>, q: nat, i: nat)
    requires i <= |stakes| && forall c :: c in rows ==> StakeOf(stakes, rows[c]) >= q
    ensures ByRow(stakes, rows, i) >= q * StakeUpTo(stakes, rows.Keys, i)
  {
    if i > 0 {
      RowsAtLeast(stakes, rows, q, i - 1);
      if i - 1 in rows {
        var s, t := stakes[i - 1], StakeOf(stakes, rows[i - 1]);
        TimesMonotone(s, q, t);
        assert q * (StakeUpTo(stakes, rows.Keys, i - 1) + s) == q * StakeUpTo(stakes, rows.Keys, i - 1) + s * q;
      }
    }
  }

  lemma TimesMonotone(s: nat, a: nat, b: nat)
    requires a <= b
    ensures s * a <= s * b
  {
  }

  /** Candidates with at most `w` each give at most `w` times the whole stake. */
  lemma {:induction false} ColumnsAtMost(stakes: seq<nat>, rows: map<nat, set<nat>>, w: nat, k: nat)
    requires k <= |stakes| && forall v: nat :: v < |stakes| ==> 3 * StakeOf(stakes, Column(rows, v)) <= w
    ensures 3 * ByColumn(stakes, rows, |stakes|, k) <= w * SumUpTo(stakes, k)
  {
    if k > 0 {
      ColumnsAtMost(stakes, rows, w, k - 1);
      var s, t := stakes[k - 1], StakeOf(stakes, Column(rows, k - 1));
      TimesMonotone(s, 3 * t, w);
      assert 3 * (s * t) == s * (3 * t);
      assert w * (SumUpTo(stakes, k - 1) + s) == w * SumUpTo(stakes, k - 1) + s * w;
    }
  }

  /** When every voter votes for a quorum, some candidate has more than two thirds of the voters. */
  lemma PopularCandidate(stakes: seq<nat>, rows: map<nat, set<nat>>) returns (v: nat)
    requires Sane(stakes) && StakeOf(stakes, rows.Keys) > 0
    requires forall c :: c in rows ==> HasQuorum(stakes, rows[c])
    ensures v < |stakes| && 3 * StakeOf(stakes, Column(rows, v)) > 2 * StakeOf(stakes, rows.Keys)
  {
    var w := StakeOf(stakes, rows.Keys);
    if forall v: nat :: v < |stakes| ==> 3 * StakeOf(stakes, Column(rows, v)) <= 2 * w {
      RowsEqualColumns(stakes, rows, |stakes|);
      RowsAtLeast(stakes, rows, Quorum(stakes), |stakes|);
      ColumnsAtMost(stakes, rows, 2 * w, |stakes|);
      QuorumIsTwoThirds(stakes);
      TooManyVotes(w, Quorum(stakes), Total(stakes), ByRow(stakes, rows, |stakes|));
      assert false;
    }
    v :| v < |stakes| && 3 * StakeOf(stakes, Column(rows, v)) > 2 * w;
  }

  lemma TooManyVotes(w: nat, q: nat, t: nat, sum: nat)
    requires w > 0 && 3 * q > 2 * t && sum >= q * w
    ensures 3 * sum > 2 * w * t
  {
    assert w * (3 * q) > w * (2 * t);
  }

  // ---------------------------------------------------------------- first-round votes

  /** `q` is the root of `c` on frame `g` that some root one frame higher is caused by. */
  ghost predicate IsVisible(d: Graph, stakes: seq<nat>, g: nat, c: nat, q: EventId) {
    exists r: EventId :: IsRootAt(d, r, g + 1) && IsCausingRoot(d, stakes, r, g, c, q)
  }

  ghost predicate HasVisible(d: Graph, stakes: seq<nat>, g: nat, c: nat) {
    exists q: EventId :: IsVisible(d, stakes, g, c, q)
  }

  ghost function VisibleRoot(d: Graph, stakes: seq<nat>, g: nat, c: nat): (q: EventId)
    requires HasVisible(d, stakes, g, c)
    ensures IsVisible(d, stakes, g, c, q)
  {
    var q: EventId :| IsVisible(d, stakes, g, c, q);
    q
  }

  /** For each validator with a visible root on frame `f + 1`, the validators that root votes for. */
  ghost function FirstVotes(d: Graph, stakes: seq<nat>, f: nat): map<nat, set<nat>> {
    var g := f + 1;
    map c: nat | c < |stakes| && HasVisible(d, stakes, g, c) :: CausingRoots(d, stakes, VisibleRoot(d, stakes, g, c), f)
  }

  lemma VisibleIsUnique(d: Graph, stakes: seq<nat>, g: nat, c: nat, q1: EventId, q2: EventId)
    requires Honest(d, stakes) && IsVisible(d, stakes, g, c, q1) && IsVisible(d, stakes, g, c, q2)
    ensures q1 == q2
  {
    var r1: EventId :| IsRootAt(d, r1, g + 1) && IsCausingRoot(d, stakes, r1, g, c, q1);
    var r2: EventId :| IsRootAt(d, r2, g + 1) && IsCausingRoot(d, stakes, r2, g, c, q2);
    OneVisibleRoot(d, stakes, g, c, r1, q1, r2, q2);
  }

  lemma FirstVotesAreQuorums(d: Graph, stakes: seq<nat>, f: nat, c: nat)
    requires Honest(d, stakes) && c in FirstVotes(d, stakes, f) && f > 0
    ensures HasQuorum(stakes, FirstVotes(d, stakes, f)[c])
  {
    var q := VisibleRoot(d, stakes, f + 1, c);
    var r: EventId :| IsRootAt(d, r, f + 2) && IsCausingRoot(d, stakes, r, f + 1, c, q);
    assert FrameOk(d, stakes, q);
  }

  /** A validator that votes "no" on `v` to a second-round root is a visible voter outside the column of `v`. */
  lemma NoVoterIsOutside(d: Graph, stakes: seq<nat>, f: nat, r: EventId, v: nat, c: nat)
    requires Honest(d, stakes) && IsRootAt(d, r, f + 2) && v < |stakes| && c in Voters(d, stakes, f, r, v, false)
    ensures c in FirstVotes(d, stakes, f) && c !in Column(FirstVotes(d, stakes, f), v)
  {
    var q := VoterOf(d, stakes, f, r, v, false, c);
    assert IsVisible(d, stakes, f + 1, c, q);
    assert HasVisible(d, stakes, f + 1, c);
    VisibleIsUnique(d, stakes, f + 1, c, q, VisibleRoot(d, stakes, f + 1, c));
  }

  lemma SecondRoundVotesYes(d: Graph, stakes: seq<nat>, f: nat, v: nat, r: EventId)
    requires Honest(d, stakes) && f > 0 && v < |stakes| && IsRootAt(d, r, f + 2)
    requires var rows := FirstVotes(d, stakes, f); 3 * StakeOf(stakes, Column(rows, v)) > 2 * StakeOf(stakes, rows.Keys)
    ensures VotesYes(d, stakes, f, r, v)
  {
    var rows := FirstVotes(d, stakes, f);
    var yes, no := Voters(d, stakes, f, r, v, true), Voters(d, stakes, f, r, v, false);
    var column := Column(rows, v);
    forall c | c in no
      ensures c in rows.Keys - column
    {
      NoVoterIsOutside(d, stakes, f, r, v, c);
    }
    var outside := rows.Keys - column;
    StakeMonotone(stakes, no, outside, |stakes|);
    StakeOverlap(stakes, column, outside, |stakes|);
    assert column + outside == rows.Keys && column * outside == {};
    StakeEmpty(stakes, |stakes|);
    StakeOverlap(stakes, rows.Keys, rows.Keys, |stakes|);
    assert rows.Keys + rows.Keys == rows.Keys;
    VotersPartition(d, stakes, f, r, v);
    assert FrameOk(d, stakes, r);
    StakeOverlap(stakes, yes, no, |stakes|);
    QuorumIsTwoThirds(stakes);
  }

  /** The "all decided no" outcome needs more than a third of the stake to fork. */
  lemma SomeoneIsElected(d: Graph, stakes: seq<nat>, f: nat)
    requires Honest(d, stakes) && |stakes| > 0 && f > 0
    ensures !forall v: nat :: v < |stakes| ==> Decided(d, stakes, f, v, false)
  {
    if forall v: nat :: v < |stakes| ==> Decided(d, stakes, f, v, false) {
      assert Decided(d, stakes, f, 0, false);
      var r0: EventId :| Decides(d, stakes, f, r0, 0, false);
      var r := RootsHaveNoGaps(d, stakes, r0, f + 2);
      VotersAreVisible(d, stakes, f, r);
      var rows := FirstVotes(d, stakes, f);
      forall c | c in rows
        ensures HasQuorum(stakes, rows[c])
      {
        FirstVotesAreQuorums(d, stakes, f, c);
      }
      var v := PopularCandidate(stakes, rows);
      assert Decided(d, stakes, f, v, false);
      PopularIsNotDecidedNo(d, stakes, f, v);
      assert false;
    }
  }

  lemma VotersAreVisible(d: Graph, stakes: seq<nat>, f: nat, r: EventId)
    requires FramesOk(d, stakes) && IsRootAt(d, r, f + 2)
    ensures StakeOf(stakes, FirstVotes(d, stakes, f).Keys) > 0
  {
    assert FrameOk(d, stakes, r);
    var all := CausingRoots(d, stakes, r, f + 1);
    forall c | c in all
      ensures c in FirstVotes(d, stakes, f)
    {
      var q: EventId :| IsCausingRoot(d, stakes, r, f + 1, c, q);
      assert IsVisible(d, stakes, f + 1, c, q);
      assert HasVisible(d, stakes, f + 1, c);
    }
    StakeMonotone(stakes, all, FirstVotes(d, stakes, f).Keys, |stakes|);
  }

  lemma PopularIsNotDecidedNo(d: Graph, stakes: seq<nat>, f: nat, v: nat)
    requires Honest(d, stakes) && f > 0 && v < |stakes|
    requires var rows := FirstVotes(d, stakes, f); 3 * StakeOf(stakes, Column(rows, v)) > 2 * StakeOf(stakes, rows.Keys)
    ensures !Decided(d, stakes, f, v, false)
  {
    if Decided(d, stakes, f, v, false) {
      var r: EventId :| Decides(d, stakes, f, r, v, false);
      forall q: EventId | IsRootAt(d, q, f + 2)
        ensures VotesYes(d, stakes, f, q, v)
      {
        SecondRoundVotesYes(d, stakes, f, v, q);
      }
      UnanimityLasts(d, stakes, f, v, true, f + 2, r);
      DecisionBindsFrame(d, stakes, f, v, false, r, r);
    }
  }
}

/** The election of an Atropos as the code runs it (poset/election): votes are remembered per root
    and validator, and every newly processed root adds its own. */
module Election {
  import Folds
  import opened Sequences
  import opened Dag
  import opened Stakes
  import opened ForklessCause
  import opened Frames
  import opened ElectionSafety
  import opened ElectionChoice
  import opened RootStore
  import opened VectorClock

  datatype Vote = Vote(decided: bool, yes: bool, observedRoot: EventId)

  datatype Outcome = Undecided | Elected(frame: nat, atropos: EventId) | Failed

  /** The root table is the set of roots of the graph. */
  ghost predicate TableOk(d: Graph, table: set<Root>) {
    forall r: Root :: r in table <==> IsRootAt(d, r.id, r.frame) && d[r.id].creator == r.validator
  }

  /** Every event has the frame it should, and the table lists the roots; folded like `BallotsOk`. */
  ghost predicate RootsOk(d: Graph, stakes: seq<nat>, table: set<Root>) {
    forall u {:trigger Folds.Open(u)} :: Folds.Open(u) && u == Folds.Roots ==> FramesOk(d, stakes) && TableOk(d, table)
  }

  lemma RootIsKnown(d: Graph, stakes: seq<nat>, table: set<Root>, r: Root)
    requires RootsOk(d, stakes, table) && r in table
    ensures FramesOk(d, stakes) && IsRootAt(d, r.id, r.frame) && d[r.id].creator < |stakes|
  {
    assert Folds.Open(Folds.Roots);
    assert Linked(d, d[r.id]);
  }

  /** A remembered vote is the vote the graph prescribes. */
  ghost predicate VoteOk(d: Graph, stakes: seq<nat>, f: nat, r: EventId, v: nat, vote: Vote) {
    && Votes(d, f, r) && v < |stakes|
    && (vote.yes <==> VotesYes(d, stakes, f, r, v))
    && (vote.yes ==> IsSubject(d, stakes, f, v, vote.observedRoot))
  }

  ghost predicate VotesOk(d: Graph, stakes: seq<nat>, f: nat, votes: map<(EventId, nat), Vote>) {
    forall r: EventId, v: nat {:trigger (r, v) in votes} :: (r, v) in votes ==>
      VoteOk(d, stakes, f, r, v, votes[(r, v)])
  }

  ghost predicate DecidedOk(d: Graph, stakes: seq<nat>, f: nat, decided: map<nat, Vote>) {
    forall v :: v in decided ==>
      && v < |stakes| && Decided(d, stakes, f, v, decided[v].yes)
      && (decided[v].yes ==> IsSubject(d, stakes, f, v, decided[v].observedRoot))
  }

  /** Every processed root has voted on every subject that is still open. */
  ghost predicate AllVoted(processed: set<EventId>, n: nat, decided: map<nat, Vote>, votes: map<(EventId, nat), Vote>) {
    forall r: EventId, v: nat {:trigger (r, v) in votes} :: r in processed && v < n && v !in decided ==> (r, v) in votes
  }

  /** Every processed root is a root above the frame, and what it decides is decided. */
  ghost predicate AllDecided(d: Graph, stakes: seq<nat>, f: nat, processed: set<EventId>, decided: map<nat, Vote>) {
    && (forall r :: r in processed ==> Votes(d, f, r))
    && (forall r: EventId, v: nat, yes: bool {:trigger Decides(d, stakes, f, r, v, yes)} ::
          r in processed && v < |stakes| && Decides(d, stakes, f, r, v, yes) ==> v in decided)
  }

  /** Votes and decisions are right about the graph; folded so that users of an election do not carry it around. */
  ghost predicate BallotsOk(d: Graph, stakes: seq<nat>, f: nat, votes: map<(EventId, nat), Vote>,
      decided: map<nat, Vote>, processed: set<EventId>) {
    forall u {:trigger Folds.Open(u)} :: Folds.Open(u) && u == Folds.Ballots ==>
      VotesOk(d, stakes, f, votes) && DecidedOk(d, stakes, f, decided) && AllVoted(processed, |stakes|, decided, votes)
      && AllDecided(d, stakes, f, processed, decided)
  }

  ghost predicate CausesProcessed(d: Graph, stakes: seq<nat>, r: EventId, g: nat, processed: set<EventId>) {
    forall c: nat, q: EventId :: IsCausingRoot(d, stakes, r, g, c, q) ==> q in processed
  }

  /** The roots one frame below that cause `r`, each with its slot, each once. */
  ghost predicate ObservedOk(d: Graph, stakes: seq<nat>, r: EventId, g: nat, observed: seq<Root>) {
    && NoDuplicates(observed)
    && forall q: Root :: q in observed <==> q.frame == g && IsCausingRoot(d, stakes, r, g, q.validator, q.id)
  }

  // ---------------------------------------------------------------- counting the votes on one subject

  /** Stake counted for one answer among the first `i` observed roots. */
  ghost predicate Tally(observed: seq<Root>, votes: map<(EventId, nat), Vote>, v: nat, i: nat, yes: bool,
      counted: set<nat>)
    requires i <= |observed| && forall q :: q in observed ==> (q.id, v) in votes
  {
    forall c :: c in counted <==> exists j ::
      0 <= j < i && observed[j].validator == c && votes[(observed[j].id, v)].yes == yes
  }

  lemma TallyIsVoters(d: Graph, stakes: seq<nat>, f: nat, r: EventId, v: nat, observed: seq<Root>,
      votes: map<(EventId, nat), Vote>, yes: bool, counted: set<nat>)
    requires WellFormed(d, |stakes|) && Votes(d, f, r) && d[r].frame > f + 1 && VotesOk(d, stakes, f, votes)
    requires ObservedOk(d, stakes, r, d[r].frame - 1, observed)
    requires forall q :: q in observed ==> (q.id, v) in votes
    requires Tally(observed, votes, v, |observed|, yes, counted)
    ensures counted == Voters(d, stakes, f, r, v, yes)
  {
    var g := d[r].frame - 1;
    forall c: nat
      ensures c in counted <==> c in Voters(d, stakes, f, r, v, yes)
    {
      if c in counted {
        var j :| 0 <= j < |observed| && observed[j].validator == c && votes[(observed[j].id, v)].yes == yes;
        var q := observed[j];
        assert q in observed && VoteOk(d, stakes, f, q.id, v, votes[(q.id, v)]);
        assert Linked(d, d[q.id]);
        VoterIn(d, stakes, f, r, v, yes, c, q.id);
      }
      if c in Voters(d, stakes, f, r, v, yes) {
        var q := VoterOf(d, stakes, f, r, v, yes, c);
        var root := Root(g, c, q);
        assert root in observed;
        var j :| 0 <= j < |observed| && observed[j] == root;
        assert VoteOk(d, stakes, f, q, v, votes[(q, v)]);
      }
    }
  }

  /** A second root of one validator among the observed ones betrays a fork of more than a third. */
  lemma DoubleRoot(d: Graph, stakes: seq<nat>, r: EventId, g: nat, observed: seq<Root>, i: nat, j: nat)
    requires ObservedOk(d, stakes, r, g, observed) && 0 <= i < j < |observed|
    requires observed[i].validator == observed[j].validator
    ensures !Honest(d, stakes)
  {
    if Honest(d, stakes) {
      assert observed[i] in observed && observed[j] in observed;
      OneVisibleRoot(d, stakes, g, observed[i].validator, r, observed[i].id, r, observed[j].id);
      assert false;
    }
  }

  lemma TallyStep(observed: seq<Root>, votes: map<(EventId, nat), Vote>, v: nat, i: nat, yes: bool, before: set<nat>,
      after: set<nat>)
    requires i < |observed| && (forall q :: q in observed ==> (q.id, v) in votes) && observed[i] in observed
    requires Tally(observed, votes, v, i, yes, before)
    requires after == if votes[(observed[i].id, v)].yes == yes then before + {observed[i].validator} else before
    ensures Tally(observed, votes, v, i + 1, yes, after)
  {
    var k := i + 1;
    forall c
      ensures c in after <==>
        exists j :: 0 <= j < k && observed[j].validator == c && votes[(observed[j].id, v)].yes == yes
    {
      if c in after && c !in before {
        assert observed[i].validator == c;
      }
    }
  }

  /** If nobody votes "yes", the majority is "no": a root is caused by a quorum. */
  lemma SomeVote(d: Graph, stakes: seq<nat>, f: nat, r: EventId, v: nat)
    requires FramesOk(d, stakes) && Votes(d, f, r) && d[r].frame > f + 1
    ensures Voters(d, stakes, f, r, v, true) == {} ==> !VotesYes(d, stakes, f, r, v)
  {
    VotersPartition(d, stakes, f, r, v);
    assert FrameOk(d, stakes, r);
    StakeEmpty(stakes, |stakes|);
    var no := Voters(d, stakes, f, r, v, false);
    assert {} + no == no;
  }

  /** With disjoint voters, a quorum for one answer is a majority for it. */
  lemma QuorumIsMajority(stakes: seq<nat>, a: set<nat>, b: set<nat>)
    requires Sane(stakes) && HasQuorum(stakes, a) && a !! b
    ensures StakeOf(stakes, a) > StakeOf(stakes, b)
  {
    StakeOverlap(stakes, a, b, |stakes|);
    assert a * b == {};
    StakeEmpty(stakes, |stakes|);
    QuorumIsTwoThirds(stakes);
  }

  /** What the observed roots vote on `v`: the stake for each answer and the root meant by "yes". */
  datatype Count = Count(yes: nat, no: nat, yesQuorum: bool, noQuorum: bool, subject: Option<EventId>)

  /** The stake counted for each answer, no validator counted twice. */
  ghost predicate CountOk(stakes: seq<nat>, observed: seq<Root>, votes: map<(EventId, nat), Vote>, v: nat, count: Count,
      yes: set<nat>, no: set<nat>)
    requires forall q :: q in observed ==> (q.id, v) in votes
  {
    && Tally(observed, votes, v, |observed|, true, yes) && Tally(observed, votes, v, |observed|, false, no) && yes !! no
    && count.yes == StakeOf(stakes, yes) && count.no == StakeOf(stakes, no)
    && (count.yesQuorum <==> HasQuorum(stakes, yes)) && (count.noQuorum <==> HasQuorum(stakes, no))
    && (count.subject.None? <==> yes == {})
  }

  method CollectVotes(ghost d: Graph, stakes: seq<nat>, ghost f: nat, ghost r: EventId, ghost g: nat, v: nat,
      observed: seq<Root>, votes: map<(EventId, nat), Vote>)
    returns (ok: bool, count: Count, ghost yes: set<nat>, ghost no: set<nat>)
    requires WellFormed(d, |stakes|) && v < |stakes| && VotesOk(d, stakes, f, votes)
    requires ObservedOk(d, stakes, r, g, observed)
    requires forall q :: q in observed ==> (q.id, v) in votes
    ensures ok ==> CountOk(stakes, observed, votes, v, count, yes, no)
    ensures ok && count.subject.Some? ==> IsSubject(d, stakes, f, v, count.subject.value)
    ensures Honest(d, stakes) ==> ok
  {
    var yesVotes := new StakeCounter(stakes);
    var noVotes := new StakeCounter(stakes);
    var allVotes := new StakeCounter(stakes);
    var subject: Option<EventId> := None;
    count, yes, no := Count(0, 0, false, false, None), {}, {};
    for i := 0 to |observed|
      invariant yesVotes.Valid() && noVotes.Valid() && allVotes.Valid()
      invariant yesVotes.stakes == noVotes.stakes == allVotes.stakes == stakes
      invariant fresh(yesVotes) && fresh(noVotes) && fresh(allVotes)
      invariant yesVotes != noVotes && noVotes != allVotes && yesVotes != allVotes
      invariant yes == yesVotes.counted && no == noVotes.counted
      invariant Tally(observed, votes, v, i, true, yes) && Tally(observed, votes, v, i, false, no)
      invariant allVotes.counted == yes + no && yes !! no
      invariant subject.None? <==> yes == {}
      invariant subject.Some? ==> IsSubject(d, stakes, f, v, subject.value)
    {
      var q := observed[i];
      var ballot := votes[(q.id, v)];
      ObservedVote(d, stakes, f, r, g, v, observed, votes, i);
      if ballot.yes && subject.Some? && subject.value != ballot.observedRoot {
        TwoSubjects(d, stakes, f, v, subject.value, ballot.observedRoot);
        return false, count, yes, no;
      }
      if ballot.yes {
        subject := Some(ballot.observedRoot);
        var _ := yesVotes.CountByIdx(q.validator);
      } else {
        var _ := noVotes.CountByIdx(q.validator);
      }
      TallyStep(observed, votes, v, i, true, yes, yesVotes.counted);
      TallyStep(observed, votes, v, i, false, no, noVotes.counted);
      var first := allVotes.CountByIdx(q.validator);
      if !first {
        SeenBefore(observed, votes, v, i, yes, no);
        ghost var j :| 0 <= j < i && observed[j].validator == q.validator;
        DoubleRoot(d, stakes, r, g, observed, j, i);
        return false, count, yes, no;
      }
      SplitStep(yes, no, q.validator, ballot.yes);
      yes, no := yesVotes.counted, noVotes.counted;
    }
    var yesQuorum := yesVotes.Reached();
    var noQuorum := noVotes.Reached();
    count := Count(yesVotes.sum, noVotes.sum, yesQuorum, noQuorum, subject);
    ok := true;
  }

  lemma SplitStep(yes: set<nat>, no: set<nat>, c: nat, answer: bool)
    requires yes !! no && c !in yes + no
    ensures var yes', no' := if answer then yes + {c} else yes, if answer then no else no + {c};
            yes + no + {c} == yes' + no' && yes' !! no' && (yes' == {} <==> yes == {} && !answer)
  {
    assert c in yes + {c};
  }

  lemma ObservedVote(d: Graph, stakes: seq<nat>, f: nat, r: EventId, g: nat, v: nat, observed: seq<Root>,
      votes: map<(EventId, nat), Vote>, i: nat)
    requires WellFormed(d, |stakes|) && VotesOk(d, stakes, f, votes) && ObservedOk(d, stakes, r, g, observed)
    requires i < |observed|
    requires forall q :: q in observed ==> (q.id, v) in votes
    ensures observed[i] in observed && observed[i].validator < |stakes|
    ensures votes[(observed[i].id, v)].yes ==> IsSubject(d, stakes, f, v, votes[(observed[i].id, v)].observedRoot)
  {
    var q := observed[i];
    assert q in observed && Linked(d, d[q.id]);
    assert VoteOk(d, stakes, f, q.id, v, votes[(q.id, v)]);
  }

  /** The vote of a root of a later round on `v`; fails only when a fork of more than a third shows. */
  method CountVotes(ghost d: Graph, stakes: seq<nat>, ghost f: nat, ghost r: EventId, v: nat, observed: seq<Root>,
      votes: map<(EventId, nat), Vote>)
    returns (ok: bool, vote: Vote)
    requires FramesOk(d, stakes) && Sane(stakes) && Votes(d, f, r) && d[r].frame > f + 1 && v < |stakes|
    requires VotesOk(d, stakes, f, votes)
    requires ObservedOk(d, stakes, r, d[r].frame - 1, observed)
    requires forall q :: q in observed ==> (q.id, v) in votes
    ensures ok ==> VoteOk(d, stakes, f, r, v, vote) && (vote.decided ==> Decides(d, stakes, f, r, v, vote.yes))
    ensures ok ==> forall yes :: Decides(d, stakes, f, r, v, yes) ==> vote.decided
    ensures Honest(d, stakes) ==> ok
  {
    var count;
    ghost var yes, no;
    ok, count, yes, no := CollectVotes(d, stakes, f, r, d[r].frame - 1, v, observed, votes);
    var subject := if count.yes >= count.no && count.subject.Some? then count.subject.value else 0;
    vote := Vote(count.yesQuorum || count.noQuorum, count.yes >= count.no, subject);
    if ok {
      TallyIsVoters(d, stakes, f, r, v, observed, votes, true, yes);
      TallyIsVoters(d, stakes, f, r, v, observed, votes, false, no);
      SomeVote(d, stakes, f, r, v);
      if count.yesQuorum {
        QuorumIsMajority(stakes, yes, no);
      }
      if count.noQuorum {
        QuorumIsMajority(stakes, no, yes);
      }
    }
  }

  lemma TwoSubjects(d: Graph, stakes: seq<nat>, f: nat, v: nat, a: EventId, b: EventId)
    requires IsSubject(d, stakes, f, v, a) && IsSubject(d, stakes, f, v, b) && a != b
    ensures !Honest(d, stakes)
  {
    if Honest(d, stakes) {
      SubjectIsUnique(d, stakes, f, v, a, b);
      assert false;
    }
  }

  lemma SeenBefore(observed: seq<Root>, votes: map<(EventId, nat), Vote>, v: nat, i: nat, yes: set<nat>, no: set<nat>)
    requires i < |observed| && forall q :: q in observed ==> (q.id, v) in votes
    requires Tally(observed, votes, v, i, true, yes) && Tally(observed, votes, v, i, false, no)
    requires observed[i].validator in yes + no
    ensures exists j :: 0 <= j < i && observed[j].validator == observed[i].validator
  {
  }

  // ---------------------------------------------------------------- one root's votes on all open subjects

  /** The causing roots by validator; under a fork the last one wins. */
  ghost predicate ObservedMapOk(d: Graph, stakes: seq<nat>, r: EventId, g: nat, m: map<nat, Root>) {
    && (forall c :: c in m ==> m[c].validator == c && IsCausingRoot(d, stakes, r, g, c, m[c].id))
    && (forall c: nat :: HasCausingRoot(d, stakes, r, g, c) ==> c in m)
  }

  /** What a root knows of the frame below it: a map in the first round, a list later. */
  ghost predicate Knows(d: Graph, stakes: seq<nat>, f: nat, r: EventId, observed: seq<Root>, m: map<nat, Root>)
    requires Votes(d, f, r)
  {
    if d[r].frame == f + 1 then ObservedMapOk(d, stakes, r, f, m)
    else ObservedOk(d, stakes, r, d[r].frame - 1, observed)
  }

  method CastVote(ghost d: Graph, stakes: seq<nat>, ghost f: nat, ghost r: EventId, first: bool, v: nat,
      observed: seq<Root>, m: map<nat, Root>, votes: map<(EventId, nat), Vote>)
    returns (ok: bool, vote: Vote)
    requires FramesOk(d, stakes) && Sane(stakes) && Votes(d, f, r) && v < |stakes| && VotesOk(d, stakes, f, votes)
    requires (first <==> d[r].frame == f + 1) && Knows(d, stakes, f, r, observed, m)
    requires !first ==> forall q :: q in observed ==> (q.id, v) in votes
    ensures ok ==> VoteOk(d, stakes, f, r, v, vote) && (vote.decided ==> Decides(d, stakes, f, r, v, vote.yes))
    ensures ok ==> forall yes :: Decides(d, stakes, f, r, v, yes) ==> vote.decided
    ensures Honest(d, stakes) ==> ok
  {
    if first {
      vote := Vote(false, v in m, if v in m then m[v].id else 0);
      ok := true;
      if v in m {
        assert IsRootAt(d, r, f + 1) && IsCausingRoot(d, stakes, r, f, v, vote.observedRoot);
      }
    } else {
      ok, vote := CountVotes(d, stakes, f, r, v, observed, votes);
    }
  }

  /** All votes of `r` on the subjects that were open when it was processed. */
  method CastVotes(ghost d: Graph, stakes: seq<nat>, ghost f: nat, r: EventId, first: bool, open: seq<nat>,
      observed: seq<Root>, m: map<nat, Root>, votes: map<(EventId, nat), Vote>, decided: map<nat, Vote>)
    returns (ok: bool, votes': map<(EventId, nat), Vote>, decided': map<nat, Vote>)
    requires FramesOk(d, stakes) && Sane(stakes) && Votes(d, f, r) && VotesOk(d, stakes, f, votes)
    requires DecidedOk(d, stakes, f, decided)
    requires (first <==> d[r].frame == f + 1) && Knows(d, stakes, f, r, observed, m)
    requires forall v :: v in open ==> v < |stakes|
    requires !first ==> forall q, v :: q in observed && v in open ==> (q.id, v) in votes
    ensures VotesOk(d, stakes, f, votes') && DecidedOk(d, stakes, f, decided')
    ensures votes.Keys <= votes'.Keys && decided.Keys <= decided'.Keys
    ensures ok ==> forall v :: v in open ==> (r, v) in votes'
    ensures ok ==> forall v: nat, yes: bool :: v in open && Decides(d, stakes, f, r, v, yes) ==> v in decided'
    ensures Honest(d, stakes) ==> ok
  {
    votes', decided' := votes, decided;
    for i := 0 to |open|
      invariant VotesOk(d, stakes, f, votes') && DecidedOk(d, stakes, f, decided')
      invariant votes.Keys <= votes'.Keys && decided.Keys <= decided'.Keys
      invariant forall j :: 0 <= j < i ==> (r, open[j]) in votes'
      invariant forall j, yes: bool :: 0 <= j < i && Decides(d, stakes, f, r, open[j], yes) ==> open[j] in decided'
    {
      var v := open[i];
      assert v in open;
      assert !first ==> forall q :: q in observed ==> (q.id, v) in votes';
      var vote;
      ok, vote := CastVote(d, stakes, f, r, first, v, observed, m, votes');
      if !ok {
        return;
      }
      if vote.decided {
        assert Decided(d, stakes, f, v, vote.yes);
        decided' := decided'[v := vote];
      }
      votes' := votes'[(r, v) := vote];
    }
    ok := true;
  }

  class Election {
    const clock: Index
    const store: Store
    var frameToDecide: nat
    var decidedRoots: map<nat, Vote>
    var votes: map<(EventId, nat), Vote>
    ghost var processed: set<EventId>

    /** The state of the election is right about the graph `d`. */
    ghost predicate ValidFor(d: Graph)
      reads this
    {
      frameToDecide > 0 && BallotsOk(d, clock.stakes, frameToDecide, votes, decidedRoots, processed)
    }

    /** The clock and the root table agree on the graph. */
    ghost predicate WorldOk()
      reads this, clock, store
    {
      && clock.Valid() && store.Valid()
      && RootsOk(clock.db.events, clock.stakes, store.table) && Sane(clock.stakes)
    }

    constructor (clock: Index, store: Store, frameToDecide: nat)
      requires frameToDecide > 0
      ensures this.clock == clock && this.store == store && this.frameToDecide == frameToDecide
      ensures processed == {} && decidedRoots == map[] && ValidFor(clock.db.events)
    {
      this.clock, this.store, this.frameToDecide := clock, store, frameToDecide;
      decidedRoots, votes, processed := map[], map[], {};
    }

    method Reset(frameToDecide: nat)
      requires frameToDecide > 0
      modifies this
      ensures this.frameToDecide == frameToDecide && processed == {} && decidedRoots == map[]
      ensures ValidFor(clock.db.events)
    {
      this.frameToDecide := frameToDecide;
      decidedRoots, votes, processed := map[], map[], {};
    }

    method NotDecidedRoots() returns (open: seq<nat>)
      ensures forall v :: v in open <==> 0 <= v < |clock.stakes| && v !in decidedRoots
      ensures forall i, j :: 0 <= i < j < |open| ==> open[i] < open[j]
    {
      open := [];
      for v := 0 to |clock.stakes|
        invariant forall i, j :: 0 <= i < j < |open| ==> open[i] < open[j]
        invariant forall i :: 0 <= i < |open| ==> open[i] < v
        invariant forall u :: u in open <==> 0 <= u < v && u !in decidedRoots
      {
        if v !in decidedRoots {
          open := open + [v];
        }
      }
    }

    method ChooseAtropos() returns (res: Outcome)
      requires ValidFor(clock.db.events) && FramesOk(clock.db.events, clock.stakes) && |clock.stakes| > 0
      ensures res.Elected? ==>
        res.frame == frameToDecide && IsAtropos(clock.db.events, clock.stakes, frameToDecide, res.atropos)
      ensures Honest(clock.db.events, clock.stakes) ==> !res.Failed?
      ensures res.Undecided? ==> StillOpen(|clock.stakes|, decidedRoots)
    {
      ghost var d, stakes, f := clock.db.events, clock.stakes, frameToDecide;
      assert Folds.Open(Folds.Ballots);
      for v := 0 to |clock.stakes|
        invariant forall u: nat :: u < v ==> Decided(d, stakes, f, u, false)
        invariant forall u: nat :: u < v ==> u in decidedRoots && !decidedRoots[u].yes
      {
        if v !in decidedRoots {
          return Undecided;
        }
        if decidedRoots[v].yes {
          assert IsAtroposOf(d, stakes, f, decidedRoots[v].observedRoot, v);
          return Elected(frameToDecide, decidedRoots[v].observedRoot);
        }
      }
      if Honest(d, stakes) {
        SomeoneIsElected(d, stakes, f);
        assert false;
      }
      return Failed;
    }

    /** The roots of frame `g` that cause `r`. */
    method ObservedRoots(r: EventId, g: nat) returns (observed: seq<Root>)
      requires WorldOk() && r in clock.db.events
      modifies clock`cache, clock`bi, store`cache
      ensures WorldOk() && ObservedOk(clock.db.events, clock.stakes, r, g, observed)
    {
      assert Folds.Open(Folds.Roots);
      var frameRoots := store.GetFrameRoots(g);
      observed := [];
      for i := 0 to |frameRoots|
        invariant WorldOk()
        invariant NoDuplicates(observed) && (forall q :: q in observed ==> q in frameRoots[..i])
        invariant forall j :: 0 <= j < i ==>
          (frameRoots[j] in observed <==> ForklessCaused(clock.db.events, clock.stakes, r, frameRoots[j].id))
      {
        var q := frameRoots[i];
        assert q in frameRoots && q !in frameRoots[..i];
        var yes := clock.ForklessCause(r, q.id);
        if yes {
          observed := observed + [q];
        }
      }
      ObservedComplete(clock.db.events, clock.stakes, store.table, r, g, frameRoots, observed);
    }

    /** The same by validator, for the first round. */
    method ObservedRootsMap(r: EventId, g: nat) returns (m: map<nat, Root>)
      requires WorldOk() && r in clock.db.events
      modifies clock`cache, clock`bi, store`cache
      ensures WorldOk() && ObservedMapOk(clock.db.events, clock.stakes, r, g, m)
    {
      assert Folds.Open(Folds.Roots);
      var frameRoots := store.GetFrameRoots(g);
      m := map[];
      for i := 0 to |frameRoots|
        invariant WorldOk()
        invariant forall c :: c in m ==>
          m[c].validator == c && m[c] in frameRoots && ForklessCaused(clock.db.events, clock.stakes, r, m[c].id)
        invariant forall j :: 0 <= j < i && ForklessCaused(clock.db.events, clock.stakes, r, frameRoots[j].id) ==>
          frameRoots[j].validator in m
      {
        var q := frameRoots[i];
        assert q in frameRoots;
        var yes := clock.ForklessCause(r, q.id);
        if yes {
          m := m[q.validator := q];
        }
      }
      MapComplete(clock.db.events, clock.stakes, store.table, r, g, frameRoots, m);
    }

    /** All roots one frame below `r` that cause it have been processed. */
    ghost predicate InOrder(r: EventId)
      reads this, clock
    {
      var d := clock.db.events;
      r in d && d[r].frame > frameToDecide + 1 ==>
        CausesProcessed(d, clock.stakes, r, d[r].frame - 1, processed)
    }

    /** Adds the votes of root `r` and looks for a decision. Only a fork of more than a third of the stake can make it
        fail. */
    method ProcessRoot(r: Root) returns (res: Outcome)
      requires WorldOk() && ValidFor(clock.db.events) && r in store.table && InOrder(r.id)
      modifies this, clock`cache, clock`bi, store`cache
      ensures WorldOk() && ValidFor(clock.db.events)
      ensures frameToDecide == old(frameToDecide)
      ensures res.Elected? ==>
        res.frame == frameToDecide && IsAtropos(clock.db.events, clock.stakes, frameToDecide, res.atropos)
      ensures Honest(clock.db.events, clock.stakes) ==> !res.Failed?
      ensures res.Undecided? ==>
        processed == if r.frame > frameToDecide then old(processed) + {r.id} else old(processed)
      ensures res.Undecided? ==> StillOpen(|clock.stakes|, decidedRoots)
    {
      RootIsKnown(clock.db.events, clock.stakes, store.table, r);
      res := ChooseAtropos();
      if !res.Undecided? {
        return;
      }
      if r.frame <= frameToDecide {
        return;
      }
      var first := r.frame == frameToDecide + 1;
      var observed: seq<Root>, m: map<nat, Root> := [], map[];
      if first {
        m := ObservedRootsMap(r.id, r.frame - 1);
      } else {
        observed := ObservedRoots(r.id, r.frame - 1);
      }
      var ok := VoteOnAll(r.id, first, observed, m);
      if !ok {
        return Failed;
      }
      res := ChooseAtropos();
    }

    method VoteOnAll(r: EventId, first: bool, observed: seq<Root>, m: map<nat, Root>) returns (ok: bool)
      requires FramesOk(clock.db.events, clock.stakes) && Sane(clock.stakes) && ValidFor(clock.db.events)
      requires Votes(clock.db.events, frameToDecide, r) && InOrder(r)
      requires first <==> clock.db.events[r].frame == frameToDecide + 1
      requires Knows(clock.db.events, clock.stakes, frameToDecide, r, observed, m)
      modifies this`votes, this`decidedRoots, this`processed
      ensures ValidFor(clock.db.events)
      ensures ok ==> processed == old(processed) + {r}
      ensures Honest(clock.db.events, clock.stakes) ==> ok
    {
      var open := NotDecidedRoots();
      assert Folds.Open(Folds.Ballots);
      if !first {
        forall q, v | q in observed && v in open
          ensures (q.id, v) in votes
        {
          assert q.id in processed;
        }
      }
      var votes', decided';
      ok, votes', decided' := CastVotes(clock.db.events, clock.stakes, frameToDecide, r, first, open, observed, m,
          votes, decidedRoots);
      votes, decidedRoots := votes', decided';
      if ok {
        processed := processed + {r};
      }
    }
  }

  lemma MapComplete(d: Graph, stakes: seq<nat>, table: set<Root>, r: EventId, g: nat, frameRoots: seq<Root>,
      m: map<nat, Root>)
    requires TableOk(d, table) && ListsFrame(table, g, frameRoots)
    requires forall c :: c in m ==> m[c].validator == c && m[c] in frameRoots && ForklessCaused(d, stakes, r, m[c].id)
    requires forall j :: 0 <= j < |frameRoots| && ForklessCaused(d, stakes, r, frameRoots[j].id) ==>
      frameRoots[j].validator in m
    ensures ObservedMapOk(d, stakes, r, g, m)
  {
    forall c: nat | HasCausingRoot(d, stakes, r, g, c)
      ensures c in m
    {
      var q: EventId :| IsCausingRoot(d, stakes, r, g, c, q);
      assert Root(g, c, q) in frameRoots;
      var j :| 0 <= j < |frameRoots| && frameRoots[j] == Root(g, c, q);
    }
  }

  /** Which validator comes first is not yet known: before it only "no" is decided. */
  ghost predicate StillOpen(n: nat, decided: map<nat, Vote>) {
    n == 0 || exists v: nat :: v < n && v !in decided && forall u: nat :: u < v ==> u in decided && !decided[u].yes
  }

  lemma NothingDecided(n: nat)
    ensures StillOpen(n, map[])
  {
    var none: map<nat, Vote> := map[];
    assert 0 !in none;
  }

  lemma NotDecided(d: Graph, stakes: seq<nat>, f: nat, decided: map<nat, Vote>, processed: set<EventId>, v: nat,
      yes: bool)
    requires AllDecided(d, stakes, f, processed, decided) && v < |stakes| && v !in decided
    requires forall r :: Votes(d, f, r) ==> r in processed
    ensures !Decided(d, stakes, f, v, yes)
  {
  }

  /** When all roots have voted and the election is open, the graph elects no Atropos for the frame. */
  lemma OpenElectsNobody(d: Graph, stakes: seq<nat>, f: nat, votes: map<(EventId, nat), Vote>, decided: map<nat, Vote>,
      processed: set<EventId>, a: EventId)
    requires Honest(d, stakes) && BallotsOk(d, stakes, f, votes, decided, processed) && StillOpen(|stakes|, decided)
    requires forall r :: Votes(d, f, r) ==> r in processed
    ensures !IsAtropos(d, stakes, f, a)
  {
    if IsAtropos(d, stakes, f, a) {
      assert Folds.Open(Folds.Ballots);
      var v: nat :| v < |stakes| && IsAtroposOf(d, stakes, f, a, v);
      var w: nat :| w < |stakes| && w !in decided && forall u: nat :: u < w ==> u in decided && !decided[u].yes;
      NotDecided(d, stakes, f, decided, processed, w, true);
      NotDecided(d, stakes, f, decided, processed, w, false);
      if v < w {
        OppositeDecisions(d, stakes, f, v);
      }
      assert false;
    }
  }

  /** The votes cast so far stay right while the graph grows. */
  lemma ElectionGrows(small: Graph, big: Graph, stakes: seq<nat>, f: nat, votes: map<(EventId, nat), Vote>,
      decided: map<nat, Vote>, processed: set<EventId>)
    requires Extends(small, big) && WellFormed(small, |stakes|)
    requires BallotsOk(small, stakes, f, votes, decided, processed)
    ensures BallotsOk(big, stakes, f, votes, decided, processed)
  {
    assert Folds.Open(Folds.Ballots);
    forall r: EventId, v: nat | (r, v) in votes
      ensures VoteOk(big, stakes, f, r, v, votes[(r, v)])
    {
      VoteStable(small, big, stakes, f, r, v);
      if votes[(r, v)].yes {
        SubjectStable(small, big, stakes, f, v, votes[(r, v)].observedRoot);
      }
    }
    forall v | v in decided
      ensures Decided(big, stakes, f, v, decided[v].yes)
      ensures decided[v].yes ==> IsSubject(big, stakes, f, v, decided[v].observedRoot)
    {
      DecidedStable(small, big, stakes, f, v, decided[v].yes);
      if decided[v].yes {
        SubjectStable(small, big, stakes, f, v, decided[v].observedRoot);
      }
    }
    forall r: EventId | r in processed
      ensures Votes(big, f, r)
      ensures forall v: nat, yes: bool :: v < |stakes| && Decides(big, stakes, f, r, v, yes) ==> v in decided
    {
      forall v: nat, yes: bool | v < |stakes| && Decides(big, stakes, f, r, v, yes)
        ensures v in decided
      {
        VoteStable(small, big, stakes, f, r, v);
        assert Decides(small, stakes, f, r, v, yes);
      }
    }
  }

  lemma SubjectStable(small: Graph, big: Graph, stakes: seq<nat>, f: nat, v: nat, q: EventId)
    requires Extends(small, big) && WellFormed(small, |stakes|) && IsSubject(small, stakes, f, v, q)
    ensures IsSubject(big, stakes, f, v, q)
  {
    var r: EventId :| IsRootAt(small, r, f + 1) && IsCausingRoot(small, stakes, r, f, v, q);
    CausingStable(small, big, stakes, r, f, v);
    assert IsRootAt(big, r, f + 1) && IsCausingRoot(big, stakes, r, f, v, q);
  }

  lemma ObservedComplete(d: Graph, stakes: seq<nat>, table: set<Root>, r: EventId, g: nat, frameRoots: seq<Root>,
      observed: seq<Root>)
    requires TableOk(d, table) && ListsFrame(table, g, frameRoots) && NoDuplicates(observed)
    requires forall q :: q in observed ==> q in frameRoots
    requires forall j :: 0 <= j < |frameRoots| ==>
      (frameRoots[j] in observed <==> ForklessCaused(d, stakes, r, frameRoots[j].id))
    ensures ObservedOk(d, stakes, r, g, observed)
  {
    forall q: Root
      ensures q in observed <==> q.frame == g && IsCausingRoot(d, stakes, r, g, q.validator, q.id)
    {
      if q in frameRoots {
        var j :| 0 <= j < |frameRoots| && frameRoots[j] == q;
      }
    }
  }
}

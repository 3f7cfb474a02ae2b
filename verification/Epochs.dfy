/** Runs over many epochs (poset/frame_decide.go, poset/apply_genesis.go): the application decides when an
    epoch is sealed, and the next one starts from what the sealed one left. */
module Epochs {
  import opened Dag
  import opened Words
  import opened Stakes
  import opened ForklessCause
  import opened Frames
  import opened ElectionSafety
  import opened VectorSpec
  import opened ConsensusTime
  import opened Blocks
  import opened EpochLog

  /** What an epoch knows of the one before it; its hash goes into the first event of each validator. */
  datatype GenesisState = GenesisState(epoch: nat, time: nat, lastAtropos: EventId, appHash: nat)

  /** The state of the application, and the hash over all its answers. */
  datatype Standing = Standing(state: nat, appHash: nat)

  /** The answer to a block: the next state, a hash of it, and whether the epoch ends here. */
  datatype Reply = Reply(state: nat, hash: nat, seals: bool)

  /** The application is any deterministic state machine. It says which events may enter a block, what it keeps of a
      confirmed event, what a block does, and who validates the next epoch; `mix` and `digest` stand for the two uses
      of a hash function. */
  datatype Application = Application(
    allowed: (Event, nat) -> bool,
    confirm: (nat, Notice) -> nat,
    apply: (nat, Block, nat, seq<nat>) -> Reply,
    nextStakes: (nat, nat) -> SaneStakes,
    mix: (nat, nat) -> nat,
    digest: GenesisState -> nat)

  /** All that an epoch takes over; `blocks` is the number of blocks before it. */
  datatype Start = Start(stakes: seq<nat>, prevEpoch: GenesisState, standing: Standing, blocks: nat)

  datatype Epoch = Epoch(events: Graph, start: Start, log: seq<Record>)

  /** The answer to a frame: the application is told of every confirmed event, and then applies the block. */
  function Answer(app: Application, state: nat, r: Record, frame: nat): Reply {
    app.apply(Hear(app.confirm, state, r.told), r.block, frame, r.cheaters)
  }

  /** The application's standing after its answer. */
  function Replied(app: Application, s: Standing, reply: Reply): Standing {
    Standing(reply.state, app.mix(s.appHash, reply.hash))
  }

  /** The application after the frames of `log`. */
  function After(app: Application, s: Standing, log: seq<Record>): Standing {
    if log == [] then s
    else
      var before := After(app, s, log[..|log| - 1]);
      Replied(app, before, Answer(app, before.state, log[|log| - 1], |log|))
  }

  function ReplyTo(app: Application, s: Standing, log: seq<Record>, i: nat): Reply
    requires i < |log|
  {
    Answer(app, After(app, s, log[..i]).state, log[i], i + 1)
  }

  function LastAtropos(start: Start, log: seq<Record>): EventId {
    if log == [] then start.prevEpoch.lastAtropos else log[|log| - 1].block.atropos
  }

  /** The blocks continue the numbering, and each names the Atropos before it. */
  predicate Links(start: Start, log: seq<Record>) {
    forall i: nat {:trigger LinkOk(start, log, i)} :: i < |log| ==> LinkOk(start, log, i)
  }

  predicate LinkOk(start: Start, log: seq<Record>, i: nat)
    requires i < |log|
  {
    log[i].block.index == start.blocks + i + 1 && log[i].block.prev == LastAtropos(start, log[..i])
  }

  /** The frames of the epoch were elected in its graph, and each block is the one its frame determines. */
  ghost predicate EpochOk(app: Application, e: Epoch) {
    && FramesOk(e.events, e.start.stakes) && Sane(e.start.stakes)
    && LogOk(e.events, |e.start.stakes|, e.start.prevEpoch.time, app.allowed, e.log)
    && ElectedLog(e.events, e.start.stakes, e.log)
    && Links(e.start, e.log)
  }

  /** The application ended the epoch with the last frame and with no earlier one. */
  predicate Sealed(app: Application, e: Epoch) {
    && |e.log| > 0
    && forall i: nat {:trigger ReplyTo(app, e.start.standing, e.log, i)} :: i < |e.log| ==>
         (ReplyTo(app, e.start.standing, e.log, i).seals <==> i == |e.log| - 1)
  }

  predicate Ongoing(app: Application, s: Standing, log: seq<Record>) {
    forall i: nat {:trigger ReplyTo(app, s, log, i)} :: i < |log| ==> !ReplyTo(app, s, log, i).seals
  }

  /** What the epoch after a sealed one starts from. */
  function Next(app: Application, e: Epoch): Start {
    var number := e.start.prevEpoch.epoch + 1;
    var standing := After(app, e.start.standing, e.log);
    var prev := GenesisState(number, TimeAfter(e.log, e.start.prevEpoch.time), LastAtropos(e.start, e.log),
        standing.appHash);
    Start(app.nextStakes(standing.state, number + 1), prev, standing, e.start.blocks + |e.log|)
  }

  /** Sealed epochs that lead to `start`. */
  ghost predicate Lineage(app: Application, sealed: seq<Epoch>, start: Start) {
    forall k: nat {:trigger Handed(app, sealed, start, k)} :: k < |sealed| ==> Handed(app, sealed, start, k)
  }

  /** Epoch `k` was sealed, and the epoch after it starts with what it left. */
  ghost predicate Handed(app: Application, sealed: seq<Epoch>, start: Start, k: nat)
    requires k < |sealed|
  {
    && EpochOk(app, sealed[k]) && Sealed(app, sealed[k])
    && Next(app, sealed[k]) == if k + 1 < |sealed| then sealed[k + 1].start else start
  }

  /** All epochs of a node, the last of them not sealed yet. */
  ghost predicate Run(app: Application, run: seq<Epoch>) {
    && |run| > 0
    && Lineage(app, run[..|run| - 1], run[|run| - 1].start)
    && EpochOk(app, run[|run| - 1])
    && Ongoing(app, run[|run| - 1].start.standing, run[|run| - 1].log)
  }

  function BlocksOf(log: seq<Record>): seq<Block> {
    seq(|log|, i requires 0 <= i < |log| => log[i].block)
  }

  /** The blocks of all epochs. */
  function ChainOf(run: seq<Epoch>): seq<Block> {
    if run == [] then [] else ChainOf(run[..|run| - 1]) + BlocksOf(run[|run| - 1].log)
  }

  lemma LineageExtends(app: Application, sealed: seq<Epoch>, e: Epoch)
    requires Lineage(app, sealed, e.start) && EpochOk(app, e) && Sealed(app, e)
    ensures Lineage(app, sealed + [e], Next(app, e))
  {
    var sealed' := sealed + [e];
    forall k: nat | k < |sealed'|
      ensures Handed(app, sealed', Next(app, e), k)
    {
      assert k < |sealed| ==> Handed(app, sealed, e.start, k);
    }
  }

  lemma RunParts(app: Application, run: seq<Epoch>, k: nat)
    requires Run(app, run) && k < |run|
    ensures EpochOk(app, run[k])
    ensures k + 1 < |run| ==> Sealed(app, run[k]) && run[k + 1].start == Next(app, run[k])
  {
    var sealed := run[..|run| - 1];
    if k + 1 < |run| {
      assert Handed(app, sealed, run[|run| - 1].start, k);
    }
  }

  lemma ChainStep(run: seq<Epoch>, k: nat)
    requires k < |run|
    ensures ChainOf(run[..k + 1]) == ChainOf(run[..k]) + BlocksOf(run[k].log)
  {
    assert run[..k + 1][..k] == run[..k];
  }

  lemma {:induction false} ChainGrows(run: seq<Epoch>, k: nat, l: nat)
    requires k <= l <= |run|
    ensures ChainOf(run[..k]) <= ChainOf(run[..l])
    decreases l - k
  {
    if k < l {
      ChainGrows(run, k, l - 1);
      ChainStep(run, l - 1);
    }
  }

  // ---------------------------------------------------------------- two nodes

  /** The same frame: block, cheaters, time parameters, and the confirmed events in the order of the walk. */
  predicate SameFrame(r1: Record, r2: Record) {
    r1.block == r2.block && r1.cheaters == r2.cheaters && r1.info == r2.info && r1.told == r2.told
  }

  predicate SameFrames(log1: seq<Record>, log2: seq<Record>, k: nat) {
    && k <= |log1| && k <= |log2|
    && forall i {:trigger log1[i]} {:trigger log2[i]} :: 0 <= i < k ==> SameFrame(log1[i], log2[i])
  }

  function Shorter(log1: seq<Record>, log2: seq<Record>): nat {
    if |log1| <= |log2| then |log1| else |log2|
  }

  /** What two nodes know of one epoch: ids name the same events, and forkers hold few stakes in all they know
      together. */
  ghost predicate Meet(e1: Epoch, e2: Epoch) {
    Compatible(e1.events, e2.events) && FewForkers(e1.events + e2.events, e1.start.stakes)
  }

  /** Within an epoch that two nodes start alike, they build the same blocks, links included. */
  lemma EpochsAgree(app: Application, e1: Epoch, e2: Epoch)
    requires EpochOk(app, e1) && EpochOk(app, e2) && e1.start == e2.start && Meet(e1, e2)
    ensures SameFrames(e1.log, e2.log, Shorter(e1.log, e2.log))
  {
    var stakes, genesis := e1.start.stakes, e1.start.prevEpoch.time;
    NodesBuildSameChain(e1.events, e2.events, stakes, genesis, app.allowed, e1.log, e2.log);
    forall i | 0 <= i < Shorter(e1.log, e2.log)
      ensures SameFrame(e1.log[i], e2.log[i])
    {
      assert SameResult(e1.log[i], e2.log[i]) && LinkOk(e1.start, e1.log, i) && LinkOk(e2.start, e2.log, i);
      if i > 0 {
        assert SameResult(e1.log[i - 1], e2.log[i - 1]);
      }
    }
  }

  /** The application cannot tell the two nodes apart. */
  lemma {:induction false} SameStanding(app: Application, s: Standing, log1: seq<Record>, log2: seq<Record>, k: nat)
    requires SameFrames(log1, log2, k)
    ensures After(app, s, log1[..k]) == After(app, s, log2[..k])
  {
    if k > 0 {
      SameStanding(app, s, log1, log2, k - 1);
      assert log1[..k][..k - 1] == log1[..k - 1] && log2[..k][..k - 1] == log2[..k - 1];
      assert SameFrame(log1[k - 1], log2[k - 1]);
    }
  }

  lemma SameReply(app: Application, s: Standing, log1: seq<Record>, log2: seq<Record>, i: nat)
    requires SameFrames(log1, log2, i + 1)
    ensures ReplyTo(app, s, log1, i) == ReplyTo(app, s, log2, i)
  {
    SameStanding(app, s, log1, log2, i);
    assert SameFrame(log1[i], log2[i]);
  }

  /** An epoch is sealed by the same frame at both nodes, and they start the next one alike. */
  lemma SealsAgree(app: Application, e1: Epoch, e2: Epoch)
    requires e1.start == e2.start && SameFrames(e1.log, e2.log, Shorter(e1.log, e2.log))
    requires Sealed(app, e1) && Sealed(app, e2)
    ensures Next(app, e1) == Next(app, e2) && BlocksOf(e1.log) == BlocksOf(e2.log)
  {
    var s, k := e1.start.standing, Shorter(e1.log, e2.log);
    SameReply(app, s, e1.log, e2.log, k - 1);
    SameStanding(app, s, e1.log, e2.log, k);
    assert ReplyTo(app, s, e1.log, k - 1).seals <==> k == |e1.log|;
    assert ReplyTo(app, s, e2.log, k - 1).seals <==> k == |e2.log|;
    assert e1.log[..k] == e1.log && e2.log[..k] == e2.log;
    assert SameFrame(e1.log[k - 1], e2.log[k - 1]);
  }

  /** A node that has not sealed an epoch has decided fewer of its frames than one that has. */
  lemma OngoingIsShorter(app: Application, e1: Epoch, e2: Epoch)
    requires e1.start == e2.start && SameFrames(e1.log, e2.log, Shorter(e1.log, e2.log))
    requires Ongoing(app, e1.start.standing, e1.log) && Sealed(app, e2)
    ensures |e1.log| < |e2.log|
  {
    if |e2.log| <= |e1.log| {
      SameReply(app, e1.start.standing, e1.log, e2.log, |e2.log| - 1);
    }
  }

  /** Two runs from one genesis, whose epochs meet. */
  ghost predicate Together(r1: seq<Epoch>, r2: seq<Epoch>) {
    && |r1| > 0 && |r2| > 0 && r1[0].start == r2[0].start
    && forall k {:trigger r1[k]} {:trigger r2[k]} :: 0 <= k < |r1| && k < |r2| ==> Meet(r1[k], r2[k])
  }

  lemma NextEpochsAgree(app: Application, e1: Epoch, e2: Epoch)
    requires EpochOk(app, e1) && EpochOk(app, e2) && e1.start == e2.start && Meet(e1, e2)
    requires Sealed(app, e1) && Sealed(app, e2)
    ensures Next(app, e1) == Next(app, e2) && BlocksOf(e1.log) == BlocksOf(e2.log)
  {
    EpochsAgree(app, e1, e2);
    SealsAgree(app, e1, e2);
  }

  /** Every epoch that both nodes reach starts alike, after the same blocks. */
  lemma {:induction false} StartsAgree(app: Application, r1: seq<Epoch>, r2: seq<Epoch>, k: nat)
    requires Run(app, r1) && Run(app, r2) && Together(r1, r2) && k < |r1| && k < |r2|
    ensures r1[k].start == r2[k].start && ChainOf(r1[..k]) == ChainOf(r2[..k])
    ensures Meet(r1[k], r2[k]) && EpochOk(app, r1[k]) && EpochOk(app, r2[k])
  {
    RunParts(app, r1, k);
    RunParts(app, r2, k);
    if k > 0 {
      StartsAgree(app, r1, r2, k - 1);
      RunParts(app, r1, k - 1);
      RunParts(app, r2, k - 1);
      NextEpochsAgree(app, r1[k - 1], r2[k - 1]);
      ChainStep(r1, k - 1);
      ChainStep(r2, k - 1);
    }
  }

  lemma TogetherBack(app: Application, r1: seq<Epoch>, r2: seq<Epoch>)
    requires Run(app, r1) && Run(app, r2) && Together(r1, r2)
    ensures Together(r2, r1)
  {
    forall k: nat | k < |r1| && k < |r2|
      ensures Meet(r2[k], r1[k])
    {
      StartsAgree(app, r1, r2, k);
      assert r1[k].events + r2[k].events == r2[k].events + r1[k].events;
    }
  }

  /** No more epochs, and in the same epoch no more frames. */
  predicate Behind(r1: seq<Epoch>, r2: seq<Epoch>)
    requires |r1| > 0 && |r2| > 0
  {
    |r1| < |r2| || (|r1| == |r2| && |r1[|r1| - 1].log| <= |r2[|r2| - 1].log|)
  }

  /** One chain: whatever two nodes know and whatever epochs they are in, the chain of the one behind is a prefix of
      the other's. */
  lemma OneChain(app: Application, r1: seq<Epoch>, r2: seq<Epoch>)
    requires Run(app, r1) && Run(app, r2) && Together(r1, r2) && Behind(r1, r2)
    ensures ChainOf(r1) <= ChainOf(r2)
  {
    var k := |r1| - 1;
    LastSharedEpoch(app, r1, r2, k);
    ChainIsPrefix(r1, r2, k);
  }

  /** Two nodes start every epoch that both of them reach alike, and one chain is a prefix of the other. */
  lemma AgreeAllAlong(app: Application, r1: seq<Epoch>, r2: seq<Epoch>)
    requires Run(app, r1) && Run(app, r2) && Together(r1, r2)
    ensures forall k :: 0 <= k < |r1| && k < |r2| ==> r1[k].start == r2[k].start
    ensures Behind(r1, r2) ==> ChainOf(r1) <= ChainOf(r2)
    ensures Behind(r2, r1) ==> ChainOf(r2) <= ChainOf(r1)
  {
    forall k: nat | k < |r1| && k < |r2|
      ensures r1[k].start == r2[k].start
    {
      StartsAgree(app, r1, r2, k);
    }
    if Behind(r1, r2) {
      OneChain(app, r1, r2);
    }
    if Behind(r2, r1) {
      TogetherBack(app, r1, r2);
      OneChain(app, r2, r1);
    }
  }

  /** In the last epoch of the one behind, it has not decided more frames. */
  lemma LastSharedEpoch(app: Application, r1: seq<Epoch>, r2: seq<Epoch>, k: nat)
    requires Run(app, r1) && Run(app, r2) && Together(r1, r2) && Behind(r1, r2) && k == |r1| - 1
    ensures ChainOf(r1[..k]) == ChainOf(r2[..k]) && |r1[k].log| <= |r2[k].log|
    ensures SameFrames(r1[k].log, r2[k].log, |r1[k].log|)
  {
    StartsAgree(app, r1, r2, k);
    EpochsAgree(app, r1[k], r2[k]);
    if |r1| < |r2| {
      RunParts(app, r2, k);
      OngoingIsShorter(app, r1[k], r2[k]);
    }
  }

  lemma ChainIsPrefix(r1: seq<Epoch>, r2: seq<Epoch>, k: nat)
    requires k == |r1| - 1 < |r2| && ChainOf(r1[..k]) == ChainOf(r2[..k])
    requires SameFrames(r1[k].log, r2[k].log, |r1[k].log|)
    ensures ChainOf(r1) <= ChainOf(r2)
  {
    ChainStep(r1, k);
    ChainStep(r2, k);
    ChainGrows(r2, k + 1, |r2|);
    assert BlocksOf(r1[k].log) <= BlocksOf(r2[k].log);
    assert r1[..k + 1] == r1 && r2[..|r2|] == r2;
  }

  ghost predicate NobodyElected(d: Graph, stakes: seq<nat>, f: nat) {
    forall a: EventId :: !IsAtropos(d, stakes, f, a)
  }

  /** What is known of an epoch does not decide its next frame. */
  ghost predicate NothingDue(e: Epoch) {
    NobodyElected(e.events, e.start.stakes, |e.log| + 1)
  }

  /** A node is not behind another if, of the last epoch it reached, it knows all that the other knows, and has
      decided all that it can. */
  lemma MoreEventsMoreFrames(app: Application, r1: seq<Epoch>, r2: seq<Epoch>)
    requires Run(app, r1) && Run(app, r2) && Together(r1, r2)
    requires |r1| >= |r2| ==> Extends(r1[|r2| - 1].events, r2[|r2| - 1].events) && NothingDue(r2[|r2| - 1])
    ensures Behind(r1, r2)
  {
    var k := |r2| - 1;
    if !Behind(r1, r2) {
      MoreFrames(app, r1, r2, k);
      var n := |r2[k].log|;
      assert IsElected(r1[k].events, r1[k].start.stakes, r1[k].log, n);
      AtroposStable(r1[k].events, r2[k].events, r1[k].start.stakes, n + 1, r1[k].log[n].block.atropos);
    }
  }

  /** A node that knows all of an epoch that another knows has few forkers in sight if the two together have. */
  lemma KnowsAll(app: Application, r1: seq<Epoch>, r2: seq<Epoch>, k: nat)
    requires Run(app, r1) && Run(app, r2) && Together(r1, r2) && k < |r1| && k < |r2|
    requires Extends(r1[k].events, r2[k].events)
    ensures Honest(r2[k].events, r2[k].start.stakes)
  {
    StartsAgree(app, r1, r2, k);
    assert r1[k].events + r2[k].events == r2[k].events;
  }

  lemma MoreFrames(app: Application, r1: seq<Epoch>, r2: seq<Epoch>, k: nat)
    requires Run(app, r1) && Run(app, r2) && Together(r1, r2) && k == |r2| - 1 && !Behind(r1, r2)
    ensures r1[k].start == r2[k].start && EpochOk(app, r1[k]) && |r1[k].log| > |r2[k].log|
  {
    StartsAgree(app, r1, r2, k);
    EpochsAgree(app, r1[k], r2[k]);
    if |r1| > |r2| {
      RunParts(app, r1, k);
      OngoingIsShorter(app, r2[k], r1[k]);
    }
  }

  /** After as many epochs and frames, the applications stand alike. */
  lemma StandingsAgree(app: Application, r1: seq<Epoch>, r2: seq<Epoch>, k: nat)
    requires Run(app, r1) && Run(app, r2) && Together(r1, r2) && k < |r1| && k < |r2| && |r1[k].log| == |r2[k].log|
    ensures r1[k].start == r2[k].start
    ensures After(app, r1[k].start.standing, r1[k].log) == After(app, r2[k].start.standing, r2[k].log)
  {
    StartsAgree(app, r1, r2, k);
    EpochsAgree(app, r1[k], r2[k]);
    var n, s := |r1[k].log|, r1[k].start.standing;
    SameStanding(app, s, r1[k].log, r2[k].log, n);
    assert r1[k].log[..n] == r1[k].log && r2[k].log[..n] == r2[k].log;
  }

  // ---------------------------------------------------------------- numbers and links of the chain

  /** Over all epochs the blocks are numbered one after the other, and each names the Atropos before it. */
  lemma {:induction false} ChainIsLinked(app: Application, run: seq<Epoch>, k: nat)
    requires Run(app, run) && k < |run|
    ensures |ChainOf(run[..k])| + run[0].start.blocks == run[k].start.blocks
    ensures run[k].start.prevEpoch.lastAtropos == AtroposBefore(run, ChainOf(run[..k]), |ChainOf(run[..k])|)
    ensures Numbered(run, ChainOf(run[..k + 1]))
  {
    RunParts(app, run, k);
    if k > 0 {
      ChainIsLinked(app, run, k - 1);
      RunParts(app, run, k - 1);
      StartContinues(app, run, k - 1);
    }
    ChainStep(run, k);
    LinksContinue(run, ChainOf(run[..k]), run[k].start, run[k].log);
  }

  lemma StartContinues(app: Application, run: seq<Epoch>, k: nat)
    requires k + 1 < |run| && run[k + 1].start == Next(app, run[k])
    requires |ChainOf(run[..k])| + run[0].start.blocks == run[k].start.blocks
    requires run[k].start.prevEpoch.lastAtropos == AtroposBefore(run, ChainOf(run[..k]), |ChainOf(run[..k])|)
    ensures |ChainOf(run[..k + 1])| + run[0].start.blocks == run[k + 1].start.blocks
    ensures var chain := ChainOf(run[..k + 1]);
      run[k + 1].start.prevEpoch.lastAtropos == AtroposBefore(run, chain, |chain|)
  {
    ChainStep(run, k);
  }

  function AtroposBefore(run: seq<Epoch>, chain: seq<Block>, i: nat): EventId
    requires |run| > 0 && i <= |chain|
  {
    if i == 0 then run[0].start.prevEpoch.lastAtropos else chain[i - 1].atropos
  }

  predicate Numbered(run: seq<Epoch>, chain: seq<Block>)
    requires |run| > 0
  {
    forall i: nat {:trigger AtroposBefore(run, chain, i)} :: i < |chain| ==>
      chain[i].index == run[0].start.blocks + i + 1 && chain[i].prev == AtroposBefore(run, chain, i)
  }

  lemma LinksContinue(run: seq<Epoch>, chain: seq<Block>, start: Start, log: seq<Record>)
    requires |run| > 0 && Numbered(run, chain) && Links(start, log)
    requires start.blocks == run[0].start.blocks + |chain|
    requires start.prevEpoch.lastAtropos == AtroposBefore(run, chain, |chain|)
    ensures Numbered(run, chain + BlocksOf(log))
  {
    var all := chain + BlocksOf(log);
    forall i: nat | i < |all|
      ensures all[i].index == run[0].start.blocks + i + 1 && all[i].prev == AtroposBefore(run, all, i)
    {
      if i >= |chain| {
        var j := i - |chain|;
        assert all[i] == log[j].block && LinkOk(start, log, j);
        assert j > 0 ==> all[i - 1] == log[j - 1].block;
      } else {
        assert all[i] == chain[i] && chain[i].prev == AtroposBefore(run, chain, i);
        assert i > 0 ==> all[i - 1] == chain[i - 1];
      }
    }
  }

  // ---------------------------------------------------------------- times of the chain

  /** No frame of any epoch got a time beyond 64 bits. */
  ghost predicate InRange(run: seq<Epoch>) {
    forall k {:trigger run[k]} :: 0 <= k < |run| ==> Fits(run[k].log, run[k].start.prevEpoch.time)
  }

  /** Each block is later than the one before, the first later than the genesis. */
  predicate Rising(genesis: nat, chain: seq<Block>) {
    forall i: nat {:trigger Rises(genesis, chain, i)} :: i < |chain| ==> Rises(genesis, chain, i)
  }

  predicate Rises(genesis: nat, chain: seq<Block>, i: nat)
    requires i < |chain|
  {
    TimeBefore(genesis, chain, i) < chain[i].time
  }

  function TimeBefore(genesis: nat, chain: seq<Block>, i: nat): nat
    requires i <= |chain|
  {
    if i == 0 then genesis else chain[i - 1].time
  }

  lemma RisingJoins(genesis: nat, a: seq<Block>, b: seq<Block>)
    ensures Rising(genesis, a + b) <==> Rising(genesis, a) && Rising(TimeBefore(genesis, a, |a|), b)
  {
    var all, middle := a + b, TimeBefore(genesis, a, |a|);
    forall i: nat | i < |a|
      ensures Rises(genesis, all, i) <==> Rises(genesis, a, i)
    {
    }
    forall i: nat | i < |b|
      ensures Rises(middle, b, i) <==> Rises(genesis, all, |a| + i)
    {
      assert i > 0 ==> all[|a| + i - 1] == b[i - 1];
    }
    if Rising(genesis, a) && Rising(middle, b) {
      forall i: nat | i < |all|
        ensures Rises(genesis, all, i)
      {
        assert i >= |a| ==> Rises(middle, b, i - |a|);
        assert i < |a| ==> Rises(genesis, a, i);
      }
    }
  }

  /** The facts about one frame's time. */
  lemma FrameTime(d: Graph, n: nat, genesis: nat, allowed: (Event, nat) -> bool, log: seq<Record>, i: nat)
    requires WellFormed(d, n) && LogOk(d, n, genesis, allowed, log) && i < |log| && genesis < WORD
    ensures FrameFits(log, genesis, i) <==> Rises(genesis, BlocksOf(log), i)
    ensures BlocksOf(log)[i].time == log[i].info.lastConsensusTime < WORD
  {
    var r, last := log[i], TimeAfter(log[..i], genesis);
    assert RecordOk(d, n, genesis, allowed, log, i);
    if i > 0 {
      assert RecordOk(d, n, genesis, allowed, log, i - 1);
    }
    SpanBounds(d, n, Past(d, r.block.atropos) - ConfirmedBy(d, log[..i]), r.high, r.low);
    assert Linked(d, d[r.block.atropos]);
    FrameTimeIncreases(last, d[r.block.atropos].medianTime, r.high, r.low);
  }

  /** Within an epoch: block times increase exactly when none of them left the range. */
  lemma FitsIsRising(d: Graph, n: nat, genesis: nat, allowed: (Event, nat) -> bool, log: seq<Record>)
    requires WellFormed(d, n) && LogOk(d, n, genesis, allowed, log) && genesis < WORD
    ensures Fits(log, genesis) <==> Rising(genesis, BlocksOf(log))
    ensures LastTimeOf(genesis, BlocksOf(log)) == TimeAfter(log, genesis) < WORD
  {
    forall i: nat | i < |log|
      ensures FrameFits(log, genesis, i) <==> Rises(genesis, BlocksOf(log), i)
    {
      FrameTime(d, n, genesis, allowed, log, i);
    }
    if |log| > 0 {
      FrameTime(d, n, genesis, allowed, log, |log| - 1);
    }
  }

  /** Over all epochs: block times increase exactly when none of them left the range of 64 bits. */
  lemma {:induction false} InRangeIsRising(app: Application, run: seq<Epoch>, genesis: nat, k: nat)
    requires Run(app, run) && genesis == run[0].start.prevEpoch.time < WORD && k <= |run|
    ensures InRange(run[..k]) <==> Rising(genesis, ChainOf(run[..k]))
    ensures LastTimeOf(genesis, ChainOf(run[..k])) < WORD
    ensures k < |run| ==> LastTimeOf(genesis, ChainOf(run[..k])) == run[k].start.prevEpoch.time
  {
    if k > 0 {
      var e := run[k - 1];
      InRangeIsRising(app, run, genesis, k - 1);
      RunParts(app, run, k - 1);
      FitsIsRising(e.events, |e.start.stakes|, e.start.prevEpoch.time, app.allowed, e.log);
      RisingStep(run, genesis, k - 1);
    }
  }

  function LastTimeOf(genesis: nat, chain: seq<Block>): nat {
    TimeBefore(genesis, chain, |chain|)
  }

  lemma RisingStep(run: seq<Epoch>, genesis: nat, k: nat)
    requires k < |run| && (InRange(run[..k]) <==> Rising(genesis, ChainOf(run[..k])))
    requires var time := LastTimeOf(genesis, ChainOf(run[..k]));
      run[k].start.prevEpoch.time == time && (Fits(run[k].log, time) <==> Rising(time, BlocksOf(run[k].log)))
    ensures InRange(run[..k + 1]) <==> Rising(genesis, ChainOf(run[..k + 1]))
    ensures LastTimeOf(genesis, ChainOf(run[..k + 1])) == LastTimeOf(run[k].start.prevEpoch.time, BlocksOf(run[k].log))
  {
    ChainStep(run, k);
    RisingJoins(genesis, ChainOf(run[..k]), BlocksOf(run[k].log));
    InRangeStep(run, k);
  }

  lemma InRangeStep(run: seq<Epoch>, k: nat)
    requires k < |run|
    ensures InRange(run[..k + 1]) <==> InRange(run[..k]) && Fits(run[k].log, run[k].start.prevEpoch.time)
  {
    var longer, shorter := run[..k + 1], run[..k];
    forall l | 0 <= l < k
      ensures longer[l] == shorter[l]
    {
    }
    assert longer[k] == run[k];
  }

  /** Every validator's clock was below `bound`, as the median times tell. */
  predicate MediansBelow(d: Graph, bound: nat) {
    forall x {:trigger d[x]} :: x in d ==> d[x].medianTime <= bound
  }

  /** A frame moves the time past the medians by no more than a tick per Lamport step. */
  lemma {:induction false} FramesFit(d: Graph, n: nat, genesis: nat, allowed: (Event, nat) -> bool, log: seq<Record>,
      bound: nat, k: nat)
    requires WellFormed(d, n) && LogOk(d, n, genesis, allowed, log) && k <= |log| && MediansBelow(d, bound)
    requires genesis <= bound && bound + k * SEQ_LIMIT < WORD
    ensures TimeAfter(log[..k], genesis) <= bound + k * SEQ_LIMIT
    ensures forall i: nat :: i < k ==> FrameFits(log, genesis, i)
  {
    if k > 0 {
      var i := k - 1;
      FramesFit(d, n, genesis, allowed, log, bound, i);
      var r, last := log[i], TimeAfter(log[..i], genesis);
      assert RecordOk(d, n, genesis, allowed, log, i);
      LamportSpanIsShort(d, n, Past(d, r.block.atropos) - ConfirmedBy(d, log[..i]), r.high, r.low);
      var median := d[r.block.atropos].medianTime;
      TimeIsBounded(last, median, r.high, r.low);
      TimeFits(last, median, r.high, r.low, r.high);
      TimeIsIdeal(last, median, r.high, r.low, r.high);
    }
  }

  lemma LamportSpanIsShort(d: Graph, n: nat, s: set<EventId>, high: nat, low: nat)
    requires WellFormed(d, n) && LamportSpan(d, s, high, low)
    ensures high < SEQ_LIMIT
  {
    if s * d.Keys != {} {
      var x :| x in s && x in d && d[x].lamport == high;
      assert Linked(d, d[x]);
    }
  }

  lemma Multiples(a: nat, b: nat)
    ensures (a + b) * SEQ_LIMIT == a * SEQ_LIMIT + b * SEQ_LIMIT
  {
  }

  /** As long as no clock comes within one tick per Lamport step of 2^64, no time leaves the range. */
  lemma {:induction false} RunFits(app: Application, run: seq<Epoch>, bound: nat, k: nat)
    requires Run(app, run) && k <= |run| && run[0].start.prevEpoch.time <= bound
    requires forall l {:trigger run[l]} :: 0 <= l < |run| ==> MediansBelow(run[l].events, bound)
    requires bound + |ChainOf(run[..k])| * SEQ_LIMIT < WORD
    ensures InRange(run[..k])
    ensures k > 0 ==>
      TimeAfter(run[k - 1].log, run[k - 1].start.prevEpoch.time) <= bound + |ChainOf(run[..k])| * SEQ_LIMIT
  {
    if k > 0 {
      var e, before := run[k - 1], |ChainOf(run[..k - 1])|;
      RunParts(app, run, k - 1);
      ChainStep(run, k - 1);
      Multiples(before, |e.log|);
      RunFits(app, run, bound, k - 1);
      if k > 1 {
        RunParts(app, run, k - 2);
      }
      var b := bound + before * SEQ_LIMIT;
      assert MediansBelow(e.events, b);
      FramesFit(e.events, |e.start.stakes|, e.start.prevEpoch.time, app.allowed, e.log, b, |e.log|);
      assert e.log[..|e.log|] == e.log;
      InRangeStep(run, k - 1);
    }
  }

  lemma {:induction false} RisingIsIncreasing(genesis: nat, chain: seq<Block>, i: nat, j: nat)
    requires Rising(genesis, chain) && i < j < |chain|
    ensures chain[i].time < chain[j].time
  {
    if i + 1 < j {
      RisingIsIncreasing(genesis, chain, i, j - 1);
    }
    assert Rises(genesis, chain, j);
  }
}

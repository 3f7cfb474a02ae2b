/** What an epoch takes in of the events it is given, as a function of their order, and why parents-first order takes
    in all of them. */
module Feeds {
  import opened Dag
  import opened Sequences
  import opened Stakes
  import opened ForklessCause
  import opened Frames
  import opened ElectionSafety
  import opened VectorSpec
  import Median
  import opened Epochs
  import opened PosetNode

  /** An epoch that started from `start` and knows `d` takes the event in: it is of this epoch and by a validator, its
      parents are known, it passed the earlier checks, and it is acceptable. */
  ghost predicate Welcome(app: Application, start: Start, d: Graph, id: EventId, e: Event) {
    && EpochOf(id) == e.epoch == start.prevEpoch.epoch + 1 && LamportOf(id) == e.lamport && e.frame >= 1
    && Addable(d, |start.stakes|, id, e)
    && Acceptable(d, start.stakes, start.prevEpoch.time, app.digest(start.prevEpoch), id, e)
  }

  ghost function TakeIn(app: Application, start: Start, d: Graph, id: EventId, e: Event): Graph {
    if Welcome(app, start, d, id, e) then d[id := e] else d
  }

  /** The graph of an epoch that was given these events. */
  ghost function Taken(app: Application, start: Start, body: EventId -> Event, ids: seq<EventId>): Graph {
    if ids == [] then map[]
    else
      var id := ids[|ids| - 1];
      TakeIn(app, start, Taken(app, start, body, ids[..|ids| - 1]), id, body(id))
  }

  // ---------------------------------------------------------------- the epochs of a run

  /** The feed falls into one stretch for each epoch, and the graph of an epoch is what it took in of its stretch. */
  ghost predicate Fed(app: Application, body: EventId -> Event, feed: seq<EventId>, run: seq<Epoch>, cuts: seq<nat>) {
    && |cuts| == |run| + 1 && cuts[0] == 0
    && forall k: nat {:trigger FedEpoch(app, body, feed, run, cuts, k)} ::
         k < |run| ==> FedEpoch(app, body, feed, run, cuts, k)
  }

  ghost predicate FedEpoch(app: Application, body: EventId -> Event, feed: seq<EventId>, run: seq<Epoch>,
      cuts: seq<nat>, k: nat)
    requires k < |run| && |cuts| == |run| + 1
  {
    && cuts[k] <= cuts[k + 1] <= |feed|
    && run[k].events == Taken(app, run[k].start, body, feed[cuts[k]..cuts[k + 1]])
  }

  /** One event more for the last epoch. */
  lemma FedOne(app: Application, body: EventId -> Event, feed: seq<EventId>, run: seq<Epoch>, cuts: seq<nat>,
      run': seq<Epoch>)
    requires Fed(app, body, feed, run, cuts) && run != [] && cuts[|run|] < |feed|
    requires |run'| == |run| && run'[..|run| - 1] == run[..|run| - 1] && run'[|run| - 1].start == run[|run| - 1].start
    requires var id, e := feed[cuts[|run|]], run[|run| - 1];
      run'[|run| - 1].events == TakeIn(app, e.start, e.events, id, body(id))
    ensures Fed(app, body, feed, run', cuts[|run| := cuts[|run|] + 1])
  {
    var m, i := |run| - 1, cuts[|run|];
    var cuts' := cuts[|run| := i + 1];
    forall k: nat | k < |run'|
      ensures FedEpoch(app, body, feed, run', cuts', k)
    {
      assert FedEpoch(app, body, feed, run, cuts, k);
      if k < m {
        assert run'[k] == run'[..m][k] && run[k] == run[..m][k];
      } else {
        var longer := feed[cuts[m]..i + 1];
        assert longer[..|longer| - 1] == feed[cuts[m]..i] && longer[|longer| - 1] == feed[i];
      }
    }
  }

  /** And the next epoch, which has not been given any. */
  lemma FedSeal(app: Application, body: EventId -> Event, feed: seq<EventId>, run: seq<Epoch>, cuts: seq<nat>, e: Epoch)
    requires Fed(app, body, feed, run, cuts) && cuts[|run|] <= |feed| && e.events == map[]
    ensures Fed(app, body, feed, run + [e], cuts + [cuts[|run|]])
  {
    var run', cuts' := run + [e], cuts + [cuts[|run|]];
    forall k: nat | k < |run'|
      ensures FedEpoch(app, body, feed, run', cuts', k)
    {
      if k < |run| {
        assert FedEpoch(app, body, feed, run, cuts, k);
      } else {
        assert feed[cuts'[k]..cuts'[k + 1]] == [];
      }
    }
  }

  // ---------------------------------------------------------------- parents first

  /** All events of the graph are of the epoch and obey its rules. */
  ghost predicate Lawful(app: Application, start: Start, whole: Graph, body: EventId -> Event) {
    && FramesOk(whole, start.stakes)
    && forall id {:trigger LawfulEvent(app, start, whole, body, id)} ::
         id in whole ==> LawfulEvent(app, start, whole, body, id)
  }

  ghost predicate LawfulEvent(app: Application, start: Start, whole: Graph, body: EventId -> Event, id: EventId)
    requires id in whole
  {
    var e := whole[id];
    && e == body(id) && EpochOf(id) == e.epoch == start.prevEpoch.epoch + 1 && LamportOf(id) == e.lamport
    && EpochHashOk(e, app.digest(start.prevEpoch)) && NoCheaterParents(whole, e)
    && Median.IsMedian(Median.Entries(whole, start.stakes, id, start.prevEpoch.time), e.medianTime)
  }

  /** Growing keeps an event lawful. */
  lemma LawfulStays(app: Application, start: Start, d: Graph, body: EventId -> Event, id: EventId, x: EventId)
    requires WellFormed(d, |start.stakes|) && Addable(d, |start.stakes|, id, body(id)) && x in d
    requires LawfulEvent(app, start, d, body, x)
    ensures LawfulEvent(app, start, d[id := body(id)], body, x)
  {
    var n, d', e := |start.stakes|, d[id := body(id)], d[x];
    assert Linked(d, e);
    Median.EntriesStable(d, d', start.stakes, x, start.prevEpoch.time);
    var self := e.SelfParent();
    if self.Some? {
      assert self.value in e.parents;
      forall c: nat
        ensures ForkSeen(d, self.value, c) <==> ForkSeen(d', self.value, c)
      {
        ForkSeenStable(d, d', n, self.value, c);
      }
    }
  }

  /** And a welcome event is lawful. */
  lemma WelcomeIsLawful(app: Application, start: Start, d: Graph, body: EventId -> Event, id: EventId)
    requires Lawful(app, start, d, body) && Welcome(app, start, d, id, body(id))
    ensures Lawful(app, start, d[id := body(id)], body)
  {
    var n, e, d' := |start.stakes|, body(id), d[id := body(id)];
    AddedIsWellFormed(d, n, id, e);
    forall x | x in d'
      ensures LawfulEvent(app, start, d', body, x) && FrameOk(d', start.stakes, x)
    {
      if x != id {
        assert LawfulEvent(app, start, d, body, x) && FrameOk(d, start.stakes, x);
        LawfulStays(app, start, d, body, id, x);
        FrameOkStable(d, d', start.stakes, x);
      } else {
        OwnParents(d, n, id, e);
      }
    }
  }

  lemma OwnParents(d: Graph, n: nat, id: EventId, e: Event)
    requires WellFormed(d, n) && Addable(d, n, id, e) && NoCheaterParents(d, e)
    ensures NoCheaterParents(d[id := e], e)
  {
    var self := e.SelfParent();
    if self.Some? {
      assert self.value in e.parents;
      forall c: nat
        ensures ForkSeen(d, self.value, c) <==> ForkSeen(d[id := e], self.value, c)
      {
        ForkSeenStable(d, d[id := e], n, self.value, c);
      }
    }
  }

  /** Whatever an epoch is given, all it takes in is lawful. */
  lemma {:induction false} TakesOnlyLawful(app: Application, start: Start, body: EventId -> Event, ids: seq<EventId>)
    ensures Lawful(app, start, Taken(app, start, body, ids), body)
  {
    if ids != [] {
      var init, id := ids[..|ids| - 1], ids[|ids| - 1];
      TakesOnlyLawful(app, start, body, init);
      var d := Taken(app, start, body, init);
      if Welcome(app, start, d, id, body(id)) {
        WelcomeIsLawful(app, start, d, body, id);
      }
    }
  }

  /** The first event of a validator ties it to one past: where hashes tell records of epochs apart, it is welcome only
      after one of them. */
  lemma FirstEventNamesEpoch(app: Application, start1: Start, d1: Graph, start2: Start, d2: Graph, id: EventId,
      e: Event)
    requires Welcome(app, start1, d1, id, e) && Welcome(app, start2, d2, id, e) && e.seqNum <= 1
    requires forall a, b {:trigger app.digest(a), app.digest(b)} :: app.digest(a) == app.digest(b) ==> a == b
    ensures start1.prevEpoch == start2.prevEpoch
  {
    assert app.digest(start1.prevEpoch) == app.digest(start2.prevEpoch);
  }

  /** Every event comes once, and after its parents. */
  ghost predicate ParentsFirst(whole: Graph, ids: seq<EventId>) {
    && NoDuplicates(ids)
    && forall i {:trigger ids[i]} :: 0 <= i < |ids| ==>
         ids[i] in whole && forall p :: p in whole[ids[i]].parents ==> p in ids[..i]
  }

  lemma FirstParentsFirst(whole: Graph, ids: seq<EventId>, k: nat)
    requires ParentsFirst(whole, ids) && k <= |ids|
    ensures ParentsFirst(whole, ids[..k])
  {
    forall i | 0 <= i < k
      ensures ids[..k][i] in whole && forall p :: p in whole[ids[..k][i]].parents ==> p in ids[..k][..i]
    {
      assert ids[..k][i] == ids[i] && ids[..k][..i] == ids[..i];
    }
  }

  /** An event of a lawful graph is welcome wherever its parents are. */
  lemma LawfulIsWelcome(app: Application, start: Start, whole: Graph, body: EventId -> Event, d: Graph, id: EventId)
    requires Lawful(app, start, whole, body) && Extends(d, whole) && WellFormed(d, |start.stakes|)
    requires id in whole && id !in d && forall p :: p in whole[id].parents ==> p in d
    ensures Welcome(app, start, d, id, body(id)) && body(id) == whole[id]
    ensures WellFormed(d[id := whole[id]], |start.stakes|) && Extends(d[id := whole[id]], whole)
  {
    var n, e := |start.stakes|, whole[id];
    assert LawfulEvent(app, start, whole, body, id) && FrameOk(whole, start.stakes, id) && Linked(whole, e);
    assert Linked(d, e);
    AddedIsWellFormed(d, n, id, e);
    FrameOkStable(d[id := e], whole, start.stakes, id);
    Median.EntriesStable(d[id := e], whole, start.stakes, id, start.prevEpoch.time);
    var self := e.SelfParent();
    if self.Some? {
      assert self.value in e.parents;
      forall c: nat
        ensures ForkSeen(d, self.value, c) <==> ForkSeen(whole, self.value, c)
      {
        ForkSeenStable(d, whole, n, self.value, c);
      }
    }
  }

  /** In parents-first order, every event of a lawful graph is taken in. */
  lemma {:induction false} TakesAll(app: Application, start: Start, whole: Graph, body: EventId -> Event,
      ids: seq<EventId>)
    requires Lawful(app, start, whole, body) && ParentsFirst(whole, ids)
    ensures Taken(app, start, body, ids).Keys == Members(ids) && Extends(Taken(app, start, body, ids), whole)
    ensures WellFormed(Taken(app, start, body, ids), |start.stakes|)
  {
    if ids != [] {
      var i := |ids| - 1;
      var init, id := ids[..i], ids[i];
      FirstParentsFirst(whole, ids, i);
      TakesAll(app, start, whole, body, init);
      assert ids == init + [id];
      LawfulIsWelcome(app, start, whole, body, Taken(app, start, body, init), id);
      assert Members(ids) == Members(init) + {id};
    }
  }

  /** Of another epoch nothing is taken in. */
  lemma {:induction false} TakesNone(app: Application, start: Start, body: EventId -> Event, ids: seq<EventId>)
    requires forall i {:trigger ids[i]} :: 0 <= i < |ids| ==> body(ids[i]).epoch != start.prevEpoch.epoch + 1
    ensures Taken(app, start, body, ids) == map[]
  {
    if ids != [] {
      TakesNone(app, start, body, ids[..|ids| - 1]);
      assert body(ids[|ids| - 1]).epoch != start.prevEpoch.epoch + 1;
    }
  }

  // ---------------------------------------------------------------- forkers

  lemma FewerForkers(small: Graph, big: Graph, stakes: seq<nat>)
    requires Extends(small, big) && FewForkers(big, stakes)
    ensures FewForkers(small, stakes)
  {
    forall c: nat | Forked(small, c)
      ensures Forked(big, c)
    {
      var x, y :| IsFork(small, x, y, c);
      assert IsFork(big, x, y, c);
    }
    StakeMonotone(stakes, Forkers(small, |stakes|), Forkers(big, |stakes|), |stakes|);
  }

  lemma NobodyForks(stakes: seq<nat>)
    ensures FewForkers(map[], stakes)
  {
    assert Forkers(map[], |stakes|) == {};
    StakeEmpty(stakes, |stakes|);
  }

  // ---------------------------------------------------------------- a feed of one epoch

  /** What epoch `k` of a run took in of a feed that lists a lawful graph of the first epoch: all it was given, if it is
      the first, and nothing later. */
  lemma EpochsOfFeed(app: Application, start: Start, whole: Graph, body: EventId -> Event, feed: seq<EventId>,
      run: seq<Epoch>, cuts: seq<nat>, k: nat)
    requires Lawful(app, start, whole, body) && ParentsFirst(whole, feed) && Run(app, run) && run[0].start == start
    requires Fed(app, body, feed, run, cuts) && k < |run|
    ensures k == 0 ==> cuts[1] <= |feed| && run[k].events.Keys == Members(feed[..cuts[1]])
    ensures k == 0 ==> Extends(run[k].events, whole)
    ensures k > 0 ==> run[k].events == map[]
  {
    assert FedEpoch(app, body, feed, run, cuts, k);
    if k == 0 {
      assert feed[0..cuts[1]] == feed[..cuts[1]];
      FirstParentsFirst(whole, feed, cuts[1]);
      TakesAll(app, start, whole, body, feed[..cuts[1]]);
    } else {
      EpochNumber(app, run, k);
      var stretch := feed[cuts[k]..cuts[k + 1]];
      forall i | 0 <= i < |stretch|
        ensures body(stretch[i]).epoch != run[k].start.prevEpoch.epoch + 1
      {
        var id := feed[cuts[k] + i];
        assert stretch[i] == id && LawfulEvent(app, start, whole, body, id);
      }
      TakesNone(app, run[k].start, body, stretch);
    }
  }

  lemma {:induction false} EpochNumber(app: Application, run: seq<Epoch>, k: nat)
    requires Run(app, run) && k < |run|
    ensures run[k].start.prevEpoch.epoch == run[0].start.prevEpoch.epoch + k
  {
    if k > 0 {
      EpochNumber(app, run, k - 1);
      RunParts(app, run, k - 1);
    }
  }
}

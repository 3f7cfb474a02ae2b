/** The vector clock object of an epoch: tables with unflushed writes over the flushed ones, the
    branches loaded lazily, and a cache of forkless-cause answers that is never purged on a drop. */
module VectorClock {
  import Folds
  import opened Dag
  import opened ForklessCause
  import opened Vectors
  import opened VectorSpec
  import opened VectorIndex
  import VectorQuery
  import Median

  /** Every cached answer is right about the graph of all events. */
  ghost predicate CacheOk(ever: Graph, stakes: seq<nat>, cache: map<(EventId, EventId), bool>) {
    forall a, b {:trigger (a, b) in cache} ::
      (a, b) in cache ==> a in ever && (cache[(a, b)] <==> ForklessCaused(ever, stakes, a, b))
  }

  /** Flushed events are current ones, current ones were added, and the cache is right about all that were ever added;
      folded. */
  ghost predicate PastOk(disk: Graph, live: Graph, ever: Graph, stakes: seq<nat>,
      cache: map<(EventId, EventId), bool>) {
    forall u {:trigger Folds.Open(u)} :: Folds.Open(u) && u == Folds.Past ==>
      && WellFormed(ever, |stakes|) && Extends(disk, live) && Extends(live, ever)
      && CacheOk(ever, stakes, cache)
  }

  class Index {
    const stakes: seq<nat>
    var bi: Option<Branches>
    var db: Tables
    var disk: Tables
    var cache: map<(EventId, EventId), bool>
    /** Every event that was ever added, the dropped ones included. */
    ghost var ever: Graph

    /** The tables are exact before and after the unflushed writes, and every cached answer is right. */
    ghost predicate Valid()
      reads this
    {
      && Faithful(db, |stakes|, Current(bi, db, |stakes|))
      && Faithful(disk, |stakes|, Current(None, disk, |stakes|))
      && PastOk(disk.events, db.events, ever, stakes, cache)
    }

    constructor (stakes: seq<nat>)
      ensures Valid() && this.stakes == stakes
      ensures db == disk == EMPTY && cache == map[] && ever == map[]
    {
      this.stakes := stakes;
      bi := None;
      db, disk, cache, ever := EMPTY, EMPTY, map[], map[];
      InitialIsExact(|stakes|);
    }

    method InitBranchesInfo() returns (info: Branches)
      requires Valid()
      modifies this`bi
      ensures Valid() && bi == Some(info) && info == old(Current(bi, db, |stakes|))
    {
      if bi.None? {
        if db.branches.Some? {
          bi := db.branches;
        } else {
          info := NewInitialBranches(|stakes|);
          bi := Some(info);
        }
      }
      info := bi.value;
    }

    /** Adds an event whose parents were added before; an event that is known is left alone. */
    method Add(id: EventId, e: Event)
      requires Valid() && (id in db.events || Addable(db.events, |stakes|, id, e))
      requires id in ever ==> ever[id] == e
      modifies this
      ensures Valid()
      ensures db.events == old(db.events)[id := e] && ever == old(ever)[id := e]
      ensures disk == old(disk) && cache == old(cache)
    {
      assert Folds.Open(Folds.Past);
      if id in db.highest {
        assert db.events[id] == e;
        assert db.events[id := e] == db.events && ever[id := e] == ever;
        return;
      }
      AddNew(id, e);
    }

    method AddNew(id: EventId, e: Event)
      requires Valid() && Addable(db.events, |stakes|, id, e)
      requires id in ever ==> ever[id] == e
      modifies this
      ensures Valid()
      ensures db.events == old(db.events)[id := e] && ever == old(ever)[id := e]
      ensures disk == old(disk) && cache == old(cache)
    {
      assert Folds.Open(Folds.Past);
      var info := InitBranchesInfo();
      var info', db' := FillEventVectors(|stakes|, info, db, id, e);
      GrowsEver(ever, db.events, stakes, id, e, cache);
      DiskStays(disk.events, db.events, id, e);
      bi, db := Some(info'), db';
      ever := ever[id := e];
    }

    method Flush()
      requires Valid()
      modifies this`db, this`disk
      ensures Valid() && db.events == disk.events == old(db.events)
    {
      assert Folds.Open(Folds.Past);
      if bi.Some? {
        Refile(db, |stakes|, bi.value);
        db := db.(branches := bi);
      }
      disk := db;
    }

    method DropNotFlushed()
      requires Valid()
      modifies this`bi, this`db
      ensures Valid() && db == disk && bi == None
    {
      assert Folds.Open(Folds.Past);
      bi := None;
      db := disk;
    }

    /** The cached answer is the answer, whatever was added or dropped since it was computed. */
    method ForklessCause(a: EventId, b: EventId) returns (yes: bool)
      requires Valid() && a in db.events && b in db.events
      modifies this`cache, this`bi
      ensures Valid()
      ensures yes <==> ForklessCaused(db.events, stakes, a, b)
    {
      if (a, b) in cache {
        CachedIsRight(disk.events, db.events, ever, stakes, cache, a, b);
        return cache[(a, b)];
      }
      var info := InitBranchesInfo();
      yes := VectorQuery.Causes(stakes, info, db, a, b);
      AnswerIsRight(disk.events, db.events, ever, stakes, cache, a, b, yes);
      cache := cache[(a, b) := yes];
    }

    /** An entry may leave the cache at any time. */
    method Evict(a: EventId, b: EventId)
      requires Valid()
      modifies this`cache
      ensures Valid() && cache == old(cache) - {(a, b)}
    {
      assert Folds.Open(Folds.Past);
      cache := cache - {(a, b)};
    }

    method NoCheaters(self: Option<EventId>, options: seq<EventId>) returns (filtered: seq<EventId>)
      requires Valid() && (self.Some? ==> self.value in db.events)
      requires forall o :: o in options ==> o in db.events
      modifies this`bi
      ensures Valid()
      ensures filtered == if self.None? then options else VectorQuery.Honest(db.events, self.value, options)
    {
      var info := InitBranchesInfo();
      filtered := VectorQuery.NoCheaters(|stakes|, info, db, self, options);
    }

    method HighestBeforeAllBranches(id: EventId) returns (vec: seq<BranchSeq>, times: seq<nat>)
      requires Valid() && id in db.events
      modifies this`bi
      ensures Valid()
      ensures forall c: nat :: c < |stakes| ==> VectorQuery.TopOk(db.events, id, c, SeqAt(vec, c), NumAt(times, c))
    {
      var info := InitBranchesInfo();
      vec, times := VectorQuery.AllBranches(|stakes|, info, db, id);
    }

    method MedianTime(id: EventId, genesis: nat) returns (median: nat)
      requires Valid() && id in db.events
      modifies this`bi
      ensures Valid()
      ensures Median.IsMedian(Median.Entries(db.events, stakes, id, genesis), median)
    {
      var info := InitBranchesInfo();
      median := Median.MedianTime(stakes, info, db, id, genesis);
    }
  }

  lemma CachedIsRight(disk: Graph, live: Graph, ever: Graph, stakes: seq<nat>, cache: map<(EventId, EventId), bool>,
      a: EventId, b: EventId)
    requires PastOk(disk, live, ever, stakes, cache) && WellFormed(live, |stakes|) && a in live && (a, b) in cache
    ensures cache[(a, b)] <==> ForklessCaused(live, stakes, a, b)
  {
    assert Folds.Open(Folds.Past);
    CausedStable(live, ever, stakes, a, b);
  }

  lemma AnswerIsRight(disk: Graph, live: Graph, ever: Graph, stakes: seq<nat>, cache: map<(EventId, EventId), bool>,
      a: EventId, b: EventId, yes: bool)
    requires PastOk(disk, live, ever, stakes, cache) && WellFormed(live, |stakes|) && a in live
    requires (yes <==> ForklessCaused(live, stakes, a, b))
    ensures PastOk(disk, live, ever, stakes, cache[(a, b) := yes])
  {
    assert Folds.Open(Folds.Past);
    CausedStable(live, ever, stakes, a, b);
  }

  /** Writing the branches down does not touch the vectors. */
  lemma Refile(t: Tables, n: nat, bi: Branches)
    requires Faithful(t, n, bi)
    ensures Faithful(t.(branches := Some(bi)), n, bi)
  {
    Unfold(t, n, bi);
    Fold(t.(branches := Some(bi)), n, bi);
  }

  lemma DiskStays(disk: Graph, live: Graph, id: EventId, e: Event)
    requires Extends(disk, live) && id !in live
    ensures Extends(disk, live[id := e])
  {
  }

  /** Old answers stay right when an event, new or re-added, joins the graph of all events. */
  lemma GrowsEver(ever: Graph, live: Graph, stakes: seq<nat>, id: EventId, e: Event,
      cache: map<(EventId, EventId), bool>)
    requires WellFormed(ever, |stakes|) && Extends(live, ever) && Addable(live, |stakes|, id, e)
    requires id in ever ==> ever[id] == e
    requires CacheOk(ever, stakes, cache)
    ensures WellFormed(ever[id := e], |stakes|) && Extends(live[id := e], ever[id := e])
    ensures CacheOk(ever[id := e], stakes, cache)
  {
    if id in ever {
      assert ever[id := e] == ever;
    } else {
      assert Linked(ever, e);
      AddedIsWellFormed(ever, |stakes|, id, e);
      var grown := ever[id := e];
      forall a, b | (a, b) in cache
        ensures a in ever && (cache[(a, b)] <==> ForklessCaused(grown, stakes, a, b))
      {
        assert ForklessCaused(ever, stakes, a, b) <==> cache[(a, b)];
        CausedStable(ever, grown, stakes, a, b);
      }
    }
  }
}

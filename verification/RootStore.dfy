/** The roots of an epoch, with a cached list per frame (poset/store_roots.go). */
module RootStore {
  import Folds
  import opened Dag
  import opened Sequences

  /** A root with its slot (election.RootAndSlot). */
  datatype Root = Root(frame: nat, validator: nat, id: EventId)

  /** `list` holds exactly the roots of frame `f`, each once, in some order. */
  ghost predicate ListsFrame(table: set<Root>, f: nat, list: seq<Root>) {
    && NoDuplicates(list)
    && forall r: Root :: r in list <==> r in table && r.frame == f
  }

  lemma ListedTwice(table: set<Root>, r: Root, list: seq<Root>)
    requires ListsFrame(table, r.frame, list) && r in table
    ensures !ListsFrame(table + {r}, r.frame, list + [r])
  {
    var i :| 0 <= i < |list| && list[i] == r;
    assert (list + [r])[i] == (list + [r])[|list|];
  }

  /** A cached list, appended to or read from the table, never differs from the table but in order. */
  ghost predicate CacheOk(table: set<Root>, cache: map<nat, seq<Root>>) {
    forall f :: f in cache ==> ListsFrame(table, f, cache[f])
  }

  class Store {
    var table: set<Root>
    var cache: map<nat, seq<Root>>

    /** `CacheOk`, folded. */
    ghost predicate Valid()
      reads this
    {
      forall u {:trigger Folds.Open(u)} :: Folds.Open(u) && u == Folds.Lists ==> CacheOk(table, cache)
    }

    constructor ()
      ensures Valid() && table == {} && cache == map[]
    {
      table, cache := {}, map[];
    }

    /** Lists a root. A root that is listed already would get into a cached list twice, and nowhere else. */
    method AddRoot(r: Root)
      requires Valid()
      modifies this
      ensures table == old(table) + {r}
      ensures cache == if r.frame in old(cache) then old(cache)[r.frame := old(cache)[r.frame] + [r]] else old(cache)
      ensures Valid() <==> r !in old(table) || r.frame !in old(cache)
    {
      assert Folds.Open(Folds.Lists);
      table := table + {r};
      if r.frame in cache {
        cache := cache[r.frame := cache[r.frame] + [r]];
      }
      forall f | f in cache && (f != r.frame || r !in old(table))
        ensures ListsFrame(table, f, cache[f])
      {
        assert ListsFrame(old(table), f, old(cache)[f]);
      }
      if r in old(table) && r.frame in old(cache) {
        ListedTwice(old(table), r, old(cache)[r.frame]);
        assert !ListsFrame(table, r.frame, cache[r.frame]);
      }
    }

    method GetFrameRoots(f: nat) returns (list: seq<Root>)
      requires Valid()
      modifies this`cache
      ensures Valid() && ListsFrame(table, f, list)
    {
      assert Folds.Open(Folds.Lists);
      if f in cache {
        return cache[f];
      }
      list := [];
      var rest := set r | r in table && r.frame == f;
      while rest != {}
        invariant rest <= set r | r in table && r.frame == f
        invariant NoDuplicates(list)
        invariant forall r: Root :: r in list <==> r in table && r.frame == f && r !in rest
        decreases |rest|
      {
        var r :| r in rest;
        list := list + [r];
        rest := rest - {r};
      }
      cache := cache[f := list];
    }

    /** The cache may lose a list at any time. */
    method Evict(f: nat)
      requires Valid()
      modifies this`cache
      ensures Valid()
    {
      assert Folds.Open(Folds.Lists);
      cache := cache - {f};
    }
  }
}

/** The index of log records by topic (topicsdb/topicsdb.go, search_sync.go, record.go). */
module TopicIndex {
  import Folds
  import opened TopicKeys

  /** The three tables of the index. */
  datatype Tables = Tables(topic: map<Bytes, nat>, other: map<Bytes, Hash>, logrec: map<Bytes, Bytes>)

  function Fields(l: Log): Bytes {
    l.address + l.blockHash + l.data
  }

  predicate Storable(l: Log) {
    l.block < UINT_LIMIT && l.logIndex < UINT_LIMIT && |l.topics| <= MAX_COUNT
  }

  ghost predicate DistinctIds(logs: set<Log>) {
    forall l, m :: l in logs && m in logs && IdOf(l) == IdOf(m) ==> l == m
  }

  ghost predicate IsTopicKey(l: Log, pos: nat, key: Bytes) {
    pos < |l.topics| && pos < 256 && key == TopicKey(l.topics[pos], pos, IdOf(l))
  }

  ghost predicate IsOtherKey(l: Log, pos: nat, key: Bytes) {
    pos < |l.topics| && pos < 256 && key == OtherKey(IdOf(l), pos)
  }

  /** The record is in all three tables, up to its `k`-th topic. */
  ghost predicate Recorded(t: Tables, l: Log, k: nat) {
    && (forall pos: nat, key {:trigger IsTopicKey(l, pos, key)} :: IsTopicKey(l, pos, key) && pos < k ==>
        key in t.topic && t.topic[key] == |l.topics|)
    && (forall pos: nat, key {:trigger IsOtherKey(l, pos, key)} :: IsOtherKey(l, pos, key) && pos < k ==>
        key in t.other && t.other[key] == l.topics[pos])
  }

  /** Every entry of the first two tables belongs to a record. */
  ghost predicate NothingElse(t: Tables, logs: set<Log>) {
    && (forall key :: key in t.topic ==> exists l, pos: nat :: l in logs && IsTopicKey(l, pos, key))
    && (forall key :: key in t.other ==> exists l, pos: nat :: l in logs && IsOtherKey(l, pos, key))
  }

  /** The tables hold exactly the records. */
  ghost predicate TablesOk(t: Tables, logs: set<Log>) {
    && (forall l :: l in logs ==>
          Storable(l) && Recorded(t, l, |l.topics|) && IdOf(l) in t.logrec && t.logrec[IdOf(l)] == Fields(l))
    && DistinctIds(logs) && NothingElse(t, logs)
  }

  /** `TablesOk`, folded so that users do not carry it around. */
  ghost predicate Stored(t: Tables, logs: set<Log>) {
    forall u {:trigger Folds.Open(u)} :: Folds.Open(u) && u == Folds.Topics ==> TablesOk(t, logs)
  }

  function PutTopic(t: Tables, l: Log, pos: nat): Tables
    requires pos < |l.topics| <= MAX_COUNT
  {
    t.(topic := t.topic[TopicKey(l.topics[pos], pos, IdOf(l)) := |l.topics|],
        other := t.other[OtherKey(IdOf(l), pos) := l.topics[pos]])
  }

  /** Keys of records with different ids, or of different positions, differ. */
  lemma KeysDiffer(l: Log, pos: nat, key: Bytes, m: Log, pos': nat, key': Bytes)
    requires Storable(l) && Storable(m) && (IdOf(l) != IdOf(m) || pos != pos')
    ensures IsTopicKey(l, pos, key) && IsTopicKey(m, pos', key') ==> key != key'
    ensures IsOtherKey(l, pos, key) && IsOtherKey(m, pos', key') ==> key != key'
  {
    if IsTopicKey(l, pos, key) && IsTopicKey(m, pos', key') {
      TopicKeyParts(l.topics[pos], pos, IdOf(l), m.topics[pos'], pos');
      TopicKeyParts(m.topics[pos'], pos', IdOf(m), m.topics[pos'], pos');
    }
    if IsOtherKey(l, pos, key) && IsOtherKey(m, pos', key') {
      OtherKeyParts(IdOf(l), pos, IdOf(m));
      OtherKeyParts(IdOf(m), pos', IdOf(m));
    }
  }

  /** One more topic of record `l`; what other records have stays. */
  lemma PutKeeps(t: Tables, l: Log, pos: nat, m: Log, k: nat)
    requires Storable(l) && Storable(m) && pos < |l.topics| && Recorded(t, m, k)
    requires IdOf(l) == IdOf(m) ==> l == m
    ensures Recorded(PutTopic(t, l, pos), m, k)
    ensures l == m && k == pos ==> Recorded(PutTopic(t, l, pos), m, pos + 1)
  {
    var t' := PutTopic(t, l, pos);
    forall p: nat, key | (IsTopicKey(m, p, key) || IsOtherKey(m, p, key)) && (p < k || (l == m && p == pos))
      ensures IsTopicKey(m, p, key) ==> key in t'.topic && t'.topic[key] == |m.topics|
      ensures IsOtherKey(m, p, key) ==> key in t'.other && t'.other[key] == m.topics[p]
    {
      if l != m || p != pos {
        KeysDiffer(m, p, key, l, pos, TopicKey(l.topics[pos], pos, IdOf(l)));
        KeysDiffer(m, p, key, l, pos, OtherKey(IdOf(l), pos));
      }
    }
  }

  lemma PutIsKnown(t: Tables, l: Log, pos: nat, logs: set<Log>)
    requires Storable(l) && pos < |l.topics| && NothingElse(t, logs) && l in logs
    ensures NothingElse(PutTopic(t, l, pos), logs)
  {
    assert IsTopicKey(l, pos, TopicKey(l.topics[pos], pos, IdOf(l))) && IsOtherKey(l, pos, OtherKey(IdOf(l), pos));
  }

  /** The tables while the topics of `l` are written, up to the `k`-th. */
  ghost predicate Writing(t: Tables, logs: set<Log>, l: Log, k: nat) {
    && Storable(l) && NothingElse(t, logs + {l}) && Recorded(t, l, k)
    && (forall m :: m in logs ==> Storable(m) && Recorded(t, m, |m.topics|) && (IdOf(m) == IdOf(l) ==> m == l))
  }

  lemma WritingStarts(t: Tables, logs: set<Log>, l: Log)
    requires TablesOk(t, logs) && Storable(l) && forall m :: m in logs && IdOf(m) == IdOf(l) ==> m == l
    ensures Writing(t, logs, l, 0)
  {
    forall key | key in t.topic
      ensures exists m, pos: nat :: m in logs + {l} && IsTopicKey(m, pos, key)
    {
      var m, pos: nat :| m in logs && IsTopicKey(m, pos, key);
      assert m in logs + {l};
    }
    forall key | key in t.other
      ensures exists m, pos: nat :: m in logs + {l} && IsOtherKey(m, pos, key)
    {
      var m, pos: nat :| m in logs && IsOtherKey(m, pos, key);
      assert m in logs + {l};
    }
  }

  lemma WritingGoesOn(t: Tables, logs: set<Log>, l: Log, pos: nat)
    requires Writing(t, logs, l, pos) && pos < |l.topics|
    ensures Writing(PutTopic(t, l, pos), logs, l, pos + 1)
  {
    PutIsKnown(t, l, pos, logs + {l});
    PutKeeps(t, l, pos, l, pos);
    forall m | m in logs
      ensures Recorded(PutTopic(t, l, pos), m, |m.topics|)
    {
      PutKeeps(t, l, pos, m, |m.topics|);
    }
  }

  lemma WritingEnds(t: Tables, logs: set<Log>, l: Log)
    requires Writing(t, logs, l, |l.topics|) && DistinctIds(logs)
    requires forall m :: m in logs ==> IdOf(m) in t.logrec && t.logrec[IdOf(m)] == Fields(m)
    ensures TablesOk(t.(logrec := t.logrec[IdOf(l) := Fields(l)]), logs + {l})
  {
    var t' := t.(logrec := t.logrec[IdOf(l) := Fields(l)]);
    forall m | m in logs + {l}
      ensures Recorded(t', m, |m.topics|)
    {
      assert Recorded(t, m, |m.topics|);
    }
  }

  method WriteTopics(t: Tables, ghost logs: set<Log>, l: Log) returns (t': Tables)
    requires Writing(t, logs, l, 0)
    ensures Writing(t', logs, l, |l.topics|) && t'.logrec == t.logrec
  {
    t' := t;
    for pos := 0 to |l.topics|
      invariant Writing(t', logs, l, pos) && t'.logrec == t.logrec
    {
      WritingGoesOn(t', logs, l, pos);
      t' := PutTopic(t', l, pos);
    }
  }

  class Index {
    var tables: Tables
    ghost var logs: set<Log>

    ghost predicate Valid()
      reads this
    {
      Stored(tables, logs)
    }

    constructor ()
      ensures Valid() && logs == {}
    {
      tables, logs := Tables(map[], map[], map[]), {};
    }

    /** Push of one record; pushing a record twice changes nothing. */
    method Push(l: Log) returns (ok: bool)
      requires Valid() && l.block < UINT_LIMIT && l.logIndex < UINT_LIMIT
      requires forall m :: m in logs && IdOf(m) == IdOf(l) ==> m == l
      modifies this
      ensures Valid() && (ok <==> |l.topics| <= MAX_COUNT)
      ensures logs == if ok then old(logs) + {l} else old(logs)
    {
      if |l.topics| > MAX_COUNT {
        return false;
      }
      assert Folds.Open(Folds.Topics);
      WritingStarts(tables, logs, l);
      var t := WriteTopics(tables, logs, l);
      WritingEnds(t, logs, l);
      tables := t.(logrec := t.logrec[IdOf(l) := Fields(l)]);
      logs := logs + {l};
      ok := true;
    }
  }
}

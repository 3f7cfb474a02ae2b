/** Searching the topic index by counting matches (topicsdb/search_sync.go, record.go). */
module TopicSearch {
  import Folds
  import opened Sequences
  import opened TopicKeys
  import opened TopicIndex

  /** How many conditions a found record still has to meet (logrecBuilder). */
  datatype Builder = Builder(conditions: nat, topicsCount: nat) {
    function MatchedWith(count: nat): Builder {
      if conditions > count then this.(conditions := conditions - count) else this.(conditions := 0)
    }

    predicate IsMatched() {
      conditions == 0
    }
  }

  predicate HasTopic(l: Log, pos: nat, topic: Hash) {
    pos < |l.topics| && l.topics[pos] == topic
  }

  /** Hits among the first `a` alternatives for one position; a repeated alternative hits twice. */
  function AltHits(l: Log, pos: nat, cond: seq<Hash>, a: nat): nat
    requires a <= |cond|
  {
    if a == 0 then 0 else AltHits(l, pos, cond, a - 1) + (if HasTopic(l, pos, cond[a - 1]) then 1 else 0)
  }

  /** Hits at the first `p` positions. */
  function Score(l: Log, topics: seq<seq<Hash>>, p: nat): nat
    requires p <= |topics|
  {
    if p == 0 then 0 else Score(l, topics, p - 1) + AltHits(l, p - 1, topics[p - 1], |topics[p - 1]|)
  }

  function Wildcards(topics: seq<seq<Hash>>, p: nat): nat
    requires p <= |topics|
  {
    if p == 0 then 0 else Wildcards(topics, p - 1) + (if topics[p - 1] == [] then 1 else 0)
  }

  function Open(c: nat, h: nat): nat {
    if h >= c then 0 else c - h
  }

  /** A record with hits has a builder that counted them, a record without has none. */
  ghost predicate Counted(recs: map<Bytes, Builder>, l: Log, c: nat, h: nat) {
    if h == 0 then IdOf(l) !in recs
    else IdOf(l) in recs && recs[IdOf(l)] == Builder(Open(c, h), |l.topics|)
  }

  ghost predicate OnlyKnown(recs: map<Bytes, Builder>, logs: set<Log>) {
    forall id :: id in recs ==> exists l :: l in logs && IdOf(l) == id
  }

  /** All records are counted, `h` hits each. */
  ghost predicate AllCounted(recs: map<Bytes, Builder>, logs: set<Log>, c: nat, h: map<Log, nat>) {
    h.Keys == logs && OnlyKnown(recs, logs) && forall l :: l in logs ==> Counted(recs, l, c, h[l])
  }

  lemma OneMoreHit(t: Tables, recs: map<Bytes, Builder>, logs: set<Log>, c: nat, h: map<Log, nat>, l: Log,
      recs': map<Bytes, Builder>)
    requires AllCounted(recs, logs, c, h) && Stored(t, logs) && l in logs
    requires var rec := if IdOf(l) in recs then recs[IdOf(l)]
      else Builder(c, |l.topics|); recs' == recs[IdOf(l) := rec.MatchedWith(1)]
    ensures AllCounted(recs', logs, c, h[l := h[l] + 1])
  {
    forall m | m in logs
      ensures Counted(recs', m, c, if m == l then h[l] + 1 else h[m])
    {
      OneRecordHit(t, recs, logs, c, h, l, recs', m);
    }
  }

  lemma OneRecordHit(t: Tables, recs: map<Bytes, Builder>, logs: set<Log>, c: nat, h: map<Log, nat>, l: Log,
      recs': map<Bytes, Builder>, m: Log)
    requires AllCounted(recs, logs, c, h) && Stored(t, logs) && l in logs && m in logs
    requires var rec := if IdOf(l) in recs then recs[IdOf(l)] else Builder(c, |l.topics|);
      recs' == recs[IdOf(l) := rec.MatchedWith(1)]
    ensures Counted(recs', m, c, if m == l then h[l] + 1 else h[m])
  {
    assert Folds.Open(Folds.Topics);
    assert Counted(recs, m, c, h[m]);
    assert m != l ==> IdOf(m) != IdOf(l);
  }

  ghost function Hits(logs: set<Log>, topics: seq<seq<Hash>>, p: nat, a: nat): map<Log, nat>
    requires p < |topics| && a <= |topics[p]|
  {
    map l | l in logs :: Score(l, topics, p) + AltHits(l, p, topics[p], a)
  }

  ghost predicate Progress(recs: map<Bytes, Builder>, logs: set<Log>, topics: seq<seq<Hash>>, p: nat, a: nat) {
    p < |topics| && a <= |topics[p]| && AllCounted(recs, logs, |topics|, Hits(logs, topics, p, a))
  }

  /** The record has the topic at the position, and its key has been visited. */
  ghost predicate Visited(l: Log, pos: Byte, topic: Hash, todo: set<Bytes>) {
    HasTopic(l, pos, topic) && TopicKey(topic, pos, IdOf(l)) !in todo
  }

  /** Hits so far: one more for every record whose key was visited. */
  ghost function VisitedHits(logs: set<Log>, pos: Byte, topic: Hash, todo: set<Bytes>, h: map<Log, nat>): map<Log, nat>
    requires h.Keys == logs
  {
    map l | l in logs :: h[l] + (if Visited(l, pos, topic, todo) then 1 else 0)
  }

  /** A key below the prefix belongs to a record with the topic at the position. */
  lemma KeyOwner(t: Tables, logs: set<Log>, key: Bytes, topic: Hash, pos: Byte) returns (l: Log)
    requires Stored(t, logs) && key in t.topic && topic + [pos] <= key
    ensures l in logs && HasTopic(l, pos, topic) && key == TopicKey(topic, pos, IdOf(l))
    ensures |key| == HASH_SIZE + 1 + ID_SIZE && ExtractId(key) == IdOf(l) && t.topic[key] == |l.topics|
  {
    assert Folds.Open(Folds.Topics);
    var q: nat;
    l, q :| l in logs && IsTopicKey(l, q, key);
    assert Recorded(t, l, |l.topics|);
    TopicKeyParts(l.topics[q], q, IdOf(l), topic, pos);
  }

  /** Before the first key is visited none is, and all are when none is left. */
  lemma VisitBounds(t: Tables, logs: set<Log>, topic: Hash, pos: Byte, l: Log, keys: set<Bytes>)
    requires Stored(t, logs) && l in logs && keys == set k | k in t.topic && topic + [pos] <= k
    ensures !Visited(l, pos, topic, keys)
    ensures Visited(l, pos, topic, {}) <==> HasTopic(l, pos, topic)
  {
    assert Folds.Open(Folds.Topics);
    if HasTopic(l, pos, topic) {
      var key := TopicKey(topic, pos, IdOf(l));
      assert Recorded(t, l, |l.topics|) && IsTopicKey(l, pos, key);
      TopicKeyParts(topic, pos, IdOf(l), topic, pos);
    }
  }

  /** Visiting the key of `l` adds a hit to `l` and to no other record. */
  lemma VisitStep(t: Tables, logs: set<Log>, pos: Byte, topic: Hash, todo: set<Bytes>, h: map<Log, nat>, l: Log,
      key: Bytes)
    requires Stored(t, logs) && h.Keys == logs && l in logs && HasTopic(l, pos, topic)
    requires key == TopicKey(topic, pos, IdOf(l)) && key in todo
    ensures var was := VisitedHits(logs, pos, topic, todo, h);
            VisitedHits(logs, pos, topic, todo - {key}, h) == was[l := was[l] + 1]
  {
    forall m | m in logs
      ensures Visited(m, pos, topic, todo - {key}) <==> m == l || Visited(m, pos, topic, todo)
    {
      VisitOne(t, logs, pos, topic, todo, l, m, key);
    }
  }

  lemma VisitOne(t: Tables, logs: set<Log>, pos: Byte, topic: Hash, todo: set<Bytes>, l: Log, m: Log, key: Bytes)
    requires Stored(t, logs) && l in logs && m in logs && HasTopic(l, pos, topic)
    requires key == TopicKey(topic, pos, IdOf(l)) && key in todo
    ensures Visited(m, pos, topic, todo - {key}) <==> m == l || Visited(m, pos, topic, todo)
  {
    assert Folds.Open(Folds.Topics);
    if m != l {
      TopicKeyParts(topic, pos, IdOf(m), topic, pos);
      TopicKeyParts(topic, pos, IdOf(l), topic, pos);
    }
  }

  lemma VisitEnds(t: Tables, logs: set<Log>, topics: seq<seq<Hash>>, p: nat, a: nat, keys: set<Bytes>)
    requires Stored(t, logs) && p < |topics| <= MAX_COUNT && a < |topics[p]|
    requires keys == set k | k in t.topic && topics[p][a] + [p] <= k
    ensures VisitedHits(logs, p, topics[p][a], keys, Hits(logs, topics, p, a)) == Hits(logs, topics, p, a)
    ensures VisitedHits(logs, p, topics[p][a], {}, Hits(logs, topics, p, a)) == Hits(logs, topics, p, a + 1)
  {
    forall l | l in logs
      ensures !Visited(l, p, topics[p][a], keys)
      ensures Visited(l, p, topics[p][a], {}) <==> HasTopic(l, p, topics[p][a])
    {
      VisitBounds(t, logs, topics[p][a], p, l, keys);
    }
  }

  /** Walks the keys of one alternative. */
  method MatchAlternative(t: Tables, ghost logs: set<Log>, topics: seq<seq<Hash>>, p: nat, a: nat,
      recs: map<Bytes, Builder>) returns (recs': map<Bytes, Builder>)
    requires Stored(t, logs) && |topics| <= MAX_COUNT && p < |topics| && a < |topics[p]|
    requires Progress(recs, logs, topics, p, a)
    ensures Progress(recs', logs, topics, p, a + 1)
  {
    var topic := topics[p][a];
    var todo := set k | k in t.topic && topic + [p] <= k;
    VisitEnds(t, logs, topics, p, a, todo);
    recs' := WalkKeys(t, logs, |topics|, p, topic, todo, Hits(logs, topics, p, a), recs);
  }

  lemma WalkStep(t: Tables, logs: set<Log>, c: nat, pos: Byte, topic: Hash, todo: set<Bytes>, h: map<Log, nat>,
      recs: map<Bytes, Builder>, key: Bytes)
    requires Stored(t, logs) && h.Keys == logs && key in todo && key in t.topic && topic + [pos] <= key
    requires AllCounted(recs, logs, c, VisitedHits(logs, pos, topic, todo, h))
    ensures |key| == HASH_SIZE + 1 + ID_SIZE
    ensures var rec := if ExtractId(key) in recs then recs[ExtractId(key)] else Builder(c, t.topic[key]);
            AllCounted(recs[ExtractId(key) := rec.MatchedWith(1)], logs, c,
                VisitedHits(logs, pos, topic, todo - {key}, h))
  {
    var l := KeyOwner(t, logs, key, topic, pos);
    var rec := if IdOf(l) in recs then recs[IdOf(l)] else Builder(c, |l.topics|);
    OneMoreHit(t, recs, logs, c, VisitedHits(logs, pos, topic, todo, h), l, recs[IdOf(l) := rec.MatchedWith(1)]);
    VisitStep(t, logs, pos, topic, todo, h, l, key);
  }

  method WalkKeys(t: Tables, ghost logs: set<Log>, c: nat, pos: Byte, topic: Hash, keys: set<Bytes>,
      ghost h: map<Log, nat>, recs: map<Bytes, Builder>)
    returns (recs': map<Bytes, Builder>)
    requires Stored(t, logs) && h.Keys == logs && forall k :: k in keys ==> k in t.topic && topic + [pos] <= k
    requires AllCounted(recs, logs, c, VisitedHits(logs, pos, topic, keys, h))
    ensures AllCounted(recs', logs, c, VisitedHits(logs, pos, topic, {}, h))
  {
    recs' := recs;
    var todo := keys;
    while todo != {}
      invariant todo <= keys && AllCounted(recs', logs, c, VisitedHits(logs, pos, topic, todo, h))
      decreases |todo|
    {
      var key :| key in todo;
      WalkStep(t, logs, c, pos, topic, todo, h, recs', key);
      var id := ExtractId(key);
      var rec := if id in recs' then recs'[id] else Builder(c, t.topic[key]);
      recs' := recs'[id := rec.MatchedWith(1)];
      todo := todo - {key};
    }
  }

  ghost function Scores(logs: set<Log>, topics: seq<seq<Hash>>, p: nat): map<Log, nat>
    requires p <= |topics|
  {
    map l | l in logs :: Score(l, topics, p)
  }

  lemma ScoresAreHits(logs: set<Log>, topics: seq<seq<Hash>>, p: nat)
    requires p < |topics|
    ensures Hits(logs, topics, p, 0) == Scores(logs, topics, p)
    ensures Hits(logs, topics, p, |topics[p]|) == Scores(logs, topics, p + 1)
  {
  }

  method MatchPosition(t: Tables, ghost logs: set<Log>, topics: seq<seq<Hash>>, p: nat, recs: map<Bytes, Builder>)
      returns (recs': map<Bytes, Builder>)
    requires Stored(t, logs) && p < |topics| <= MAX_COUNT && Progress(recs, logs, topics, p, 0)
    ensures Progress(recs', logs, topics, p, |topics[p]|)
  {
    recs' := recs;
    for a := 0 to |topics[p]|
      invariant Progress(recs', logs, topics, p, a)
    {
      recs' := MatchAlternative(t, logs, topics, p, a, recs');
    }
  }

  /** All alternatives at all positions. */
  method CountHits(t: Tables, ghost logs: set<Log>, topics: seq<seq<Hash>>) returns (recs: map<Bytes, Builder>,
      wildcards: nat)
    requires Stored(t, logs) && |topics| <= MAX_COUNT
    ensures AllCounted(recs, logs, |topics|, Scores(logs, topics, |topics|)) && wildcards == Wildcards(topics, |topics|)
  {
    recs, wildcards := map[], 0;
    for p := 0 to |topics|
      invariant AllCounted(recs, logs, |topics|, Scores(logs, topics, p)) && wildcards == Wildcards(topics, p)
    {
      ScoresAreHits(logs, topics, p);
      if |topics[p]| < 1 {
        wildcards := wildcards + 1;
        continue;
      }
      recs := MatchPosition(t, logs, topics, p, recs);
    }
  }

  // ---------------------------------------------------------------- rebuilding a record

  function Zero(): Hash {
    seq(HASH_SIZE, _ => 0)
  }

  /** The topics while some of the other-table keys are still to be read. */
  ghost predicate Rebuilding(l: Log, topics: seq<Hash>, todo: set<Bytes>) {
    && |topics| == |l.topics| <= MAX_COUNT
    && forall pos: nat :: pos < |topics| ==>
      topics[pos] == if OtherKey(IdOf(l), pos) in todo then Zero() else l.topics[pos]
  }

  /** A key below the id belongs to the record and tells one of its topics. */
  lemma OtherOwner(t: Tables, logs: set<Log>, l: Log, key: Bytes)
    requires Stored(t, logs) && l in logs && key in t.other && IdOf(l) <= key
    ensures |key| == ID_SIZE + 1 && ExtractPos(key) < |l.topics| && key == OtherKey(IdOf(l), ExtractPos(key))
    ensures t.other[key] == l.topics[ExtractPos(key)]
  {
    assert Folds.Open(Folds.Topics);
    var m, pos: nat :| m in logs && IsOtherKey(m, pos, key);
    OtherKeyParts(IdOf(m), pos, IdOf(l));
    assert m == l && Recorded(t, l, |l.topics|);
  }

  lemma AllOthersRead(t: Tables, logs: set<Log>, l: Log, keys: set<Bytes>, pos: nat)
    requires Stored(t, logs) && l in logs && pos < |l.topics| && keys == set k | k in t.other && IdOf(l) <= k
    ensures pos < 256 && OtherKey(IdOf(l), pos) in keys
  {
    assert Folds.Open(Folds.Topics);
    assert Recorded(t, l, |l.topics|) && IsOtherKey(l, pos, OtherKey(IdOf(l), pos));
    OtherKeyParts(IdOf(l), pos, IdOf(l));
  }

  lemma RebuildStep(l: Log, topics: seq<Hash>, todo: set<Bytes>, pos: nat)
    requires Rebuilding(l, topics, todo) && pos < |topics| && OtherKey(IdOf(l), pos) in todo
    ensures topics[pos] == Zero() && Rebuilding(l, topics[pos := l.topics[pos]], todo - {OtherKey(IdOf(l), pos)})
  {
    forall p: nat | p < |topics| && p != pos
      ensures OtherKey(IdOf(l), p) != OtherKey(IdOf(l), pos)
    {
      OtherKeyParts(IdOf(l), p, IdOf(l));
      OtherKeyParts(IdOf(l), pos, IdOf(l));
    }
  }

  method FetchTopics(t: Tables, ghost logs: set<Log>, ghost l: Log, id: Bytes, topicsCount: nat)
      returns (topics: seq<Hash>)
    requires Stored(t, logs) && l in logs && id == IdOf(l) && topicsCount == |l.topics| <= MAX_COUNT
    ensures topics == l.topics
  {
    topics := seq(topicsCount, _ => Zero());
    var todo := set k | k in t.other && id <= k;
    forall pos: nat | pos < |l.topics|
      ensures OtherKey(IdOf(l), pos) in todo
    {
      AllOthersRead(t, logs, l, todo, pos);
    }
    while todo != {}
      invariant Rebuilding(l, topics, todo) && forall k :: k in todo ==> k in t.other && id <= k
      decreases |todo|
    {
      var key :| key in todo;
      OtherOwner(t, logs, l, key);
      var pos := ExtractPos(key);
      RebuildStep(l, topics, todo, pos);
      if topics[pos] == Zero() {
        topics := topics[pos := t.other[key]];
      }
      todo := todo - {key};
    }
  }

  /** Reads the stored record back, field by field. */
  method Fetch(t: Tables, ghost logs: set<Log>, ghost l: Log, id: Bytes, topicsCount: nat) returns (res: Log)
    requires Stored(t, logs) && l in logs && id == IdOf(l) && topicsCount == |l.topics| <= MAX_COUNT
    ensures res == l
  {
    var topics := FetchTopics(t, logs, l, id, topicsCount);
    FieldsStored(t, logs, l);
    IdRoundTrip(l.block, l.tx, l.logIndex);
    var buf := t.logrec[id];
    res := Log(BlockNumber(id), TxHash(id), LogIndex(id), buf[..ADDRESS_SIZE],
        buf[ADDRESS_SIZE..ADDRESS_SIZE + HASH_SIZE], topics, buf[ADDRESS_SIZE + HASH_SIZE..]);
  }

  lemma FieldsStored(t: Tables, logs: set<Log>, l: Log)
    requires Stored(t, logs) && l in logs
    ensures Storable(l) && IdOf(l) in t.logrec && |t.logrec[IdOf(l)]| >= ADDRESS_SIZE + HASH_SIZE
    ensures t.logrec[IdOf(l)][..ADDRESS_SIZE] == l.address && t.logrec[IdOf(l)][ADDRESS_SIZE + HASH_SIZE..] == l.data
    ensures t.logrec[IdOf(l)][ADDRESS_SIZE..ADDRESS_SIZE + HASH_SIZE] == l.blockHash
  {
    assert Folds.Open(Folds.Topics);
    assert t.logrec[IdOf(l)] == Fields(l);
    assert Fields(l)[..ADDRESS_SIZE] == l.address && Fields(l)[ADDRESS_SIZE + HASH_SIZE..] == l.data;
    assert Fields(l)[ADDRESS_SIZE..ADDRESS_SIZE + HASH_SIZE] == l.blockHash;
  }

  // ---------------------------------------------------------------- the search

  /** What the search finds: with a hit, and enough hits and wildcards for all conditions. */
  ghost predicate Found(l: Log, topics: seq<seq<Hash>>) {
    var h := Score(l, topics, |topics|);
    h > 0 && h + Wildcards(topics, |topics|) >= |topics|
  }

  /** The result while some of the builders are still to be looked at. */
  ghost predicate Collected(res: seq<Log>, logs: set<Log>, topics: seq<seq<Hash>>, todo: set<Bytes>) {
    NoDuplicates(res) && forall l :: l in res <==> l in logs && Found(l, topics) && IdOf(l) !in todo
  }

  lemma CollectStarts(recs: map<Bytes, Builder>, logs: set<Log>, topics: seq<seq<Hash>>)
    requires AllCounted(recs, logs, |topics|, Scores(logs, topics, |topics|))
    ensures Collected([], logs, topics, recs.Keys)
  {
    forall l | l in logs && Found(l, topics)
      ensures IdOf(l) in recs
    {
      assert Counted(recs, l, |topics|, Score(l, topics, |topics|));
    }
  }

  lemma BuilderOwner(t: Tables, recs: map<Bytes, Builder>, logs: set<Log>, topics: seq<seq<Hash>>, id: Bytes)
      returns (l: Log)
    requires Stored(t, logs) && AllCounted(recs, logs, |topics|, Scores(logs, topics, |topics|)) && id in recs
    ensures l in logs && IdOf(l) == id && recs[id].topicsCount == |l.topics| <= MAX_COUNT
    ensures recs[id].MatchedWith(Wildcards(topics, |topics|)).IsMatched() <==> Found(l, topics)
  {
    assert Folds.Open(Folds.Topics);
    l :| l in logs && IdOf(l) == id;
    assert Counted(recs, l, |topics|, Score(l, topics, |topics|));
  }

  lemma CollectStep(t: Tables, res: seq<Log>, logs: set<Log>, topics: seq<seq<Hash>>, todo: set<Bytes>, l: Log)
    requires Stored(t, logs) && Collected(res, logs, topics, todo) && l in logs && IdOf(l) in todo
    ensures Collected(if Found(l, topics) then res + [l] else res, logs, topics, todo - {IdOf(l)})
  {
    assert Folds.Open(Folds.Topics);
    var res', todo' := if Found(l, topics) then res + [l] else res, todo - {IdOf(l)};
    assert l !in res;
    forall m
      ensures m in res' <==> m in logs && Found(m, topics) && IdOf(m) !in todo'
    {
      assert m in res + [l] <==> m in res || m == l;
    }
  }

  /** fetchSync: the records found, each once, as they were pushed. */
  method FetchSync(t: Tables, ghost logs: set<Log>, topics: seq<seq<Hash>>) returns (ok: bool, res: seq<Log>)
    requires Stored(t, logs)
    ensures ok <==> |topics| <= MAX_COUNT
    ensures ok ==> NoDuplicates(res) && forall l :: l in res <==> l in logs && Found(l, topics)
  {
    if |topics| > MAX_COUNT {
      return false, [];
    }
    var recs, wildcards := CountHits(t, logs, topics);
    ok, res := true, [];
    var todo := recs.Keys;
    CollectStarts(recs, logs, topics);
    while todo != {}
      invariant todo <= recs.Keys && Collected(res, logs, topics, todo)
      decreases |todo|
    {
      var id :| id in todo;
      ghost var l := BuilderOwner(t, recs, logs, topics, id);
      CollectStep(t, res, logs, topics, todo, l);
      var rec := recs[id].MatchedWith(wildcards);
      if rec.IsMatched() {
        var log := Fetch(t, logs, l, id, rec.topicsCount);
        res := res + [log];
      }
      todo := todo - {id};
    }
  }
}

/** Filtering log records (gossip/filters/filter.go): the search by index followed by the filter finds what
    the filter alone finds among all records. */
module LogFilter {
  import opened Sequences
  import opened TopicKeys
  import opened TopicIndex
  import opened TopicSearch

  datatype Query = Query(from: int, to: int, addresses: seq<Address>, topics: seq<seq<Hash>>)

  /** The record meets the condition at one position; an empty condition is a wildcard. */
  predicate PositionOk(l: Log, topics: seq<seq<Hash>>, p: nat)
    requires p < |topics| && p < |l.topics|
  {
    topics[p] == [] || l.topics[p] in topics[p]
  }

  /** What the filter keeps. A negative bound is no bound. */
  predicate Keeps(q: Query, l: Log) {
    && (q.from >= 0 ==> q.from <= l.block)
    && (q.to >= 0 ==> l.block <= q.to)
    && (q.addresses != [] ==> l.address in q.addresses)
    && |q.topics| <= |l.topics|
    && forall p: nat :: p < |q.topics| ==> PositionOk(l, q.topics, p)
  }

  /** The kept records of a list, in its order. */
  function Kept(q: Query, logs: seq<Log>): seq<Log> {
    if logs == [] then []
    else Kept(q, logs[..|logs| - 1]) + (if Keeps(q, logs[|logs| - 1]) then [logs[|logs| - 1]] else [])
  }

  method Includes(addresses: seq<Address>, a: Address) returns (found: bool)
    ensures found <==> a in addresses
  {
    for i := 0 to |addresses|
      invariant a !in addresses[..i]
    {
      if addresses[i] == a {
        return true;
      }
    }
    return false;
  }

  method TopicsOk(l: Log, topics: seq<seq<Hash>>) returns (ok: bool)
    requires |topics| <= |l.topics|
    ensures ok <==> forall p: nat :: p < |topics| ==> PositionOk(l, topics, p)
  {
    for i := 0 to |topics|
      invariant forall p: nat :: p < i ==> PositionOk(l, topics, p)
    {
      var match' := |topics[i]| == 0;
      for j := 0 to |topics[i]|
        invariant match' <==> |topics[i]| == 0 || l.topics[i] in topics[i][..j]
      {
        if l.topics[i] == topics[i][j] {
          match' := true;
          break;
        }
      }
      if !match' {
        assert !PositionOk(l, topics, i);
        return false;
      }
    }
    return true;
  }

  method FilterLogs(q: Query, logs: seq<Log>) returns (ret: seq<Log>)
    ensures ret == Kept(q, logs)
  {
    ret := [];
    for i := 0 to |logs|
      invariant ret == Kept(q, logs[..i])
    {
      var log := logs[i];
      assert logs[..i + 1][..i] == logs[..i];
      if q.from >= 0 && q.from > log.block {
        continue;
      }
      if q.to >= 0 && q.to < log.block {
        continue;
      }
      var included := Includes(q.addresses, log.address);
      if |q.addresses| > 0 && !included {
        continue;
      }
      if |q.topics| > |log.topics| {
        continue;
      }
      var ok := TopicsOk(log, q.topics);
      if !ok {
        continue;
      }
      ret := ret + [log];
    }
    assert logs[..|logs|] == logs;
  }

  lemma {:induction false} KeptAre(q: Query, logs: seq<Log>)
    ensures forall l :: l in Kept(q, logs) <==> l in logs && Keeps(q, l)
    ensures NoDuplicates(logs) ==> NoDuplicates(Kept(q, logs))
  {
    if logs != [] {
      var init, last := logs[..|logs| - 1], logs[|logs| - 1];
      KeptAre(q, init);
      assert forall l :: l in logs <==> l in init || l == last;
      assert NoDuplicates(logs) ==> last !in init;
    }
  }

  // ---------------------------------------------------------------- index and scan

  lemma {:induction false} AtLeastOneHit(l: Log, pos: nat, cond: seq<Hash>, a: nat)
    requires a <= |cond| && pos < |l.topics| && l.topics[pos] in cond[..a]
    ensures AltHits(l, pos, cond, a) >= 1
  {
    if l.topics[pos] != cond[a - 1] {
      assert cond[..a] == cond[..a - 1] + [cond[a - 1]];
      AtLeastOneHit(l, pos, cond, a - 1);
    }
  }

  /** A record that meets all conditions has a hit or a wildcard for each. */
  lemma {:induction false} EnoughHits(l: Log, topics: seq<seq<Hash>>, p: nat)
    requires p <= |topics| <= |l.topics| && forall r: nat :: r < |topics| ==> PositionOk(l, topics, r)
    ensures Score(l, topics, p) + Wildcards(topics, p) >= p
    ensures (exists r :: 0 <= r < p && topics[r] != []) ==> Score(l, topics, p) > 0
  {
    if p > 0 {
      EnoughHits(l, topics, p - 1);
      assert PositionOk(l, topics, p - 1);
      if topics[p - 1] != [] {
        assert topics[p - 1][..|topics[p - 1]|] == topics[p - 1];
        AtLeastOneHit(l, p - 1, topics[p - 1], |topics[p - 1]|);
      }
    }
  }

  predicate IsEmpty(topics: seq<seq<Hash>>) {
    forall p :: 0 <= p < |topics| ==> topics[p] == []
  }

  /** The index never misses: what the filter keeps the search finds, if some position is no wildcard. */
  lemma KeptIsFound(q: Query, l: Log)
    requires Keeps(q, l) && !IsEmpty(q.topics)
    ensures Found(l, q.topics)
  {
    EnoughHits(l, q.topics, |q.topics|);
  }

  /** Without a condition the search finds nothing, which is why such queries do not use the index. */
  lemma {:induction false} EmptyFindsNothing(l: Log, topics: seq<seq<Hash>>, p: nat)
    requires p <= |topics| && IsEmpty(topics)
    ensures Score(l, topics, p) == 0
  {
    if p > 0 {
      EmptyFindsNothing(l, topics, p - 1);
    }
  }

  /** indexedLogs: exactly the pushed records that the filter keeps, each once; a scan of all records, in whatever order
      they are listed, keeps the same. */
  method IndexedLogs(index: Index, q: Query) returns (ok: bool, res: seq<Log>)
    requires index.Valid() && !IsEmpty(q.topics)
    ensures ok <==> |q.topics| <= MAX_COUNT
    ensures ok ==> NoDuplicates(res) && forall l :: l in res <==> l in index.logs && Keeps(q, l)
    ensures ok ==> forall all: seq<Log> {:trigger Kept(q, all)} :: (forall l :: l in all <==> l in index.logs) ==>
      forall l :: l in res <==> l in Kept(q, all)
  {
    var found;
    ok, found := FetchSync(index.tables, index.logs, q.topics);
    if !ok {
      return false, [];
    }
    res := FilterLogs(q, found);
    KeptAre(q, found);
    forall l | l in index.logs && Keeps(q, l)
      ensures l in found
    {
      KeptIsFound(q, l);
    }
    forall all: seq<Log> | forall l :: l in all <==> l in index.logs
      ensures forall l :: l in res <==> l in Kept(q, all)
    {
      KeptAre(q, all);
    }
  }
}

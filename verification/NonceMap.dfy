/** The transactions of one account by nonce (txSortedMap of evmcore/tx_list.go): a map, a heap of its
    keys, and a cached list in nonce order. */
module NonceMap {
  import opened Dag
  import opened NonceHeap
  import opened Sequences
  import Sorting

  datatype Tx = Tx(nonce: nat, gasPrice: nat, cost: nat, gas: nat)

  type Items = map<nat, Tx>

  /** Every transaction stands under its own nonce. */
  ghost predicate Keyed(items: Items) {
    forall n :: n in items ==> items[n].nonce == n
  }

  ghost predicate Increasing(s: seq<Tx>) {
    forall i, j :: 0 <= i < j < |s| ==> s[i].nonce < s[j].nonce
  }

  /** `s` lists the transactions in nonce order. */
  ghost predicate Flat(items: Items, s: seq<Tx>) {
    Increasing(s) && forall tx :: tx in s <==> tx.nonce in items && items[tx.nonce] == tx
  }

  /** `low` are the transactions of `all` below those of `rest`, in nonce order. */
  ghost predicate Split(all: Items, low: seq<Tx>, rest: Items) {
    && Increasing(low)
    && (forall tx :: tx in low ==> tx.nonce in all && all[tx.nonce] == tx && tx.nonce !in rest)
    && (forall n :: n in rest ==> n in all && rest[n] == all[n])
    && (forall n :: n in all ==> n in rest || all[n] in low)
    && (forall tx, n :: tx in low && n in rest ==> tx.nonce < n)
  }

  lemma FlatTail(items: Items, s: seq<Tx>)
    requires Keyed(items) && Flat(items, s) && s != []
    ensures s[0].nonce in items && Flat(items - {s[0].nonce}, s[1..]) && forall n :: n in items ==> s[0].nonce <= n
  {
    assert s[0] in s;
    forall n | n in items
      ensures s[0].nonce <= n
    {
      assert items[n] in s;
    }
    forall tx
      ensures tx in s[1..] <==> tx.nonce in items - {s[0].nonce} && (items - {s[0].nonce})[tx.nonce] == tx
    {
      assert tx in s <==> tx == s[0] || tx in s[1..];
      assert tx in s[1..] ==> tx.nonce != s[0].nonce;
    }
  }

  lemma FirstsAgree(all: Items, low: seq<Tx>, rest: Items, s: seq<Tx>)
    requires Keyed(all) && Split(all, low, rest) && Flat(all, s) && low != []
    ensures s != [] && s[0] == low[0]
  {
    assert low[0] in low && low[0] in s;
    FlatTail(all, s);
    assert s[0] in s;
    assert s[0].nonce in rest || s[0] in low;
  }

  /** The lower part of a split is a prefix of the list, and the list of the rest is what follows. */
  lemma {:induction false} SplitIsPrefix(all: Items, low: seq<Tx>, rest: Items, s: seq<Tx>)
    requires Keyed(all) && Split(all, low, rest) && Flat(all, s)
    ensures |low| <= |s| && s[..|low|] == low && Flat(rest, s[|low|..])
    decreases |low|
  {
    if low == [] {
      assert rest == all;
      assert s[0..] == s;
    } else {
      var x := low[0];
      FirstsAgree(all, low, rest, s);
      FlatTail(all, s);
      SplitTail(all, low, rest);
      SplitIsPrefix(all - {x.nonce}, low[1..], rest, s[1..]);
      PrefixGrows(low, s);
    }
  }

  lemma PrefixGrows(low: seq<Tx>, s: seq<Tx>)
    requires low != [] && s != [] && s[0] == low[0] && low[1..] <= s[1..]
    ensures low <= s && s[1..][|low| - 1..] == s[|low|..]
  {
    assert s == [s[0]] + s[1..] && low == [s[0]] + low[1..];
  }

  lemma SplitTail(all: Items, low: seq<Tx>, rest: Items)
    requires Keyed(all) && Split(all, low, rest) && low != []
    ensures Keyed(all - {low[0].nonce}) && Split(all - {low[0].nonce}, low[1..], rest)
  {
    var x, tail := low[0], low[1..];
    assert x in low;
    forall tx | tx in tail
      ensures tx in low && tx.nonce != x.nonce
    {
      LaterInList(low, tx);
    }
    forall n | n in all && n != x.nonce
      ensures n in rest || all[n] in tail
    {
      InList(low, all[n]);
    }
  }

  lemma LaterInList(low: seq<Tx>, tx: Tx)
    requires Increasing(low) && low != [] && tx in low[1..]
    ensures tx in low && low[0].nonce < tx.nonce
  {
    var i :| 0 <= i < |low| - 1 && low[1..][i] == tx;
    assert low[i + 1] == tx;
  }

  lemma InList(low: seq<Tx>, tx: Tx)
    requires low != []
    ensures tx in low <==> tx == low[0] || tx in low[1..]
  {
    assert low == [low[0]] + low[1..];
  }

  /** A whole list splits off everything, so lists in nonce order are unique. */
  lemma FlatIsUnique(items: Items, s: seq<Tx>, t: seq<Tx>)
    requires Keyed(items) && Flat(items, s) && Flat(items, t)
    ensures s == t
  {
    SplitIsPrefix(items, s, map[], t);
    SplitIsPrefix(items, t, map[], s);
    assert t[..|s|] == s && s[..|t|] == t;
  }

  // ---------------------------------------------------------------- the heap of keys

  /** The heap holds every key exactly once. */
  ghost predicate Indexed(items: Items, index: seq<nat>) {
    IsHeap(index) && multiset(index) == multiset(items.Keys)
  }

  lemma IndexHasKeys(items: Items, index: seq<nat>)
    requires multiset(index) == multiset(items.Keys)
    ensures |index| == |items| && forall n :: n in index <==> n in items
  {
    assert |multiset(index)| == |index| && |multiset(items.Keys)| == |items.Keys| == |items|;
    forall n: nat
      ensures n in index <==> n in items
    {
      assert n in index <==> n in multiset(index);
      assert n in multiset(items.Keys) <==> n in items.Keys;
    }
  }

  lemma IndexWithout(items: Items, index: seq<nat>, n: nat, r: seq<nat>)
    requires n in items && multiset(index) == multiset(items.Keys) && multiset(index) == multiset(r) + multiset{n}
    ensures multiset(r) == multiset((items - {n}).Keys) && |r| == |index| - 1
  {
    assert items.Keys == (items - {n}).Keys + {n};
    assert multiset(items.Keys) == multiset((items - {n}).Keys) + multiset{n};
    assert multiset(r) == multiset(index) - multiset{n};
    assert |multiset(index)| == |multiset(r)| + 1;
  }

  lemma KeysWith(items: Items, tx: Tx)
    requires tx.nonce !in items
    ensures multiset(items[tx.nonce := tx].Keys) == multiset(items.Keys) + multiset{tx.nonce}
  {
    assert items[tx.nonce := tx].Keys == items.Keys + {tx.nonce};
  }

  /** The top of the heap is the least nonce. */
  lemma TopIsLeast(items: Items, index: seq<nat>)
    requires Indexed(items, index) && index != []
    ensures index[0] in items && forall n :: n in items ==> index[0] <= n
  {
    IndexHasKeys(items, index);
    assert index[0] in index;
    forall n | n in items
      ensures index[0] <= n
    {
      var k :| 0 <= k < |index| && index[k] == n;
      MinFirst(index, k);
    }
  }

  /** Taking the least transaction out of the rest lengthens the lower part. */
  lemma SplitGrows(all: Items, low: seq<Tx>, rest: Items, n: nat)
    requires Keyed(all) && Split(all, low, rest) && n in rest && forall m :: m in rest ==> n <= m
    ensures Split(all, low + [rest[n]], rest - {n})
  {
    var low' := low + [rest[n]];
    forall tx
      ensures tx in low' <==> tx in low || tx == rest[n]
    {
    }
  }

  /** All transactions with a nonce from `t` on. */
  function From(items: Items, t: nat): Items {
    map n | n in items && n >= t :: items[n]
  }

  /** Pops the least nonce and deletes its transaction. */
  method TakeLeast(ghost all: Items, ghost low: seq<Tx>, rest: Items, index: seq<nat>) returns (tx: Tx, rest': Items,
      index': seq<nat>)
    requires Keyed(all) && Keyed(rest) && Indexed(rest, index) && Split(all, low, rest) && index != []
    ensures Keyed(rest') && Indexed(rest', index') && Split(all, low + [tx], rest') && tx.nonce == index[0]
    ensures |index'| == |index| - 1
  {
    TopIsLeast(rest, index);
    var nonce;
    nonce, index' := Pop(index);
    IndexWithout(rest, index, nonce, index');
    SplitGrows(all, low, rest, nonce);
    tx, rest' := rest[nonce], rest - {nonce};
  }

  /** Takes the least transactions out while they are below the threshold. */
  method PopBelow(items: Items, index: seq<nat>, threshold: nat) returns (removed: seq<Tx>, items': Items,
      index': seq<nat>)
    requires Keyed(items) && Indexed(items, index)
    ensures Keyed(items') && Indexed(items', index') && Split(items, removed, items')
    ensures items' == From(items, threshold)
  {
    removed, items', index' := [], items, index;
    while |index'| > 0 && index'[0] < threshold
      invariant Keyed(items') && Indexed(items', index') && Split(items, removed, items')
      invariant forall tx :: tx in removed ==> tx.nonce < threshold
      decreases |index'|
    {
      var tx;
      tx, items', index' := TakeLeast(items, removed, items', index');
      removed := removed + [tx];
    }
    PopEnds(items, removed, items', index', threshold);
  }

  lemma PopEnds(items: Items, removed: seq<Tx>, items': Items, index': seq<nat>, threshold: nat)
    requires Keyed(items) && Indexed(items', index') && Split(items, removed, items')
    requires forall tx :: tx in removed ==> tx.nonce < threshold
    requires index' == [] || index'[0] >= threshold
    ensures items' == From(items, threshold)
  {
    IndexHasKeys(items', index');
    if index' != [] {
      TopIsLeast(items', index');
    }
    assert forall n :: n in items && n >= threshold ==> n in items';
  }

  predicate ByNonce(x: Tx, y: Tx) {
    x.nonce <= y.nonce
  }

  ghost predicate DistinctNonces(s: seq<Tx>) {
    forall i, j :: 0 <= i < j < |s| ==> s[i].nonce != s[j].nonce
  }

  lemma {:induction false} AtMostOnce(s: seq<Tx>, tx: Tx)
    requires DistinctNonces(s)
    ensures multiset(s)[tx] <= 1
  {
    if s != [] {
      var init, last := s[..|s| - 1], s[|s| - 1];
      assert s == init + [last];
      AtMostOnce(init, tx);
      if tx == last {
        assert tx !in init;
      }
    }
  }

  lemma Twice<T>(s: seq<T>, i: nat, j: nat)
    requires i < j < |s| && s[i] == s[j]
    ensures multiset(s)[s[i]] >= 2
  {
    assert s == s[..j] + [s[j]] + s[j + 1..];
    assert s[i] in s[..j];
  }

  lemma SortedIsFlat(items: Items, list: seq<Tx>, sorted: seq<Tx>)
    requires DistinctNonces(list) && Sorting.SortedBy(sorted, ByNonce) && multiset(sorted) == multiset(list)
    requires forall tx :: tx in list <==> tx.nonce in items && items[tx.nonce] == tx
    ensures Flat(items, sorted)
  {
    forall tx
      ensures tx in sorted <==> tx in list
    {
      assert tx in sorted <==> tx in multiset(sorted);
      assert tx in list <==> tx in multiset(list);
    }
    forall i, j | 0 <= i < j < |sorted|
      ensures sorted[i].nonce < sorted[j].nonce
    {
      assert ByNonce(sorted[i], sorted[j]) && sorted[i] in sorted && sorted[j] in sorted;
      if sorted[i].nonce == sorted[j].nonce {
        Twice(sorted, i, j);
        AtMostOnce(list, sorted[i]);
        assert false;
      }
    }
  }

  /** `s` holds consecutive nonces. */
  ghost predicate Run(s: seq<Tx>, first: nat) {
    forall i :: 0 <= i < |s| ==> s[i].nonce == first + i
  }

  lemma RunGrows(s: seq<Tx>, first: nat, tx: Tx)
    requires Run(s, first) && tx.nonce == first + |s|
    ensures Run(s + [tx], first)
  {
  }

  /** Takes the longest run of consecutive nonces from the lowest on. */
  method PopRun(items: Items, index: seq<nat>) returns (ready: seq<Tx>, items': Items, index': seq<nat>)
    requires Keyed(items) && Indexed(items, index) && index != []
    ensures Keyed(items') && Indexed(items', index') && Split(items, ready, items')
    ensures ready != [] && Run(ready, index[0]) && index[0] + |ready| !in items'
  {
    var next := index[0];
    ready, items', index' := [], items, index;
    while |index'| > 0 && index'[0] == next
      invariant Keyed(items') && Indexed(items', index') && Split(items, ready, items')
      invariant next == index[0] + |ready| && Run(ready, index[0]) && (ready == [] ==> index' == index)
      decreases |index'|
    {
      var tx;
      tx, items', index' := TakeLeast(items, ready, items', index');
      RunGrows(ready, index[0], tx);
      ready, next := ready + [tx], next + 1;
    }
    RunStops(items, ready, items', index', index[0]);
  }

  lemma RunStops(all: Items, ready: seq<Tx>, rest: Items, index: seq<nat>, first: nat)
    requires Indexed(rest, index) && Split(all, ready, rest) && Run(ready, first) && ready != []
    requires index == [] || index[0] != first + |ready|
    ensures first + |ready| !in rest
  {
    IndexHasKeys(rest, index);
    assert ready[|ready| - 1] in ready && ready[|ready| - 1].nonce == first + |ready| - 1;
    if index != [] {
      TopIsLeast(rest, index);
    }
  }

  // ---------------------------------------------------------------- filtering

  function Without(items: Items, filter: Tx -> bool): Items {
    map n | n in items && !filter(items[n]) :: items[n]
  }

  method Sieve(items: Items, filter: Tx -> bool) returns (removed: seq<Tx>, items': Items)
    requires Keyed(items)
    ensures items' == Without(items, filter) && NoDuplicates(removed)
    ensures forall tx :: tx in removed <==> tx.nonce in items && items[tx.nonce] == tx && filter(tx)
  {
    removed, items' := [], items;
    var todo := items.Keys;
    while todo != {}
      invariant todo <= items.Keys && NoDuplicates(removed)
      invariant forall n :: n in items' <==> n in items && (n in todo || !filter(items[n]))
      invariant forall n :: n in items' ==> items'[n] == items[n]
      invariant forall tx :: tx in removed <==>
        tx.nonce in items && tx.nonce !in todo && items[tx.nonce] == tx && filter(tx)
      decreases |todo|
    {
      var n :| n in todo;
      if filter(items[n]) {
        removed := removed + [items[n]];
        items' := items' - {n};
      }
      todo := todo - {n};
    }
  }

  lemma NothingTaken(items: Items, filter: Tx -> bool, removed: seq<Tx>)
    requires Keyed(items) && removed == [] && forall tx :: tx in removed <==>
      tx.nonce in items && items[tx.nonce] == tx && filter(tx)
    ensures Without(items, filter) == items
  {
    forall n | n in items
      ensures !filter(items[n])
    {
      assert items[n] !in removed;
    }
  }

  method ListKeys(items: Items) returns (keys: seq<nat>)
    ensures multiset(keys) == multiset(items.Keys)
  {
    keys := [];
    var todo := items.Keys;
    while todo != {}
      invariant todo <= items.Keys && multiset(keys) + multiset(todo) == multiset(items.Keys)
      decreases |todo|
    {
      var n :| n in todo;
      assert multiset(todo) == multiset(todo - {n}) + multiset{n};
      keys := keys + [n];
      todo := todo - {n};
    }
  }

  // ---------------------------------------------------------------- capping

  predicate AtMost(x: nat, y: nat) {
    x <= y
  }

  function Reverse(s: seq<Tx>): (r: seq<Tx>)
    ensures |r| == |s|
  {
    if s == [] then [] else Reverse(s[1..]) + [s[0]]
  }

  function Listing(items: Items, keys: seq<nat>): (s: seq<Tx>)
    requires forall n :: n in keys ==> n in items
    ensures |s| == |keys| && forall i :: 0 <= i < |s| ==> s[i] == items[keys[i]]
  {
    seq(|keys|, i requires 0 <= i < |keys| => items[keys[i]])
  }

  ghost predicate StrictKeys(keys: seq<nat>) {
    forall i, j :: 0 <= i < j < |keys| ==> keys[i] < keys[j]
  }

  /** The sorted keys list the map in nonce order. */
  lemma SortedListing(items: Items, index: seq<nat>, sorted: seq<nat>)
    requires Keyed(items) && multiset(index) == multiset(items.Keys) && multiset(sorted) == multiset(index)
    requires Sorting.SortedBy(sorted, AtMost)
    ensures |sorted| == |items| && StrictKeys(sorted) && (forall n :: n in sorted <==> n in items)
    ensures Flat(items, Listing(items, sorted))
  {
    IndexHasKeys(items, sorted);
    forall i, j | 0 <= i < j < |sorted|
      ensures sorted[i] < sorted[j]
    {
      assert AtMost(sorted[i], sorted[j]);
      if sorted[i] == sorted[j] {
        Twice(sorted, i, j);
        assert false;
      }
    }
    ListingIsFlat(items, sorted);
  }

  lemma ListingIsFlat(items: Items, keys: seq<nat>)
    requires Keyed(items) && StrictKeys(keys) && forall n :: n in keys <==> n in items
    ensures Flat(items, Listing(items, keys))
  {
    var s := Listing(items, keys);
    forall tx: Tx | tx.nonce in items && items[tx.nonce] == tx
      ensures tx in s
    {
      var i :| 0 <= i < |keys| && keys[i] == tx.nonce;
      assert s[i] == tx;
    }
    forall i | 0 <= i < |s|
      ensures s[i].nonce == keys[i] && keys[i] in items
    {
      assert keys[i] in keys;
    }
  }

  /** The part of the map under these keys. */
  ghost predicate Restricted(items: Items, keys: seq<nat>, items': Items) {
    (forall n :: n in items' <==> n in keys) && forall n :: n in items' ==> n in items && items'[n] == items[n]
  }

  lemma ReverseStep(s: seq<Tx>, size: nat)
    requires 0 < size <= |s|
    ensures Reverse(s[size - 1..]) == Reverse(s[size..]) + [s[size - 1]]
  {
    assert s[size - 1..][1..] == s[size..];
  }

  lemma RestrictedStep(items: Items, sorted: seq<nat>, size: nat, items': Items)
    requires StrictKeys(sorted) && 0 < size <= |sorted| && Restricted(items, sorted[..size], items')
    ensures sorted[size - 1] in items' && Restricted(items, sorted[..size - 1], items' - {sorted[size - 1]})
  {
    assert sorted[..size] == sorted[..size - 1] + [sorted[size - 1]];
    assert sorted[size - 1] !in sorted[..size - 1];
  }

  /** The sorted keys from `size` on are gone, and their transactions listed, highest first. */
  ghost predicate Dropped(items: Items, sorted: seq<nat>, size: nat, drops: seq<Tx>, items': Items)
    requires (forall n :: n in sorted ==> n in items) && size <= |sorted|
  {
    drops == Reverse(Listing(items, sorted)[size..]) && Restricted(items, sorted[..size], items')
  }

  lemma NothingDropped(items: Items, sorted: seq<nat>)
    requires forall n :: n in sorted <==> n in items
    ensures Dropped(items, sorted, |sorted|, [], items)
  {
    assert Listing(items, sorted)[|sorted|..] == [] && sorted[..|sorted|] == sorted;
  }

  lemma DropLast(items: Items, sorted: seq<nat>, size: nat, drops: seq<Tx>, items': Items)
    requires StrictKeys(sorted) && (forall n :: n in sorted ==> n in items) && 0 < size <= |sorted|
    requires Dropped(items, sorted, size, drops, items')
    ensures sorted[size - 1] in items'
    ensures Dropped(items, sorted, size - 1, drops + [items'[sorted[size - 1]]], items' - {sorted[size - 1]})
  {
    var all := Listing(items, sorted);
    RestrictedStep(items, sorted, size, items');
    ReverseStep(all, size);
    assert all[size - 1] == items'[sorted[size - 1]];
  }

  /** Deletes from the end of the sorted keys. */
  method DropFrom(items: Items, sorted: seq<nat>, threshold: nat) returns (drops: seq<Tx>, items': Items)
    requires StrictKeys(sorted) && (forall n :: n in sorted <==> n in items) && threshold <= |sorted|
    ensures Dropped(items, sorted, threshold, drops, items')
  {
    drops, items' := [], items;
    var size := |sorted|;
    NothingDropped(items, sorted);
    while size > threshold
      invariant threshold <= size <= |sorted| && Dropped(items, sorted, size, drops, items')
    {
      DropLast(items, sorted, size, drops, items');
      drops := drops + [items'[sorted[size - 1]]];
      items' := items' - {sorted[size - 1]};
      size := size - 1;
    }
  }

  lemma CapEnds(items: Items, sorted: seq<nat>, threshold: nat, items': Items)
    requires Keyed(items) && StrictKeys(sorted) && (forall n :: n in sorted <==> n in items) && threshold <= |sorted|
    requires Restricted(items, sorted[..threshold], items')
    ensures Keyed(items') && Flat(items', Listing(items, sorted)[..threshold])
    ensures multiset(sorted[..threshold]) == multiset(items'.Keys) && |items'| == threshold
  {
    var keys := sorted[..threshold];
    ListingIsFlat(items', keys);
    ListingOfPart(items, sorted, threshold, items');
    KeysAreOnce(keys, items'.Keys);
    IndexHasKeys(items', keys);
  }

  lemma ListingOfPart(items: Items, sorted: seq<nat>, threshold: nat, items': Items)
    requires (forall n :: n in sorted ==> n in items) && threshold <= |sorted|
    requires Restricted(items, sorted[..threshold], items')
    ensures Listing(items', sorted[..threshold]) == Listing(items, sorted)[..threshold]
  {
  }

  /** The list `s` of a map, cut to the lowest nonces. */
  ghost predicate CutTo(s: seq<Tx>, threshold: nat, items': Items, drops: seq<Tx>) {
    threshold <= |s| && Flat(items', s[..threshold]) && drops == Reverse(s[threshold..]) && |items'| == threshold
  }

  /** At most so many transactions, all of them below the dropped ones. */
  ghost predicate LowestOf(items: Items, threshold: nat, items': Items) {
    && |items'| <= threshold
    && (forall n :: n in items' ==> n in items && items'[n] == items[n])
    && (forall n, m :: n in items' && m in items && m !in items' ==> n < m)
  }

  lemma CutIsLowest(items: Items, s: seq<Tx>, threshold: nat, items': Items, drops: seq<Tx>)
    requires Keyed(items) && Keyed(items') && Flat(items, s) && CutTo(s, threshold, items', drops)
    ensures LowestOf(items, threshold, items')
  {
    forall n | n in items'
      ensures n in items && items'[n] == items[n]
    {
      assert items'[n] in s[..threshold];
      assert items'[n] in s;
    }
    forall n, m | n in items' && m in items && m !in items'
      ensures n < m
    {
      var i :| 0 <= i < threshold && s[i] == items'[n];
      assert items[m] in s;
      var j :| 0 <= j < |s| && s[j] == items[m];
    }
  }

  method CapItems(items: Items, index: seq<nat>, threshold: nat) returns (drops: seq<Tx>, items': Items,
      index': seq<nat>, ghost all: seq<Tx>)
    requires Keyed(items) && Indexed(items, index) && threshold < |items|
    ensures Keyed(items') && Indexed(items', index') && Flat(items, all) && CutTo(all, threshold, items', drops)
  {
    var sorted := Sorting.Sort(index, AtMost);
    SortedListing(items, index, sorted);
    all := Listing(items, sorted);
    drops, items' := DropFrom(items, sorted, threshold);
    CapEnds(items, sorted, threshold, items');
    index' := Init(sorted[..threshold]);
  }

  lemma InitKeys(keys: seq<nat>, s: set<nat>)
    requires keys != [] && StrictKeys(keys) && forall n :: n in keys <==> n in s
    ensures var init, last := keys[..|keys| - 1], keys[|keys| - 1];
      last in s && StrictKeys(init) && forall n :: n in init <==> n in s - {last}
  {
    var init, last := keys[..|keys| - 1], keys[|keys| - 1];
    assert keys == init + [last] && last !in init;
  }

  lemma {:induction false} KeysAreOnce(keys: seq<nat>, s: set<nat>)
    requires StrictKeys(keys) && forall n :: n in keys <==> n in s
    ensures multiset(keys) == multiset(s)
    decreases |keys|
  {
    if keys == [] {
      assert s == {};
    } else {
      var init, last := keys[..|keys| - 1], keys[|keys| - 1];
      assert keys == init + [last];
      InitKeys(keys, s);
      KeysAreOnce(init, s - {last});
      assert multiset(s) == multiset(s - {last}) + multiset{last};
    }
  }

  lemma FlatSize(items: Items, s: seq<Tx>)
    requires Keyed(items) && Flat(items, s)
    ensures |s| == |items|
  {
    var keys := seq(|s|, i requires 0 <= i < |s| => s[i].nonce);
    forall n
      ensures n in keys <==> n in items
    {
      if n in items {
        assert items[n] in s;
        var i :| 0 <= i < |s| && s[i] == items[n];
        assert keys[i] == n;
      }
      if n in keys {
        var i :| 0 <= i < |keys| && keys[i] == n;
        assert s[i] in s;
      }
    }
    KeysAreOnce(keys, items.Keys);
    IndexHasKeys(items, keys);
  }

  class SortedMap {
    var items: Items
    var index: seq<nat>
    var cache: Option<seq<Tx>>

    ghost predicate Valid()
      reads this
    {
      Keyed(items) && Indexed(items, index) && (cache.Some? ==> Flat(items, cache.value))
    }

    constructor ()
      ensures Valid() && items == map[]
    {
      items, index, cache := map[], [], None;
    }

    /** Inserts or overwrites. */
    method Put(tx: Tx)
      requires Valid()
      modifies this
      ensures Valid() && items == old(items)[tx.nonce := tx]
    {
      if tx.nonce !in items {
        KeysWith(items, tx);
        index := Push(index, tx.nonce);
      } else {
        assert items[tx.nonce := tx].Keys == items.Keys;
      }
      items, cache := items[tx.nonce := tx], None;
    }

    /** Removes and returns, in nonce order, everything below the threshold. */
    method Forward(threshold: nat) returns (removed: seq<Tx>)
      requires Valid()
      modifies this
      ensures Valid() && items == From(old(items), threshold) && Split(old(items), removed, items)
    {
      var items', index';
      removed, items', index' := PopBelow(items, index, threshold);
      if cache.Some? {
        SplitIsPrefix(items, removed, items', cache.value);
        cache := Some(cache.value[|removed|..]);
      }
      items, index := items', index';
    }

    /** Removes and returns what the filter takes, in any order. */
    method Filter(filter: Tx -> bool) returns (removed: seq<Tx>)
      requires Valid()
      modifies this
      ensures Valid() && items == Without(old(items), filter) && NoDuplicates(removed)
      ensures forall tx :: tx in removed <==> tx.nonce in old(items) && old(items)[tx.nonce] == tx && filter(tx)
    {
      var items';
      removed, items' := Sieve(items, filter);
      if |removed| > 0 {
        items := items';
        index := ListKeys(items);
        index := Init(index);
        cache := None;
      } else {
        NothingTaken(items, filter, removed);
      }
    }

    /** Keeps the transactions with the lowest nonces and returns the others, highest first. */
    method Cap(threshold: nat) returns (drops: seq<Tx>)
      requires Valid()
      modifies this
      ensures Valid() && LowestOf(old(items), threshold, items)
      ensures forall s :: Flat(old(items), s) ==>
        if |s| <= threshold then items == old(items) && drops == []
        else CutTo(s, threshold, items, drops)
    {
      if |items| <= threshold {
        forall s | Flat(items, s)
          ensures |s| == |items|
        {
          FlatSize(items, s);
        }
        return [];
      }
      var items', index';
      ghost var all;
      drops, items', index', all := CapItems(items, index, threshold);
      forall s | Flat(items, s)
        ensures s == all
      {
        FlatIsUnique(items, s, all);
      }
      FlatSize(items, all);
      CutIsLowest(items, all, threshold, items', drops);
      if cache.Some? {
        cache := Some(cache.value[..|cache.value| - |drops|]);
      }
      items, index := items', index';
    }

    /** Removes one transaction, if it is there. */
    method Remove(nonce: nat) returns (found: bool)
      requires Valid()
      modifies this
      ensures Valid() && (found <==> nonce in old(items)) && items == old(items) - {nonce}
    {
      if nonce !in items {
        assert items - {nonce} == items;
        return false;
      }
      IndexHasKeys(items, index);
      var i := 0;
      ghost var at :| 0 <= at < |index| && index[at] == nonce;
      while index[i] != nonce
        invariant 0 <= i <= at
        decreases at - i
      {
        i := i + 1;
      }
      var r := NonceHeap.Remove(index, i);
      IndexWithout(items, index, nonce, r);
      index, items, cache := r, items - {nonce}, None;
      return true;
    }

    /** Takes out the run of consecutive nonces that begins with the lowest, if that is not above `start`. */
    method Ready(start: nat) returns (ready: seq<Tx>)
      requires Valid()
      modifies this
      ensures Valid() && Split(old(items), ready, items)
      ensures ready == [] <==> forall n :: n in old(items) ==> n > start
      ensures ready != [] ==> ready[0].nonce <= start && ready[0].nonce + |ready| !in items
      ensures ready != [] ==> Run(ready, ready[0].nonce)
    {
      IndexHasKeys(items, index);
      if |index| == 0 {
        return [];
      }
      TopIsLeast(items, index);
      if index[0] > start {
        return [];
      }
      ready, items, index := PopRun(items, index);
      cache := None;
    }

    /** The transactions in nonce order, from the cache if there is one. */
    method Flatten() returns (txs: seq<Tx>)
      requires Valid()
      modifies this`cache
      ensures Valid() && Flat(items, txs)
    {
      if cache.None? {
        var list := ListItems(items);
        var sorted := Sorting.Sort(list, ByNonce);
        SortedIsFlat(items, list, sorted);
        cache := Some(sorted);
      }
      txs := cache.value;
    }
  }

  /** The values of the map in some order. */
  method ListItems(items: Items) returns (list: seq<Tx>)
    requires Keyed(items)
    ensures forall tx :: tx in list <==> tx.nonce in items && items[tx.nonce] == tx
    ensures DistinctNonces(list)
  {
    list := [];
    var todo := items.Keys;
    while todo != {}
      invariant todo <= items.Keys
      invariant forall tx :: tx in list <==> tx.nonce in items && tx.nonce !in todo && items[tx.nonce] == tx
      invariant DistinctNonces(list)
      decreases |todo|
    {
      var n :| n in todo;
      assert forall i :: 0 <= i < |list| ==> list[i] in list && list[i].nonce != n;
      list := list + [items[n]];
      todo := todo - {n};
    }
  }
}

/** The list of transactions of an account (txList of evmcore/tx_list.go). In a strict list the nonces have
    no gap; the caps bound the costs and gas limits of all transactions, so that most filters need no scan. */
module TxLists {
  import opened Dag
  import opened NonceMap
  import opened Sequences

  /** No nonce is missing between two that are there. */
  ghost predicate Gapless(items: Items) {
    forall a, b, c :: a in items && c in items && a < b < c ==> b in items
  }

  ghost predicate Capped(items: Items, costcap: nat, gascap: nat) {
    forall n :: n in items ==> items[n].cost <= costcap && items[n].gas <= gascap
  }

  predicate TooDear(tx: Tx, costLimit: nat, gasLimit: nat) {
    tx.cost > costLimit || tx.gas > gasLimit
  }

  /** The transactions of `all` that are in `s` are those with the property. */
  ghost predicate Selects(all: Items, s: seq<Tx>, property: Tx -> bool) {
    NoDuplicates(s) && forall tx :: tx in s <==> tx.nonce in all && all[tx.nonce] == tx && property(tx)
  }

  /** What filtering leaves and returns: all that is too dear goes, and what a strict list then cannot use. */
  ghost predicate Filtered(strict: bool, all: Items, costLimit: nat, gasLimit: nat, removed: seq<Tx>, invalids: seq<Tx>,
      rest: Items) {
    && Selects(all, removed, (tx: Tx) => TooDear(tx, costLimit, gasLimit))
    && (forall n :: n in rest ==> n in all && rest[n] == all[n])
    && (forall n :: n in rest <==>
          n in all && (if strict then Before(n, removed) else !TooDear(all[n], costLimit, gasLimit)))
    && Selects(all, invalids, (tx: Tx) => tx.nonce !in rest && !TooDear(tx, costLimit, gasLimit))
  }

  ghost predicate Before(n: nat, s: seq<Tx>) {
    forall tx :: tx in s ==> n < tx.nonce
  }

  lemma NothingToCut(strict: bool, all: Items, costLimit: nat, gasLimit: nat, removed: seq<Tx>, rest: Items)
    requires Keyed(all) && Selects(all, removed, (tx: Tx) => TooDear(tx, costLimit, gasLimit))
    requires rest == Without(all, (tx: Tx) => TooDear(tx, costLimit, gasLimit)) && (strict ==> removed == [])
    ensures Filtered(strict, all, costLimit, gasLimit, removed, [], rest)
    ensures strict ==> rest == all
  {
    if strict {
      forall n | n in all
        ensures !TooDear(all[n], costLimit, gasLimit)
      {
        assert all[n] !in removed;
      }
    }
  }

  lemma CutAt(all: Items, costLimit: nat, gasLimit: nat, removed: seq<Tx>, lowest: nat, n: nat)
    requires Keyed(all) && Selects(all, removed, (tx: Tx) => TooDear(tx, costLimit, gasLimit)) && n in all
    requires (exists tx :: tx in removed && tx.nonce == lowest) && forall tx :: tx in removed ==> lowest <= tx.nonce
    ensures Before(n, removed) <==> n < lowest
    ensures n <= lowest && !TooDear(all[n], costLimit, gasLimit) <==> n < lowest
  {
    var tx := all[n];
    assert tx in removed <==> TooDear(tx, costLimit, gasLimit);
    var first :| first in removed && first.nonce == lowest;
  }

  lemma CutAtLowest(all: Items, costLimit: nat, gasLimit: nat, removed: seq<Tx>, lowest: nat, between: Items,
      invalids: seq<Tx>, rest: Items)
    requires Keyed(all) && Selects(all, removed, (tx: Tx) => TooDear(tx, costLimit, gasLimit))
    requires (exists tx :: tx in removed && tx.nonce == lowest) && forall tx :: tx in removed ==> lowest <= tx.nonce
    requires between == Without(all, (tx: Tx) => TooDear(tx, costLimit, gasLimit))
    requires Selects(between, invalids, (tx: Tx) => tx.nonce > lowest)
    requires rest == Without(between, (tx: Tx) => tx.nonce > lowest)
    ensures Filtered(true, all, costLimit, gasLimit, removed, invalids, rest)
  {
    forall n: nat | n in all
      ensures n in rest <==> n < lowest
      ensures Before(n, removed) <==> n < lowest
    {
      CutAt(all, costLimit, gasLimit, removed, lowest, n);
    }
    CutInvalids(all, costLimit, gasLimit, lowest, between, invalids, rest);
  }

  lemma CutInvalids(all: Items, costLimit: nat, gasLimit: nat, lowest: nat, between: Items, invalids: seq<Tx>,
      rest: Items)
    requires Keyed(all) && between == Without(all, (tx: Tx) => TooDear(tx, costLimit, gasLimit))
    requires Selects(between, invalids, (tx: Tx) => tx.nonce > lowest)
    requires rest == Without(between, (tx: Tx) => tx.nonce > lowest)
    ensures Selects(all, invalids, (tx: Tx) => tx.nonce !in rest && !TooDear(tx, costLimit, gasLimit))
  {
  }

  lemma FilteredIsCapped(strict: bool, all: Items, costLimit: nat, gasLimit: nat, removed: seq<Tx>, invalids: seq<Tx>,
      rest: Items)
    requires Keyed(all) && Filtered(strict, all, costLimit, gasLimit, removed, invalids, rest)
    ensures Capped(rest, costLimit, gasLimit)
    ensures strict && Gapless(all) ==> Gapless(rest)
  {
    forall n | n in rest
      ensures !TooDear(rest[n], costLimit, gasLimit)
    {
      var tx := all[n];
      assert tx in removed <==> TooDear(tx, costLimit, gasLimit);
    }
    if strict && Gapless(all) {
      forall a, b, c | a in rest && c in rest && a < b < c
        ensures b in rest
      {
        assert Before(c, removed) && b in all;
        assert Before(b, removed);
      }
    }
  }

  /** Under the caps, nothing is above limits that are no lower. */
  lemma NothingDear(all: Items, costcap: nat, gascap: nat, costLimit: nat, gasLimit: nat)
    requires Capped(all, costcap, gascap) && costcap <= costLimit && gascap <= gasLimit
    ensures Selects(all, [], (tx: Tx) => TooDear(tx, costLimit, gasLimit))
    ensures Without(all, (tx: Tx) => TooDear(tx, costLimit, gasLimit)) == all
  {
  }

  /** Without a nonce and all above it. */
  lemma CutAbove(all: Items, nonce: nat, invalids: seq<Tx>, rest: Items)
    requires rest == Without(all - {nonce}, (tx: Tx) => tx.nonce > nonce) && Keyed(all)
    requires forall tx :: tx in invalids <==>
      tx.nonce in all - {nonce} && (all - {nonce})[tx.nonce] == tx && tx.nonce > nonce
    ensures forall n :: n in rest <==> n in all && n < nonce
    ensures forall n :: n in rest ==> rest[n] == all[n]
    ensures forall tx :: tx in invalids <==> tx.nonce in all && all[tx.nonce] == tx && tx.nonce > nonce
    ensures Gapless(all) ==> Gapless(rest)
  {
  }

  class TxList {
    const strict: bool
    const txs: SortedMap
    var costcap: nat
    var gascap: nat

    /** The sorted map is sound and the caps bound everything in it. */
    ghost predicate Valid()
      reads this, txs
    {
      txs.Valid() && Capped(txs.items, costcap, gascap)
    }

    constructor (strict: bool)
      ensures Valid() && this.strict == strict && txs.items == map[] && fresh(txs)
    {
      this.strict, costcap, gascap := strict, 0, 0;
      txs := new SortedMap();
    }

    /** A new transaction replaces one with its nonce only if it outbids it by the price bump, in hundredths. */
    method Add(tx: Tx, priceBump: nat) returns (added: bool, replaced: Option<Tx>)
      requires Valid()
      modifies this, txs
      ensures Valid()
      ensures added <==> tx.nonce in old(txs.items) ==>
        var price := old(txs.items)[tx.nonce].gasPrice;
        tx.gasPrice > price && 100 * tx.gasPrice + 99 >= price * (100 + priceBump)
      ensures txs.items == if added then old(txs.items)[tx.nonce := tx] else old(txs.items)
      ensures replaced == if tx.nonce in old(txs.items) then Some(old(txs.items)[tx.nonce]) else None
    {
      if tx.nonce in txs.items {
        var old' := txs.items[tx.nonce];
        var threshold := old'.gasPrice * (100 + priceBump) / 100;
        if old'.gasPrice >= tx.gasPrice || threshold > tx.gasPrice {
          return false, Some(old');
        }
        replaced := Some(old');
      } else {
        replaced := None;
      }
      txs.Put(tx);
      if costcap < tx.cost {
        costcap := tx.cost;
      }
      if gascap < tx.gas {
        gascap := tx.gas;
      }
      added := true;
    }

    method Forward(threshold: nat) returns (removed: seq<Tx>)
      requires Valid()
      modifies txs
      ensures Valid() && txs.items == From(old(txs.items), threshold) && Split(old(txs.items), removed, txs.items)
      ensures old(Gapless(txs.items)) ==> Gapless(txs.items)
    {
      removed := txs.Forward(threshold);
    }

    /** Removes what costs or burns too much; from a strict list also everything after it. The early exit skips
        nothing. */
    method Filter(costLimit: nat, gasLimit: nat) returns (removed: seq<Tx>, invalids: seq<Tx>)
      requires Valid()
      modifies this, txs
      ensures Valid() && Filtered(strict, old(txs.items), costLimit, gasLimit, removed, invalids, txs.items)
      ensures strict && old(Gapless(txs.items)) ==> Gapless(txs.items)
    {
      ghost var all := txs.items;
      if costcap <= costLimit && gascap <= gasLimit {
        NothingDear(all, costcap, gascap, costLimit, gasLimit);
        NothingToCut(strict, all, costLimit, gasLimit, [], all);
        return [], [];
      }
      costcap, gascap := costLimit, gasLimit;
      removed, invalids := Scan(costLimit, gasLimit);
      FilteredIsCapped(strict, all, costLimit, gasLimit, removed, invalids, txs.items);
    }

    /** The scan behind the early exit. */
    method Scan(costLimit: nat, gasLimit: nat) returns (removed: seq<Tx>, invalids: seq<Tx>)
      requires txs.Valid()
      modifies txs
      ensures txs.Valid() && Filtered(strict, old(txs.items), costLimit, gasLimit, removed, invalids, txs.items)
    {
      ghost var all := txs.items;
      removed := txs.Filter((tx: Tx) => TooDear(tx, costLimit, gasLimit));
      invalids := [];
      if strict && |removed| > 0 {
        ghost var between := txs.items;
        var lowest := LowestNonce(removed);
        invalids := txs.Filter((tx: Tx) => tx.nonce > lowest);
        CutAtLowest(all, costLimit, gasLimit, removed, lowest, between, invalids, txs.items);
      } else {
        NothingToCut(strict, all, costLimit, gasLimit, removed, txs.items);
      }
    }

    /** Removes a transaction, and from a strict list everything after it. */
    method Remove(nonce: nat) returns (found: bool, invalids: seq<Tx>)
      requires Valid()
      modifies txs
      ensures Valid() && (found <==> nonce in old(txs.items))
      ensures !found ==> txs.items == old(txs.items) && invalids == []
      ensures forall n :: n in txs.items <==> n in old(txs.items) && n != nonce && (found && strict ==> n < nonce)
      ensures forall n :: n in txs.items ==> txs.items[n] == old(txs.items)[n]
      ensures NoDuplicates(invalids) && forall tx :: tx in invalids <==>
        found && strict && tx.nonce in old(txs.items) && old(txs.items)[tx.nonce] == tx && tx.nonce > nonce
      ensures strict && old(Gapless(txs.items)) ==> Gapless(txs.items)
    {
      ghost var all := txs.items;
      found := txs.Remove(nonce);
      invalids := [];
      if found && strict {
        invalids := txs.Filter((tx: Tx) => tx.nonce > nonce);
        CutAbove(all, nonce, invalids, txs.items);
      }
    }

    /** Keeps the lowest nonces. */
    method Cap(threshold: nat) returns (drops: seq<Tx>)
      requires Valid()
      modifies txs
      ensures Valid() && |txs.items| <= threshold
      ensures forall s :: Flat(old(txs.items), s) ==>
        if |s| <= threshold then txs.items == old(txs.items) && drops == [] else CutTo(s, threshold, txs.items, drops)
      ensures old(Gapless(txs.items)) ==> Gapless(txs.items)
    {
      drops := txs.Cap(threshold);
    }
  }

  method LowestNonce(txs: seq<Tx>) returns (lowest: nat)
    requires txs != []
    ensures (exists tx :: tx in txs && tx.nonce == lowest) && forall tx :: tx in txs ==> lowest <= tx.nonce
  {
    lowest := txs[0].nonce;
    for i := 1 to |txs|
      invariant (exists tx :: tx in txs && tx.nonce == lowest) && forall j :: 0 <= j < i ==> lowest <= txs[j].nonce
    {
      if lowest > txs[i].nonce {
        lowest := txs[i].nonce;
      }
    }
  }
}

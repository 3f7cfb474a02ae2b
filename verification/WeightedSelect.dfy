/** Weighted random selection (gossip/randselect.go): a tree of eight-way nodes that knows the weight of
    each subtree. Items keep their index while others come and go. */
module WeightedSelect {
  import opened Dag
  import Folds
  import opened Stakes

  const BRANCHES := 8

  datatype Slot<T> = Empty | Leaf(item: T) | Sub(node: Node<T>)

  datatype Node<T> = Node(level: nat, itemCnt: nat, maxItems: nat, sumWeight: nat, weights: seq<nat>,
      items: seq<Slot<T>>)

  /** The number of items that fit below a node. */
  function Capacity(level: nat): (r: nat)
    ensures r > 0
  {
    if level == 0 then BRANCHES else BRANCHES * Capacity(level - 1)
  }

  function Count<T>(s: Slot<T>): nat {
    match s case Empty => 0 case Leaf(_) => 1 case Sub(node) => node.itemCnt
  }

  ghost function CountUpTo<T>(items: seq<Slot<T>>, k: nat): nat
    requires k <= |items|
  {
    if k == 0 then 0 else CountUpTo(items, k - 1) + Count(items[k - 1])
  }

  /** A node knows the weight and the number of what is below it. */
  ghost predicate NodeOk<T>(n: Node<T>)
    decreases n
  {
    && |n.weights| == |n.items| == BRANCHES && n.maxItems == Capacity(n.level)
    && n.sumWeight == Total(n.weights) && n.itemCnt == CountUpTo(n.items, |n.items|)
    && forall b {:trigger n.items[b]} {:trigger n.weights[b]} ::
      0 <= b < BRANCHES ==> Fits(n.level, n.items[b], n.weights[b])
  }

  /** What may stand in a slot of a node: an empty slot weighs nothing, items only stand at the bottom. */
  ghost predicate Fits<T>(level: nat, s: Slot<T>, weight: nat)
    decreases s
  {
    match s
    case Empty => weight == 0
    case Leaf(_) => level == 0 && weight > 0
    case Sub(node) => node.level + 1 == level && NodeOk(node) && weight == node.sumWeight
  }

  lemma KidFits<T>(n: Node<T>, b: nat)
    requires NodeOk(n) && b < BRANCHES
    ensures Fits(n.level, n.items[b], n.weights[b])
    ensures n.items[b].Sub? ==> n.level > 0 && n.items[b].node.level == n.level - 1
    ensures n.items[b].Sub? ==> NodeOk(n.items[b].node) && n.weights[b] == n.items[b].node.sumWeight
    ensures n.items[b].Sub? ==> n.items[b].node.maxItems == Capacity(n.level - 1)
  {
    assert Fits(n.level, n.items[b], n.weights[b]);
  }

  // ---------------------------------------------------------------- indexes

  /** Index `i` below a node of the given level lies below this branch. */
  function Branch(level: nat, i: nat): (b: nat)
    requires level > 0 && i < Capacity(level)
    ensures b < BRANCHES
  {
    Divides(i, Capacity(level - 1));
    i / Capacity(level - 1)
  }

  /** And there has this index. */
  function Rest(level: nat, i: nat): (r: nat)
    requires level > 0 && i < Capacity(level)
    ensures r < Capacity(level - 1) && i == Branch(level, i) * Capacity(level - 1) + r
  {
    Divides(i, Capacity(level - 1));
    i - i / Capacity(level - 1) * Capacity(level - 1)
  }

  lemma Divides(i: nat, size: nat)
    requires size > 0
    ensures 0 <= i - i / size * size < size
    ensures i < BRANCHES * size ==> i / size < BRANCHES
  {
    assert i == i / size * size + i % size;
  }

  /** A branch and an index below it make one index. */
  lemma Joins(level: nat, b: nat, r: nat)
    requires level > 0 && b < BRANCHES && r < Capacity(level - 1)
    ensures Capacity(level - 1) * b + r < Capacity(level)
    ensures Branch(level, Capacity(level - 1) * b + r) == b && Rest(level, Capacity(level - 1) * b + r) == r
  {
    var size := Capacity(level - 1);
    var i := size * b + r;
    assert i < size * (b + 1) <= size * BRANCHES;
    QuotientIs(i, size, b, r);
  }

  lemma QuotientIs(i: nat, size: nat, b: nat, r: nat)
    requires size > 0 && r < size && i == size * b + r
    ensures i / size == b
  {
    var q := i / size;
    assert i == q * size + i % size;
    assert q < b ==> (q + 1) * size <= b * size;
    assert q > b ==> (b + 1) * size <= q * size;
  }

  /** Indexes are ordered by branch first. */
  lemma BranchOrder(level: nat, i: nat, j: nat)
    requires level > 0 && i < j < Capacity(level)
    ensures Branch(level, i) <= Branch(level, j)
    ensures Branch(level, i) == Branch(level, j) ==> Rest(level, i) < Rest(level, j)
  {
    DigitsOrder(i, Branch(level, i), Rest(level, i), j, Branch(level, j), Rest(level, j), Capacity(level - 1));
  }

  lemma DigitsOrder(i: nat, b: nat, r: nat, j: nat, c: nat, q: nat, size: nat)
    requires i == b * size + r && j == c * size + q && r < size && q < size && i < j
    ensures b <= c && (b == c ==> r < q)
  {
    if c < b {
      Scales(c + 1, b, size);
    }
  }

  lemma Scales(x: nat, y: nat, size: nat)
    requires x <= y
    ensures x * size <= y * size
  {
  }

  /** The item with index `i`, and its weight. */
  ghost function At<T>(n: Node<T>, i: nat): Option<(T, nat)>
    requires NodeOk(n)
  {
    if i >= n.maxItems then None
    else if n.level == 0 then
      if n.items[i].Leaf? then Some((n.items[i].item, n.weights[i])) else None
    else
      var b := Branch(n.level, i);
      KidFits(n, b);
      if n.items[b].Sub? then At(n.items[b].node, Rest(n.level, i)) else None
  }

  // ---------------------------------------------------------------- replacing one slot

  lemma {:induction false} SumReplaced(w: seq<nat>, b: nat, x: nat, k: nat)
    requires b < |w| && k <= |w|
    ensures SumUpTo(w[b := x], k) == SumUpTo(w, k) + (if b < k then x - w[b] else 0)
  {
    if k > 0 {
      SumReplaced(w, b, x, k - 1);
    }
  }

  lemma {:induction false} CountReplaced<T>(items: seq<Slot<T>>, b: nat, s: Slot<T>, k: nat)
    requires b < |items| && k <= |items|
    ensures CountUpTo(items[b := s], k) == CountUpTo(items, k) + (if b < k then Count(s) - Count(items[b]) else 0)
  {
    if k > 0 {
      CountReplaced(items, b, s, k - 1);
    }
  }

  lemma {:induction false} PartOfSum(w: seq<nat>, b: nat, k: nat)
    requires b < k <= |w|
    ensures SumUpTo(w, b) + w[b] == SumUpTo(w, b + 1) <= SumUpTo(w, k)
  {
    if b < k - 1 {
      PartOfSum(w, b, k - 1);
    }
  }

  /** The same node but for one slot. */
  ghost predicate Replaced<T>(n: Node<T>, b: nat, s: Slot<T>, weight: nat, n': Node<T>)
    requires NodeOk(n) && b < BRANCHES
  {
    && n'.level == n.level && n'.maxItems == n.maxItems
    && n'.weights == n.weights[b := weight] && n'.items == n.items[b := s]
    && n'.sumWeight == n.sumWeight + weight - n.weights[b] && n'.itemCnt == n.itemCnt + Count(s) - Count(n.items[b])
  }

  lemma ReplacedIsOk<T>(n: Node<T>, b: nat, s: Slot<T>, weight: nat, n': Node<T>)
    requires NodeOk(n) && b < BRANCHES && Fits(n.level, s, weight) && Replaced(n, b, s, weight, n')
    ensures NodeOk(n')
  {
    SumReplaced(n.weights, b, weight, BRANCHES);
    CountReplaced(n.items, b, s, BRANCHES);
  }

  /** At the bottom, replacing a slot changes one index. */
  lemma BottomReplaced<T>(n: Node<T>, b: nat, s: Slot<T>, weight: nat, n': Node<T>)
    requires NodeOk(n) && n.level == 0 && b < BRANCHES && Fits(0, s, weight) && Replaced(n, b, s, weight, n')
    ensures NodeOk(n')
    ensures At(n', b) == if s.Leaf? then Some((s.item, weight)) else None
    ensures forall j: nat :: j != b ==> At(n', j) == At(n, j)
  {
    ReplacedIsOk(n, b, s, weight, n');
  }

  ghost function AtBelow<T>(n: Node<T>, b: nat, r: nat): Option<(T, nat)>
    requires NodeOk(n) && b < BRANCHES
  {
    KidFits(n, b);
    if n.items[b].Sub? then At(n.items[b].node, r) else None
  }

  /** Higher up, replacing a subtree that differs in one index changes one index. */
  lemma SubReplaced<T>(n: Node<T>, b: nat, sub: Node<T>, n': Node<T>, r: nat)
    requires NodeOk(n) && n.level > 0 && b < BRANCHES && Fits(n.level, Sub(sub), sub.sumWeight) && r < sub.maxItems
    requires Replaced(n, b, Sub(sub), sub.sumWeight, n')
    requires forall k: nat :: k != r ==> At(sub, k) == AtBelow(n, b, k)
    ensures NodeOk(n') && sub.maxItems * b + r < n.maxItems
    ensures At(n', sub.maxItems * b + r) == At(sub, r)
    ensures At(n, sub.maxItems * b + r) == AtBelow(n, b, r)
    ensures forall j: nat :: j != sub.maxItems * b + r ==> At(n', j) == At(n, j)
  {
    ReplacedIsOk(n, b, Sub(sub), sub.sumWeight, n');
    Joins(n.level, b, r);
    var i := sub.maxItems * b + r;
    forall j: nat | j != i
      ensures At(n', j) == At(n, j)
    {
      if j < n.maxItems && Branch(n.level, j) == b {
        assert j == b * Capacity(n.level - 1) + Rest(n.level, j);
        assert Rest(n.level, j) != r;
      }
    }
  }

  // ---------------------------------------------------------------- inserting

  lemma {:induction false} AllFull<T>(n: Node<T>, k: nat)
    requires NodeOk(n) && k <= BRANCHES
    requires forall b :: 0 <= b < k ==>
      !n.items[b].Empty? && (n.level > 0 ==> n.items[b].Sub? && n.items[b].node.itemCnt == n.items[b].node.maxItems)
    ensures n.level == 0 ==> CountUpTo(n.items, k) == k
    ensures n.level > 0 ==> CountUpTo(n.items, k) == k * Capacity(n.level - 1)
  {
    if k > 0 {
      AllFull(n, k - 1);
      KidFits(n, k - 1);
      assert n.level > 0 ==> k * Capacity(n.level - 1) == (k - 1) * Capacity(n.level - 1) + Capacity(n.level - 1);
    }
  }

  /** No node holds more than fits. */
  lemma {:induction false} HoldsWhatFits<T>(n: Node<T>, k: nat)
    requires NodeOk(n) && k <= BRANCHES
    ensures n.level == 0 ==> CountUpTo(n.items, k) <= k
    ensures n.level > 0 ==> CountUpTo(n.items, k) <= k * Capacity(n.level - 1)
    decreases n, k
  {
    if k > 0 {
      HoldsWhatFits(n, k - 1);
      var s := n.items[k - 1];
      KidFits(n, k - 1);
      if s.Sub? {
        NotOverfull(s.node);
      }
      assert n.level > 0 ==> k * Capacity(n.level - 1) == (k - 1) * Capacity(n.level - 1) + Capacity(n.level - 1);
    }
  }

  lemma NotOverfull<T>(n: Node<T>)
    requires NodeOk(n)
    ensures n.itemCnt <= n.maxItems
    decreases n, BRANCHES + 1
  {
    HoldsWhatFits(n, BRANCHES);
  }

  /** The first branch with room; a node that is not full has one. */
  method FreeBranch<T>(n: Node<T>) returns (b: nat)
    requires NodeOk(n) && n.itemCnt < n.maxItems
    ensures b < BRANCHES && !n.items[b].Leaf?
    ensures n.level == 0 ==> n.items[b].Empty?
    ensures n.items[b].Sub? ==> n.items[b].node.itemCnt < n.items[b].node.maxItems
  {
    b := 0;
    forall c | 0 <= c < BRANCHES && n.items[c].Sub?
      ensures n.items[c].node.itemCnt <= n.items[c].node.maxItems
    {
      KidFits(n, c);
      NotOverfull(n.items[c].node);
    }
    while !n.items[b].Empty? && (n.level == 0 || n.items[b].node.itemCnt == n.items[b].node.maxItems)
      invariant b < BRANCHES
      invariant forall c :: 0 <= c < b ==>
        !n.items[c].Empty? && (n.level > 0 ==> n.items[c].Sub? && n.items[c].node.itemCnt == n.items[c].node.maxItems)
      decreases BRANCHES - b
    {
      if b == BRANCHES - 1 {
        AllFull(n, BRANCHES);
        assert false;
      }
      b := b + 1;
    }
  }

  /** A node with nothing below it. */
  function Fresh<T>(level: nat, maxItems: nat): Node<T> {
    Node(level, 0, maxItems, 0, seq(BRANCHES, _ => 0), seq(BRANCHES, _ => Empty))
  }

  lemma {:induction false} NothingInFresh<T>(n: Node<T>, k: nat)
    requires |n.weights| == |n.items| == BRANCHES && k <= BRANCHES
    requires forall b :: 0 <= b < BRANCHES ==> n.weights[b] == 0 && n.items[b].Empty?
    ensures SumUpTo(n.weights, k) == 0 && CountUpTo(n.items, k) == 0
  {
    if k > 0 {
      NothingInFresh(n, k - 1);
    }
  }

  lemma FreshIsEmpty<T>(level: nat, n: Node<T>)
    requires n == Fresh(level, Capacity(level))
    ensures NodeOk(n) && forall i: nat :: At(n, i).None?
  {
    NothingInFresh(n, BRANCHES);
  }

  /** The node below a branch, new if the slot is empty. */
  method SubNode<T>(n: Node<T>, b: nat) returns (sub: Node<T>)
    requires NodeOk(n) && n.level > 0 && b < BRANCHES
    ensures NodeOk(sub) && sub.level == n.level - 1 && sub.itemCnt == Count(n.items[b]) && sub.sumWeight == n.weights[b]
    ensures forall k: nat :: At(sub, k) == AtBelow(n, b, k)
    ensures n.items[b].Sub? ==> sub == n.items[b].node
  {
    KidFits(n, b);
    if n.items[b].Empty? {
      sub := Fresh(n.level - 1, n.maxItems / BRANCHES);
      FreshIsEmpty(n.level - 1, sub);
    } else {
      sub := n.items[b].node;
    }
  }

  method Insert<T>(n: Node<T>, item: T, weight: nat) returns (n': Node<T>, i: nat)
    requires NodeOk(n) && n.itemCnt < n.maxItems && weight > 0
    ensures NodeOk(n') && n'.level == n.level && n'.itemCnt == n.itemCnt + 1 && n'.sumWeight == n.sumWeight + weight
    ensures i < n.maxItems && At(n, i).None? && At(n', i) == Some((item, weight))
    ensures forall j: nat :: j != i ==> At(n', j) == At(n, j)
    decreases n.level
  {
    var b := FreeBranch(n);
    if n.level == 0 {
      n' := Filled(n, b, Leaf(item), weight);
      FilledBottom(n, b, item, weight);
      return n', b;
    }
    var sub := SubNode(n, b);
    var sub', r := Insert(sub, item, weight);
    n', i := Filled(n, b, Sub(sub'), weight), sub.maxItems * b + r;
    FilledBelow(n, b, sub, sub', weight, r);
  }

  /** The node with one item more in slot `b`. */
  function Filled<T>(n: Node<T>, b: nat, s: Slot<T>, weight: nat): Node<T>
    requires b < |n.items| == |n.weights|
  {
    Node(n.level, n.itemCnt + 1, n.maxItems, n.sumWeight + weight, n.weights[b := n.weights[b] + weight],
        n.items[b := s])
  }

  lemma FilledBottom<T>(n: Node<T>, b: nat, item: T, weight: nat)
    requires NodeOk(n) && n.level == 0 && b < BRANCHES && n.items[b].Empty? && weight > 0
    ensures NodeOk(Filled(n, b, Leaf(item), weight)) && b < n.maxItems && At(n, b).None?
    ensures At(Filled(n, b, Leaf(item), weight), b) == Some((item, weight))
    ensures forall j: nat :: j != b ==> At(Filled(n, b, Leaf(item), weight), j) == At(n, j)
  {
    KidFits(n, b);
    BottomReplaced(n, b, Leaf(item), weight, Filled(n, b, Leaf(item), weight));
  }

  lemma FilledBelow<T>(n: Node<T>, b: nat, sub: Node<T>, sub': Node<T>, weight: nat, r: nat)
    requires NodeOk(n) && n.level > 0 && b < BRANCHES && NodeOk(sub) && NodeOk(sub')
    requires sub.level == sub'.level == n.level - 1
    requires sub.itemCnt == Count(n.items[b]) && sub.sumWeight == n.weights[b] && forall k: nat ::
      At(sub, k) == AtBelow(n, b, k)
    requires sub'.itemCnt == sub.itemCnt + 1 && sub'.sumWeight == sub.sumWeight + weight
    requires r < sub.maxItems && forall k: nat :: k != r ==> At(sub', k) == At(sub, k)
    ensures NodeOk(Filled(n, b, Sub(sub'), weight)) && sub.maxItems * b + r < n.maxItems
    ensures At(Filled(n, b, Sub(sub'), weight), sub.maxItems * b + r) == At(sub', r)
    ensures At(n, sub.maxItems * b + r) == At(sub, r)
    ensures forall j: nat :: j != sub.maxItems * b + r ==> At(Filled(n, b, Sub(sub'), weight), j) == At(n, j)
  {
    SubReplaced(n, b, sub', Filled(n, b, Sub(sub'), weight), r);
  }

  // ---------------------------------------------------------------- changing a weight

  method SetNodeWeight<T>(n: Node<T>, i: nat, weight: nat) returns (n': Node<T>, diff: int)
    requires NodeOk(n) && At(n, i).Some?
    ensures NodeOk(n') && n'.level == n.level && diff == weight - At(n, i).value.1 && n'.sumWeight == n.sumWeight + diff
    ensures n'.itemCnt == n.itemCnt - (if weight == 0 then 1 else 0)
    ensures At(n', i) == if weight == 0 then None else Some((At(n, i).value.0, weight))
    ensures forall j: nat :: j != i ==> At(n', j) == At(n, j)
    decreases n.level
  {
    if n.level == 0 {
      KidFits(n, i);
      PartOfSum(n.weights, i, BRANCHES);
      diff := weight - n.weights[i];
      n' := n.(weights := n.weights[i := weight], sumWeight := n.sumWeight + diff);
      if weight == 0 {
        PartOfCount(n.items, i, BRANCHES);
        n' := n'.(items := n.items[i := Empty], itemCnt := n.itemCnt - 1);
      }
      BottomReplaced(n, i, n'.items[i], weight, n');
      return;
    }
    var branchItems := n.maxItems / BRANCHES;
    assert branchItems == Capacity(n.level - 1);
    var b := i / branchItems;
    assert b == Branch(n.level, i) && i - b * branchItems == Rest(n.level, i);
    KidFits(n, b);
    var sub := n.items[b].node;
    var sub';
    sub', diff := SetNodeWeight(sub, i - b * branchItems, weight);
    PartOfSum(n.weights, b, BRANCHES);
    PartOfCount(n.items, b, BRANCHES);
    n' := n.(items := n.items[b := Sub(sub')], weights := n.weights[b := n.weights[b] + diff],
        sumWeight := n.sumWeight + diff);
    if weight == 0 {
      n' := n'.(itemCnt := n.itemCnt - 1);
    }
    SubReplaced(n, b, sub', n', i - b * branchItems);
    assert sub'.maxItems * b + (i - b * branchItems) == i;
  }

  lemma {:induction false} PartOfCount<T>(items: seq<Slot<T>>, b: nat, k: nat)
    requires b < k <= |items|
    ensures Count(items[b]) <= CountUpTo(items, k)
  {
    if b < k - 1 {
      PartOfCount(items, b, k - 1);
    }
  }

  // ---------------------------------------------------------------- choosing

  /** The weight of all items with a lower index. */
  ghost function WeightBelow<T>(n: Node<T>, i: nat): nat
    requires NodeOk(n) && i < n.maxItems
  {
    if n.level == 0 then SumUpTo(n.weights, i)
    else
      var b := Branch(n.level, i);
      KidFits(n, b);
      SumUpTo(n.weights, b) + if n.items[b].Sub? then WeightBelow(n.items[b].node, Rest(n.level, i)) else 0
  }

  /** The number `val` falls into the share of the item with index `i`. */
  ghost predicate Hits<T>(n: Node<T>, val: nat, i: nat)
    requires NodeOk(n)
  {
    At(n, i).Some? && WeightBelow(n, i) <= val < WeightBelow(n, i) + At(n, i).value.1
  }

  /** The branch that a number below the whole weight falls into, and what is left of the number there. */
  method FindBranch(weights: seq<nat>, val: nat) returns (b: nat, v: nat)
    requires val < Total(weights)
    ensures b < |weights| && val == SumUpTo(weights, b) + v && v < weights[b]
  {
    b, v := 0, val;
    while b < |weights|
      invariant b <= |weights| && val == SumUpTo(weights, b) + v
    {
      if v < weights[b] {
        return;
      }
      v := v - weights[b];
      b := b + 1;
    }
    assert false;
  }

  lemma HitsBottom<T>(n: Node<T>, val: nat, b: nat, v: nat)
    requires NodeOk(n) && n.level == 0 && b < BRANCHES && val == SumUpTo(n.weights, b) + v && v < n.weights[b]
    ensures n.items[b].Leaf? && Hits(n, val, b) && At(n, b) == Some((n.items[b].item, n.weights[b]))
  {
    KidFits(n, b);
  }

  lemma HitsBelow<T>(n: Node<T>, val: nat, b: nat, v: nat, r: nat) returns (i: nat)
    requires NodeOk(n) && n.level > 0 && b < BRANCHES && val == SumUpTo(n.weights, b) + v && n.items[b].Sub?
    requires NodeOk(n.items[b].node)
    requires Hits(n.items[b].node, v, r)
    ensures Hits(n, val, i) && At(n, i) == At(n.items[b].node, r)
  {
    KidFits(n, b);
    Joins(n.level, b, r);
    i := Capacity(n.level - 1) * b + r;
  }

  /** Finds the item whose share a number below the whole weight falls into. */
  method ChooseNode<T>(n: Node<T>, val: nat) returns (item: T, weight: nat, ghost i: nat)
    requires NodeOk(n) && val < n.sumWeight
    ensures Hits(n, val, i) && At(n, i) == Some((item, weight))
    ensures exists j: nat :: Hits(n, val, j) && At(n, j) == Some((item, weight))
    decreases n.level
  {
    var b, v := FindBranch(n.weights, val);
    KidFits(n, b);
    if n.level == 0 {
      HitsBottom(n, val, b, v);
      return n.items[b].item, n.weights[b], b;
    }
    ghost var r;
    item, weight, r := ChooseNode(n.items[b].node, v);
    i := HitsBelow(n, val, b, v, r);
  }

  /** Shares do not overlap, and lie below the whole weight. */
  lemma {:induction false} ShareEnds<T>(n: Node<T>, i: nat)
    requires NodeOk(n) && At(n, i).Some?
    ensures WeightBelow(n, i) + At(n, i).value.1 <= n.sumWeight
  {
    if n.level == 0 {
      PartOfSum(n.weights, i, BRANCHES);
    } else {
      var b := Branch(n.level, i);
      KidFits(n, b);
      ShareEnds(n.items[b].node, Rest(n.level, i));
      PartOfSum(n.weights, b, BRANCHES);
    }
  }

  lemma {:induction false} SharesOrdered<T>(n: Node<T>, i: nat, j: nat)
    requires NodeOk(n) && At(n, i).Some? && At(n, j).Some? && i < j
    ensures WeightBelow(n, i) + At(n, i).value.1 <= WeightBelow(n, j)
  {
    if n.level == 0 {
      PartOfSum(n.weights, i, j);
    } else {
      var b, c := Branch(n.level, i), Branch(n.level, j);
      KidFits(n, b);
      KidFits(n, c);
      BranchOrder(n.level, i, j);
      if b == c {
        SharesOrdered(n.items[b].node, Rest(n.level, i), Rest(n.level, j));
      } else {
        ShareEnds(n.items[b].node, Rest(n.level, i));
        PartOfSum(n.weights, b, c);
      }
    }
  }

  /** A number hits one item only. */
  lemma HitsOne<T>(n: Node<T>, val: nat, i: nat, j: nat)
    requires NodeOk(n) && Hits(n, val, i) && Hits(n, val, j)
    ensures i == j
  {
    if i < j {
      SharesOrdered(n, i, j);
    } else if j < i {
      SharesOrdered(n, j, i);
    }
  }

  ghost function Range(lo: nat, len: nat): (r: set<nat>)
    ensures |r| == len && forall v :: v in r <==> lo <= v < lo + len
  {
    if len == 0 then {} else Range(lo, len - 1) + {lo + len - 1}
  }

  /** Exactly proportional: of the numbers below the whole weight, as many hit an item as its weight says. */
  lemma Proportional<T>(n: Node<T>, i: nat)
    requires NodeOk(n) && At(n, i).Some?
    ensures |set val | val in Range(0, n.sumWeight) && Hits(n, val, i)| == At(n, i).value.1
  {
    ShareEnds(n, i);
    assert (set val | val in Range(0, n.sumWeight) && Hits(n, val, i)) == Range(WeightBelow(n, i), At(n, i).value.1);
  }

  // ---------------------------------------------------------------- the set of items

  /** A full root becomes the first branch of a new one; every index keeps its meaning. */
  lemma Raised<T>(root: Node<T>, n: Node<T>)
    requires NodeOk(root)
    requires n == Node(root.level + 1, root.itemCnt, root.maxItems * BRANCHES, root.sumWeight,
                       seq(BRANCHES, _ => 0)[0 := root.sumWeight], seq(BRANCHES, _ => Empty)[0 := Sub(root)])
    ensures NodeOk(n) && forall i: nat :: At(n, i) == At(root, i)
  {
    var empty: Node<T> := Fresh(root.level + 1, Capacity(root.level + 1));
    FreshIsEmpty(root.level + 1, empty);
    ReplacedIsOk(empty, 0, Sub(root), root.sumWeight, n);
    forall i: nat
      ensures At(n, i) == At(root, i)
    {
      if i < n.maxItems {
        FirstBranch(n.level, i);
      }
    }
  }

  /** The indexes of the first branch come first, and keep their value there. */
  lemma FirstBranch(level: nat, i: nat)
    requires level > 0 && i < Capacity(level)
    ensures i < Capacity(level - 1) <==> Branch(level, i) == 0
    ensures i < Capacity(level - 1) ==> Rest(level, i) == i
  {
    FirstDigit(i, Branch(level, i), Rest(level, i), Capacity(level - 1));
  }

  lemma FirstDigit(i: nat, b: nat, r: nat, size: nat)
    requires i == b * size + r && r < size
    ensures i < size <==> b == 0
  {
    if b > 0 {
      Scales(1, b, size);
    }
  }

  /** A full tree gets a new root level; every index keeps its meaning. */
  method MakeRoom<T>(root: Node<T>) returns (n: Node<T>)
    requires NodeOk(root)
    ensures NodeOk(n) && n.itemCnt < n.maxItems && n.sumWeight == root.sumWeight
    ensures forall i: nat :: At(n, i) == At(root, i)
  {
    n := root;
    if root.itemCnt == root.maxItems {
      n := Node(root.level + 1, root.itemCnt, root.maxItems * BRANCHES, root.sumWeight,
                seq(BRANCHES, _ => 0)[0 := root.sumWeight], seq(BRANCHES, _ => Empty)[0 := Sub(root)]);
      Raised(root, n);
    }
    NotOverfull(n);
  }

  /** The index names for every item its place in the tree, and the tree holds nothing else. */
  ghost predicate Names<T>(root: Node<T>, index: map<T, nat>) {
    && NodeOk(root)
    && (forall x :: x in index ==> At(root, index[x]).Some? && At(root, index[x]).value.0 == x)
    && (forall i: nat :: At(root, i).Some? ==> At(root, i).value.0 in index && index[At(root, i).value.0] == i)
  }

  ghost function WeightIn<T>(root: Node<T>, index: map<T, nat>, x: T): nat {
    if NodeOk(root) && x in index && At(root, index[x]).Some? then At(root, index[x]).value.1 else 0
  }

  ghost function WeightsIn<T>(root: Node<T>, index: map<T, nat>): map<T, nat> {
    map x | x in index :: WeightIn(root, index, x)
  }

  method AddTo<T(==, !new)>(root: Node<T>, index: map<T, nat>, x: T, weight: nat)
    returns (root': Node<T>, index': map<T, nat>)
    requires (forall u {:trigger Folds.Open(u)} :: Folds.Open(u) && u == Folds.Shares ==> Names(root, index))
    requires x !in index && weight > 0
    ensures Names(root', index') && Names(root, index) && root'.sumWeight == root.sumWeight + weight
    ensures index'.Keys == index.Keys + {x} && forall y :: y in index ==> index'[y] == index[y]
    ensures WeightIn(root', index', x) == weight
    ensures forall y :: y != x ==> WeightIn(root', index', y) == WeightIn(root, index, y)
  {
    assert Folds.Open(Folds.Shares);
    var roomy := MakeRoom(root);
    var i;
    root', i := Insert(roomy, x, weight);
    index' := index[x := i];
    forall j: nat | At(root', j).Some?
      ensures At(root', j).value.0 in index' && index'[At(root', j).value.0] == j
    {
      assert j != i ==> At(root, j) == At(root', j);
    }
    forall y | y in index
      ensures At(root', index[y]) == At(root, index[y]) && At(root', index[y]).Some?
    {
      assert index[y] != i;
    }
  }

  class Selection<T(==, !new)> {
    var root: Node<T>
    var index: map<T, nat>

    /** `Names`, folded. */
    ghost predicate Valid()
      reads this
    {
      forall u {:trigger Folds.Open(u)} :: Folds.Open(u) && u == Folds.Shares ==> Names(root, index)
    }

    /** The stored weight of an item; items outside the set weigh nothing. */
    ghost function WeightOf(x: T): nat
      reads this
    {
      WeightIn(root, index, x)
    }

    constructor ()
      ensures Valid() && index == map[]
    {
      var empty: Node<T> := Fresh(0, BRANCHES);
      FreshIsEmpty(0, empty);
      root, index := empty, map[];
    }

    /** Stores the weight of an item, adds the item if it is new and removes it if the weight is zero; others keep
        theirs. */
    method SetWeight(x: T, weight: nat)
      requires Valid()
      modifies this
      ensures Valid() && index.Keys == if weight == 0 then old(index.Keys) - {x} else old(index.Keys) + {x}
      ensures WeightOf(x) == weight && forall y :: y != x ==> WeightOf(y) == old(WeightOf(y))
      ensures forall y :: y in index && y in old(index) ==> index[y] == old(index)[y]
      ensures root.sumWeight == old(root.sumWeight) + weight - old(WeightOf(x))
    {
      assert Folds.Open(Folds.Shares);
      if x in index {
        var root', diff := SetNodeWeight(root, index[x], weight);
        root := root';
        if weight == 0 {
          index := index - {x};
        }
      } else if weight != 0 {
        Add(x, weight);
      }
    }

    method Add(x: T, weight: nat)
      requires Valid() && x !in index && weight > 0
      modifies this
      ensures Valid() && index.Keys == old(index.Keys) + {x} && root.sumWeight == old(root.sumWeight) + weight
      ensures WeightOf(x) == weight && forall y :: y != x ==> WeightOf(y) == old(WeightOf(y))
      ensures forall y :: y in old(index) ==> index[y] == old(index)[y]
    {
      var root', index' := AddTo(root, index, x, weight);
      root, index := root', index';
      assert Folds.Open(Folds.Shares);
    }

    /** The stored weights of all items. */
    ghost function Weights(): map<T, nat>
      reads this
    {
      WeightsIn(root, index)
    }

    /** Draws until an item is accepted, refreshing stored weights that are out of date on the way. Weights may change
        meanwhile: `current(x, k)` is what item `x` weighs at the `k`-th draw. If they do not, an item is chosen exactly
        when one weighs something, and if the stored weights are up to date, it is the one whose share the first random
        number falls into. Ends, because every rejected draw lowers the whole weight. */
    method Choose(current: (T, nat) -> nat, rand: (nat, nat) -> nat) returns (chosen: Option<T>, ghost draws: nat)
      requires Valid() && Draws(rand)
      modifies this
      ensures Valid() && Refreshed(old(Weights()), Weights(), current, draws)
      ensures chosen.None? ==> forall x :: x in old(Weights()) ==> ReadAs(current, x, 0, draws)
      ensures chosen.Some? ==> chosen.value in old(Weights()) && draws > 0 && current(chosen.value, draws - 1) > 0
      ensures Steady(current) ==> (chosen.None? <==> forall x :: x in old(Weights()) ==> current(x, 0) == 0)
      ensures old(UpToDate(current)) && old(Weights()) != map[] ==>
        && chosen.Some? && chosen.value in old(index)
        && FallsInto(old(root), rand(0, old(root.sumWeight)), old(index)[chosen.value])
    {
      var k := 0;
      ghost var before := Weights();
      while true
        invariant Valid() && Refreshed(before, Weights(), current, k)
        invariant AllCurrent(before, current) ==> k == 0
        invariant k == 0 ==> root == old(root) && index == old(index)
        decreases root.sumWeight
      {
        if root.sumWeight == 0 {
          NothingStored();
          SteadyMeans(before.Keys, current, None, k);
          return None, k;
        }
        var choice, accepted := Redraw(before, current, k, rand);
        k := k + 1;
        if accepted {
          SteadyMeans(before.Keys, current, Some(choice), k);
          return Some(choice), k;
        }
      }
    }

    /** A draw, with what it adds to the draws before it. */
    method Redraw(ghost before: map<T, nat>, current: (T, nat) -> nat, k: nat, rand: (nat, nat) -> nat)
      returns (choice: T, accepted: bool)
      requires Valid() && root.sumWeight > 0 && Draws(rand) && Refreshed(before, Weights(), current, k)
      requires k == 0 ==> before == Weights()
      modifies this
      ensures Valid() && Refreshed(before, Weights(), current, k + 1)
      ensures choice in before && choice in old(index) && (accepted ==> current(choice, k) > 0)
      ensures FallsInto(old(root), rand(2 * k, old(root.sumWeight)), old(index)[choice])
      ensures k == 0 && AllCurrent(before, current) ==> accepted
      ensures !accepted ==> root.sumWeight < old(root.sumWeight)
    {
      ghost var weights := Weights();
      choice, accepted := Draw(current, k, rand);
      RefreshOne(before, weights, current, k, choice, Weights());
    }

    /** The stored weights are those of the first draw. */
    ghost predicate UpToDate(current: (T, nat) -> nat)
      reads this
    {
      AllCurrent(Weights(), current)
    }

    /** The item whose share a number falls into. */
    method Find(val: nat) returns (choice: T, weight: nat)
      requires Valid() && val < root.sumWeight
      ensures choice in index && FallsInto(root, val, index[choice]) && WeightOf(choice) == weight > 0
    {
      assert Folds.Open(Folds.Shares);
      ghost var i;
      choice, weight, i := ChooseNode(root, val);
      StoredWeighs(root, i);
    }

    /** One draw: the item whose share the first number falls into. It is accepted if it weighs no less than stored, or
        if the second number, drawn below the stored weight, is below the current one. */
    method Draw(current: (T, nat) -> nat, k: nat, rand: (nat, nat) -> nat) returns (choice: T, accepted: bool)
      requires Valid() && root.sumWeight > 0 && Draws(rand)
      modifies this
      ensures Valid() && choice in old(index) && (accepted ==> current(choice, k) > 0)
      ensures FallsInto(old(root), rand(2 * k, old(root.sumWeight)), old(index)[choice])
      ensures accepted <==>
        current(choice, k) >= old(Weights())[choice] || rand(2 * k + 1, old(Weights())[choice]) < current(choice, k)
      ensures Weights() == Reweighed(old(Weights()), choice, current(choice, k))
      ensures !accepted ==> root.sumWeight < old(root.sumWeight)
    {
      var lastWeight;
      choice, lastWeight := Find(rand(2 * k, root.sumWeight));
      var weight := current(choice, k);
      if weight != lastWeight {
        SetWeight(choice, weight);
      }
      forall y | y != choice
        ensures WeightIn(root, index, y) == WeightIn(old(root), old(index), y)
      {
        assert WeightOf(y) == old(WeightOf(y));
      }
      assert WeightOf(choice) == weight;
      WeightsChange(old(root), old(index), root, index, choice, weight);
      accepted := weight >= lastWeight || rand(2 * k + 1, lastWeight) < weight;
    }

    lemma NothingStored()
      requires Valid() && root.sumWeight == 0
      ensures index == map[] && Weights() == map[]
    {
      assert Folds.Open(Folds.Shares);
      if index != map[] {
        var x :| x in index;
        StoredWeighs(root, index[x]);
        ShareEnds(root, index[x]);
      }
    }
  }

  /** `Hits`, folded. */
  ghost predicate FallsInto<T>(n: Node<T>, val: nat, i: nat) {
    forall u {:trigger Folds.Open(u)} :: Folds.Open(u) && u == Folds.Shares ==> NodeOk(n) && Hits(n, val, i)
  }

  /** The `k`-th random number below a positive bound is below it. */
  ghost predicate Draws(rand: (nat, nat) -> nat) {
    forall k: nat, bound: nat {:trigger rand(k, bound)} :: bound > 0 ==> rand(k, bound) < bound
  }

  lemma WeightsChange<T(!new)>(root: Node<T>, index: map<T, nat>, root': Node<T>, index': map<T, nat>, x: T, w: nat)
    requires x in index && index'.Keys == if w == 0 then index.Keys - {x} else index.Keys
    requires WeightIn(root', index', x) == w
    requires forall y :: y != x ==> WeightIn(root', index', y) == WeightIn(root, index, y)
    ensures WeightsIn(root', index') == Reweighed(WeightsIn(root, index), x, w)
  {
  }

  /** At one of the first `draws` draws the item weighed `w`. */
  ghost predicate ReadAs<T>(current: (T, nat) -> nat, x: T, w: nat, draws: nat) {
    exists k: nat :: k < draws && current(x, k) == w
  }

  /** Only items that weighed nothing when they were drawn have left the set, and a stored weight that changed is one
      that was read. */
  ghost predicate Refreshed<T(!new)>(before: map<T, nat>, after: map<T, nat>, current: (T, nat) -> nat, draws: nat) {
    && after.Keys <= before.Keys
    && (forall x :: x in before && x !in after ==> ReadAs(current, x, 0, draws))
    && (forall x :: x in after ==> after[x] == before[x] || ReadAs(current, x, after[x], draws))
  }

  function Reweighed<T>(weights: map<T, nat>, x: T, w: nat): map<T, nat> {
    if w == 0 then weights - {x} else weights[x := w]
  }

  lemma RefreshOne<T(!new)>(before: map<T, nat>, weights: map<T, nat>, current: (T, nat) -> nat, k: nat, x: T,
      after: map<T, nat>)
    requires Refreshed(before, weights, current, k) && x in weights && after == Reweighed(weights, x, current(x, k))
    ensures Refreshed(before, after, current, k + 1)
  {
    assert ReadAs(current, x, current(x, k), k + 1);
    forall y, w: nat | ReadAs(current, y, w, k)
      ensures ReadAs(current, y, w, k + 1)
    {
      var j: nat :| j < k && current(y, j) == w;
      assert j < k + 1;
    }
  }

  ghost predicate AllCurrent<T>(weights: map<T, nat>, current: (T, nat) -> nat) {
    forall x :: x in weights ==> weights[x] == current(x, 0)
  }

  /** Every item weighs the same at every draw. */
  ghost predicate Steady<T(!new)>(current: (T, nat) -> nat) {
    forall x, k: nat {:trigger current(x, k)} :: current(x, k) == current(x, 0)
  }

  lemma SteadyMeans<T(!new)>(before: set<T>, current: (T, nat) -> nat, chosen: Option<T>, draws: nat)
    requires chosen.None? ==> forall x :: x in before ==> ReadAs(current, x, 0, draws)
    requires chosen.Some? ==> chosen.value in before && draws > 0 && current(chosen.value, draws - 1) > 0
    ensures Steady(current) ==> (chosen.None? <==> forall x :: x in before ==> current(x, 0) == 0)
  {
  }

  lemma {:induction false} StoredWeighs<T>(n: Node<T>, i: nat)
    requires NodeOk(n) && At(n, i).Some?
    ensures At(n, i).value.1 > 0
  {
    if n.level == 0 {
      KidFits(n, i);
    } else {
      KidFits(n, Branch(n.level, i));
      StoredWeighs(n.items[Branch(n.level, i)].node, Rest(n.level, i));
    }
  }
}

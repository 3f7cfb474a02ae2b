/** The heap of nonces (nonceHeap of evmcore/tx_list.go under the sift operations of container/heap). */
module NonceHeap {

  function Parent(k: nat): (p: nat)
    requires k > 0
    ensures p < k
  {
    (k - 1) / 2
  }

  /** The element at `k` is not below its parent. */
  ghost predicate Edge(h: seq<nat>, k: nat)
    requires 0 < k < |h|
  {
    h[Parent(k)] <= h[k]
  }

  ghost predicate IsHeap(h: seq<nat>) {
    HeapPart(h, 0, |h|)
  }

  /** The heap order among the first `n`, from parent `lo` on. */
  ghost predicate HeapPart(h: seq<nat>, lo: nat, n: nat) {
    n <= |h| && forall k: nat {:trigger Edge(h, k)} :: 0 < k < n && lo <= Parent(k) ==> Edge(h, k)
  }

  /** No child of `i` among the first `n` is below `x`. */
  ghost predicate ChildrenAbove(h: seq<nat>, n: nat, i: nat, x: nat)
    requires n <= |h|
  {
    forall k: nat {:trigger h[k]} :: 0 < k < n && Parent(k) == i ==> x <= h[k]
  }

  lemma {:induction false} MinFirst(h: seq<nat>, k: nat)
    requires IsHeap(h) && k < |h|
    ensures h[0] <= h[k]
  {
    if k > 0 {
      assert Edge(h, k);
      MinFirst(h, Parent(k));
    }
  }

  function Swap(h: seq<nat>, i: nat, j: nat): seq<nat>
    requires i < |h| && j < |h|
  {
    h[i := h[j]][j := h[i]]
  }

  lemma SwapKeeps(h: seq<nat>, i: nat, j: nat)
    requires i < |h| && j < |h|
    ensures multiset(Swap(h, i, j)) == multiset(h)
  {
  }

  // ---------------------------------------------------------------- sifting up

  /** A heap but for `j`, which may be too small for its place. */
  ghost predicate HeapButUp(h: seq<nat>, j: nat) {
    && j < |h|
    && (forall k: nat {:trigger Edge(h, k)} :: 0 < k < |h| && k != j ==> Edge(h, k))
    && (j > 0 ==> ChildrenAbove(h, |h|, j, h[Parent(j)]))
  }

  lemma UpStep(h: seq<nat>, j: nat)
    requires HeapButUp(h, j) && j > 0 && h[j] < h[Parent(j)]
    ensures HeapButUp(Swap(h, Parent(j), j), Parent(j))
  {
    var i := Parent(j);
    var h' := Swap(h, i, j);
    forall k: nat | 0 < k < |h|
      ensures k != i ==> Edge(h', k)
      ensures Parent(k) == i && i > 0 ==> h'[Parent(i)] <= h'[k]
    {
      assert k != j ==> Edge(h, k);
      assert i > 0 ==> Edge(h, i);
    }
  }

  method Up(h: seq<nat>, j0: nat) returns (r: seq<nat>)
    requires HeapButUp(h, j0)
    ensures IsHeap(r) && multiset(r) == multiset(h)
  {
    r := h;
    var j := j0;
    while j > 0 && r[j] < r[Parent(j)]
      invariant HeapButUp(r, j) && multiset(r) == multiset(h)
      decreases j
    {
      UpStep(r, j);
      SwapKeeps(r, Parent(j), j);
      r, j := Swap(r, Parent(j), j), Parent(j);
    }
  }

  // ---------------------------------------------------------------- sifting down

  /** The heap order among the first `n`, from parent `lo` on, but for the edges at `i`; the one to its
      parent counts once `i` was sifted down to where it is. */
  ghost predicate HeapButDown(h: seq<nat>, lo: nat, n: nat, i: nat, moved: bool) {
    && lo <= i < n <= |h|
    && (forall k: nat {:trigger Edge(h, k)} :: 0 < k < n && lo <= Parent(k) != i && (k != i || moved) ==> Edge(h, k))
    && (0 < i && lo <= Parent(i) ==> ChildrenAbove(h, n, i, h[Parent(i)]))
  }

  lemma DownStep(h: seq<nat>, lo: nat, n: nat, i: nat, moved: bool, j: nat)
    requires HeapButDown(h, lo, n, i, moved) && 0 < j < n && Parent(j) == i && h[j] < h[i]
    requires ChildrenAbove(h, n, i, h[j])
    ensures HeapButDown(Swap(h, i, j), lo, n, j, true)
  {
    var h' := Swap(h, i, j);
    assert Edge(h, j) || true;
    forall k: nat | 0 < k < n
      ensures lo <= Parent(k) != j ==> Edge(h', k)
      ensures Parent(k) == j ==> h'[Parent(j)] <= h'[k]
    {
      assert Edge(h, k) || true;
    }
  }

  /** The smaller child of `i`. */
  lemma Child(h: seq<nat>, n: nat, i: nat, j: nat)
    requires n <= |h| && 2 * i + 1 < n
    requires j == if 2 * i + 2 < n && h[2 * i + 2] < h[2 * i + 1] then 2 * i + 2 else 2 * i + 1
    ensures Parent(j) == i && ChildrenAbove(h, n, i, h[j])
  {
    forall k: nat | 0 < k < n && Parent(k) == i
      ensures h[j] <= h[k]
    {
      assert k == 2 * i + 1 || k == 2 * i + 2;
    }
  }

  /** Sifts `i0` down among the first `n`. */
  method Down(h: seq<nat>, ghost lo: nat, i0: nat, n: nat) returns (r: seq<nat>, moved: bool)
    requires HeapButDown(h, lo, n, i0, false)
    ensures |r| == |h| && multiset(r) == multiset(h) && r[n..] == h[n..]
    ensures !moved ==>
      r == h && forall k: nat {:trigger Edge(h, k)} :: 0 < k < n && lo <= Parent(k) && k != i0 ==> Edge(h, k)
    ensures moved ==> HeapPart(r, lo, n)
  {
    r, moved := h, false;
    var i := i0;
    while 2 * i + 1 < n
      invariant HeapButDown(r, lo, n, i, moved) && |r| == |h| && multiset(r) == multiset(h) && r[n..] == h[n..]
      invariant i >= i0 && (moved <==> i > i0) && (!moved ==> r == h)
      decreases n - i
    {
      var j := if 2 * i + 2 < n && r[2 * i + 2] < r[2 * i + 1] then 2 * i + 2 else 2 * i + 1;
      Child(r, n, i, j);
      if r[j] >= r[i] {
        break;
      }
      DownStep(r, lo, n, i, moved, j);
      SwapKeeps(r, i, j);
      r, i, moved := Swap(r, i, j), j, true;
    }
    DownEnds(r, lo, n, i, moved);
  }

  lemma DownEnds(h: seq<nat>, lo: nat, n: nat, i: nat, moved: bool)
    requires HeapButDown(h, lo, n, i, moved)
    requires ChildrenAbove(h, n, i, h[i])
    ensures forall k: nat {:trigger Edge(h, k)} :: 0 < k < n && lo <= Parent(k) && (k != i || moved) ==> Edge(h, k)
  {
  }

  // ---------------------------------------------------------------- the operations

  method Push(h: seq<nat>, x: nat) returns (r: seq<nat>)
    requires IsHeap(h)
    ensures IsHeap(r) && multiset(r) == multiset(h) + multiset{x}
  {
    r := h + [x];
    forall k: nat | 0 < k < |r|
      ensures k != |h| ==> Edge(r, k)
      ensures Parent(k) != |h|
    {
      assert k < |h| ==> Edge(h, k);
    }
    r := Up(r, |h|);
  }

  lemma PopSwapped(h: seq<nat>, s: seq<nat>)
    requires IsHeap(h) && |h| > 1 && s == Swap(h, 0, |h| - 1)
    ensures HeapButDown(s, 0, |h| - 1, 0, false)
  {
    forall k: nat | 0 < k < |h| - 1 && Parent(k) != 0
      ensures Edge(s, k)
    {
      assert Edge(h, k);
    }
  }

  /** Takes out the least element. */
  method Pop(h: seq<nat>) returns (x: nat, r: seq<nat>)
    requires IsHeap(h) && h != []
    ensures x == h[0] && IsHeap(r) && multiset(h) == multiset(r) + multiset{x}
  {
    var n := |h| - 1;
    if n == 0 {
      assert h == [] + [h[0]];
      return h[0], [];
    }
    var s := Swap(h, 0, n);
    SwapKeeps(h, 0, n);
    PopSwapped(h, s);
    var t, moved := Down(s, 0, 0, n);
    assert t[n] == t[n..][0] == s[n..][0];
    PartIsHeap(t, n);
    x, r := t[n], t[..n];
    assert t == r + [x];
  }

  lemma PartIsHeap(s: seq<nat>, n: nat)
    requires n <= |s|
    ensures HeapPart(s, 0, n) ==> IsHeap(s[..n])
  {
    if HeapPart(s, 0, n) {
      forall k: nat | 0 < k < n
        ensures Edge(s[..n], k)
      {
        assert Edge(s, k);
      }
    }
  }

  /** Takes out the element at `i`. */
  method Remove(h: seq<nat>, i: nat) returns (r: seq<nat>)
    requires IsHeap(h) && i < |h|
    ensures IsHeap(r) && multiset(h) == multiset(r) + multiset{h[i]}
  {
    var n := |h| - 1;
    if i == n {
      assert h == h[..n] + [h[n]];
      WholePart(h, n);
      PartIsHeap(h, n);
      return h[..n];
    }
    var s := Swap(h, i, n);
    SwapKeeps(h, i, n);
    RemoveSwapped(h, i, s);
    var t, moved := Down(s, 0, i, n);
    assert t[n] == t[n..][0] == s[n..][0] == h[i];
    assert t == t[..n] + [h[i]];
    if moved {
      PartIsHeap(t, n);
      r := t[..n];
    } else {
      StuckIsUp(h, i, s);
      r := Up(t[..n], i);
    }
  }

  lemma WholePart(h: seq<nat>, n: nat)
    requires IsHeap(h) && n <= |h|
    ensures HeapPart(h, 0, n)
  {
  }

  lemma RemoveSwapped(h: seq<nat>, i: nat, s: seq<nat>)
    requires IsHeap(h) && i < |h| - 1 && s == Swap(h, i, |h| - 1)
    ensures HeapButDown(s, 0, |h| - 1, i, false)
  {
    forall k: nat | 0 < k < |h| - 1
      ensures Parent(k) != i && k != i ==> Edge(s, k)
      ensures Parent(k) == i && i > 0 ==> s[Parent(i)] <= s[k]
    {
      assert Edge(h, k);
      assert i > 0 ==> Edge(h, i);
    }
  }

  lemma StuckIsUp(h: seq<nat>, i: nat, s: seq<nat>)
    requires IsHeap(h) && i < |h| - 1 && s == Swap(h, i, |h| - 1)
    requires forall k: nat {:trigger Edge(s, k)} :: 0 < k < |h| - 1 && k != i ==> Edge(s, k)
    ensures HeapButUp(s[..|h| - 1], i)
  {
    RemoveSwapped(h, i, s);
    var t := s[..|h| - 1];
    forall k: nat | 0 < k < |t|
      ensures k != i ==> Edge(t, k)
      ensures Parent(k) == i && i > 0 ==> t[Parent(i)] <= t[k]
    {
      assert Edge(s, k) || k == i;
    }
  }

  /** Makes any sequence a heap. */
  method Init(h: seq<nat>) returns (r: seq<nat>)
    ensures IsHeap(r) && multiset(r) == multiset(h)
  {
    r := h;
    var i := |h| / 2;
    while i > 0
      invariant |r| == |h| && multiset(r) == multiset(h) && 0 <= i <= |h| / 2
      invariant HeapPart(r, i, |r|)
    {
      i := i - 1;
      var moved;
      r, moved := Down(r, i, i, |r|);
    }
  }
}

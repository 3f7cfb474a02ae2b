/** Sorting as the library call promises it: some permutation of the input, in order. */
module Sorting {

  ghost predicate SortedBy<T>(s: seq<T>, le: (T, T) -> bool) {
    forall i, j :: 0 <= i < j < |s| ==> le(s[i], s[j])
  }

  ghost predicate TotalPreorder<T(!new)>(le: (T, T) -> bool) {
    && (forall x, y :: le(x, y) || le(y, x))
    && (forall x, y, z :: le(x, y) && le(y, z) ==> le(x, z))
  }

  /** Sorts by insertion; callers may rely on order and permutation only. */
  method Sort<T(!new)>(s: seq<T>, le: (T, T) -> bool) returns (r: seq<T>)
    requires TotalPreorder(le)
    ensures SortedBy(r, le) && multiset(r) == multiset(s)
  {
    r := [];
    for i := 0 to |s|
      invariant SortedBy(r, le) && multiset(r) == multiset(s[..i])
    {
      r := Insert(r, s[i], le);
      assert s[..i + 1] == s[..i] + [s[i]];
    }
    assert s[..|s|] == s;
  }

  method Insert<T(!new)>(r: seq<T>, x: T, le: (T, T) -> bool) returns (r': seq<T>)
    requires TotalPreorder(le) && SortedBy(r, le)
    ensures SortedBy(r', le) && multiset(r') == multiset(r) + multiset{x}
  {
    var k := |r|;
    while k > 0 && !le(r[k - 1], x)
      invariant 0 <= k <= |r|
      invariant forall j :: k <= j < |r| ==> le(x, r[j])
    {
      k := k - 1;
    }
    InsertKeepsOrder(r, x, k, le);
    assert r == r[..k] + r[k..];
    r' := r[..k] + [x] + r[k..];
  }

  lemma InsertKeepsOrder<T(!new)>(r: seq<T>, x: T, k: nat, le: (T, T) -> bool)
    requires TotalPreorder(le) && SortedBy(r, le) && k <= |r|
    requires forall j :: k <= j < |r| ==> le(x, r[j])
    requires k > 0 ==> le(r[k - 1], x)
    ensures SortedBy(r[..k] + [x] + r[k..], le)
  {
    forall j | 0 <= j < k
      ensures le(r[j], x)
    {
      assert j < k - 1 ==> le(r[j], r[k - 1]);
    }
  }

  /** Under an order that tells different elements apart, the sorted permutation is unique. */
  lemma {:induction false} SortedIsUnique<T(!new)>(a: seq<T>, b: seq<T>, le: (T, T) -> bool)
    requires SortedBy(a, le) && SortedBy(b, le) && multiset(a) == multiset(b)
    requires forall x, y :: x in a && y in a && le(x, y) && le(y, x) ==> x == y
    ensures a == b
  {
    assert |a| == |multiset(a)| && |b| == |multiset(b)|;
    if a != [] {
      assert a == [a[0]] + a[1..];
      assert a[0] in multiset(a);
      assert a[0] in multiset(b);
      assert b == [b[0]] + b[1..];
      assert b[0] in multiset(b);
      assert b[0] in multiset(a);
      assert a[0] == b[0];
      assert multiset(a[1..]) == multiset(a) - multiset{a[0]};
      assert multiset(b[1..]) == multiset(b) - multiset{b[0]};
      SortedIsUnique(a[1..], b[1..], le);
    }
  }

  /** Sum of the weights of a sequence. */
  ghost function Sum<T>(s: seq<T>, w: T -> nat): nat {
    if s == [] then 0 else w(s[0]) + Sum(s[1..], w)
  }

  lemma {:induction false} SumAppend<T>(a: seq<T>, b: seq<T>, w: T -> nat)
    ensures Sum(a + b, w) == Sum(a, w) + Sum(b, w)
  {
    if a == [] {
      assert a + b == b;
    } else {
      assert (a + b)[1..] == a[1..] + b;
      SumAppend(a[1..], b, w);
    }
  }

  lemma SumWithout<T>(s: seq<T>, i: nat, w: T -> nat)
    requires i < |s|
    ensures Sum(s, w) == w(s[i]) + Sum(s[..i] + s[i + 1..], w)
    ensures multiset(s) == multiset(s[..i] + s[i + 1..]) + multiset{s[i]}
  {
    assert s == s[..i] + ([s[i]] + s[i + 1..]);
    SumAppend(s[..i], [s[i]] + s[i + 1..], w);
    SumAppend(s[..i], s[i + 1..], w);
    assert ([s[i]] + s[i + 1..])[1..] == s[i + 1..];
  }

  lemma FirstAside<T>(a: seq<T>)
    requires a != []
    ensures multiset(a) == multiset(a[1..]) + multiset{a[0]}
  {
    assert a == [a[0]] + a[1..];
  }

  /** The sum does not depend on the order. */
  lemma {:induction false} SumOfPermutation<T>(a: seq<T>, b: seq<T>, w: T -> nat)
    requires multiset(a) == multiset(b)
    ensures Sum(a, w) == Sum(b, w)
  {
    assert |a| == |multiset(a)| && |b| == |multiset(b)|;
    if a != [] {
      assert a[0] in multiset(a);
      assert a[0] in multiset(b);
      var i :| 0 <= i < |b| && b[i] == a[0];
      SumWithout(b, i, w);
      FirstAside(a);
      assert multiset(a[1..]) == multiset(a) - multiset{a[0]} == multiset(b[..i] + b[i + 1..]);
      SumOfPermutation(a[1..], b[..i] + b[i + 1..], w);
    }
  }

  lemma {:induction false} SumMonotone<T>(s: seq<T>, v: T -> nat, w: T -> nat)
    requires forall x :: x in s ==> v(x) <= w(x)
    ensures Sum(s, v) <= Sum(s, w)
  {
    if s != [] {
      SumMonotone(s[1..], v, w);
    }
  }
}

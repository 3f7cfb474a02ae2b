/** Weighted random permutation (utils/weighted_shuffle.go) and the turns that emitters take by it
    (gossip/emitter.go). The random stream that the code derives from a seed is a parameter. */
module WeightedShuffle {
  import Folds
  import opened Words
  import opened Sequences
  import opened Stakes

  datatype Node = Node(thisWeight: nat, leftWeight: nat, rightWeight: nat)

  /** Position `j` lies in the subtree at `i` of the implicit binary tree. */
  predicate Below(i: nat, j: nat)
    decreases j
  {
    j == i || (j > i && Below(i, (j - 1) / 2))
  }

  /** A subtree is its root and the two disjoint subtrees of the children. */
  lemma {:induction false} BelowSplit(i: nat, j: nat)
    ensures Below(i, j) <==> j == i || Below(2 * i + 1, j) || Below(2 * i + 2, j)
    ensures !(Below(2 * i + 1, j) && Below(2 * i + 2, j)) && !Below(2 * i + 1, i) && !Below(2 * i + 2, i)
    decreases j
  {
    if j > i {
      BelowSplit(i, (j - 1) / 2);
    }
  }

  lemma {:induction false} AllBelowRoot(j: nat)
    ensures Below(0, j)
  {
    if j > 0 {
      AllBelowRoot((j - 1) / 2);
    }
  }

  /** Weight of the positions of `rest` in the subtree at `i`. */
  ghost function Weigh(w: seq<nat>, rest: set<nat>, i: nat): nat
    decreases |w| - i
  {
    if i >= |w| then 0
    else (if i in rest then w[i] else 0) + Weigh(w, rest, 2 * i + 1) + Weigh(w, rest, 2 * i + 2)
  }

  lemma {:induction false} WeighWithout(w: seq<nat>, rest: set<nat>, i: nat, c: nat)
    requires c < |w| && c in rest
    ensures Weigh(w, rest, i) == Weigh(w, rest - {c}, i) + (if Below(i, c) then w[c] else 0)
    decreases |w| - i
  {
    if i < |w| {
      BelowSplit(i, c);
      WeighWithout(w, rest, 2 * i + 1, c);
      WeighWithout(w, rest, 2 * i + 2, c);
    }
  }

  lemma {:induction false} NothingWeighs(w: seq<nat>, i: nat)
    ensures Weigh(w, {}, i) == 0
    decreases |w| - i
  {
    if i < |w| {
      NothingWeighs(w, 2 * i + 1);
      NothingWeighs(w, 2 * i + 2);
    }
  }

  /** The tree weighs what the positions weigh. */
  lemma {:induction false} TreeWeighsAll(w: seq<nat>, rest: set<nat>)
    requires forall j :: j in rest ==> j < |w|
    ensures Weigh(w, rest, 0) == StakeOf(w, rest)
    decreases |rest|
  {
    if rest == {} {
      NothingWeighs(w, 0);
      StakeEmpty(w, |w|);
    } else {
      var c :| c in rest;
      TreeWeighsAll(w, rest - {c});
      AllBelowRoot(c);
      WeighWithout(w, rest, 0, c);
      StakeInsert(w, rest - {c}, c, |w|);
      assert rest - {c} + {c} == rest;
    }
  }

  ghost predicate Positive(w: seq<nat>) {
    forall j :: 0 <= j < |w| ==> w[j] > 0
  }

  /** All positions. */
  ghost function All(n: nat): (s: set<nat>)
    ensures forall j :: j in s <==> 0 <= j < n
  {
    if n == 0 then {} else All(n - 1) + {n - 1}
  }

  lemma {:induction false} AllSize(n: nat)
    ensures |All(n)| == n
  {
    if n > 0 {
      AllSize(n - 1);
    }
  }

  /** Below the whole sum, no partial sum can wrap. */
  lemma NoWrap(w: seq<nat>)
    requires Total(w) < WORD
    ensures Weigh(w, All(|w|), 0) < WORD
  {
    TreeWeighsAll(w, All(|w|));
    StakeOfAll(w, |w|);
  }

  lemma {:induction false} StakeOfAll(w: seq<nat>, k: nat)
    requires k <= |w|
    ensures StakeUpTo(w, All(|w|), k) == SumUpTo(w, k)
  {
    if k > 0 {
      StakeOfAll(w, k - 1);
    }
  }

  /** Wrapping the parts of a sum first changes nothing. */
  lemma SumsWrapOnce(a: nat, b: nat, c: nat)
    ensures U64(a + U64(b) + U64(c)) == U64(a + b + c)
    ensures a + b + c < WORD ==> U64(b) == b && U64(c) == c
  {
    var q := b / WORD + c / WORD;
    assert a + b + c == a + U64(b) + U64(c) + q * WORD;
    WrapsBy(a + U64(b) + U64(c), q);
  }

  lemma WrapsBy(x: nat, q: nat)
    ensures U64(x + q * WORD) == U64(x)
  {
    var k := x / WORD;
    assert x + q * WORD == (k + q) * WORD + x % WORD;
  }

  /** The first draw is taken modulo the 64-bit sum of the weights. It divides by zero exactly when the sum is a
      multiple of 2^64, and only below 2^64 is the modulus the sum. */
  lemma FirstModulus(w: seq<nat>)
    requires w != []
    ensures U64(Weigh(w, All(|w|), 0)) == 0 <==> Total(w) % WORD == 0
    ensures U64(Weigh(w, All(|w|), 0)) == Total(w) <==> Total(w) < WORD
  {
    TreeWeighsAll(w, All(|w|));
    StakeOfAll(w, |w|);
  }

  /** Two weights of 2^63 make the first draw divide by zero. */
  lemma TwoHalvesDivideByZero()
    ensures Positive([HALF, HALF]) && U64(Weigh([HALF, HALF], All(2), 0)) == 0
  {
    var w := [HALF, HALF];
    assert SumUpTo(w, 0) == 0 && SumUpTo(w, 1) == HALF && SumUpTo(w, 2) == WORD;
    FirstModulus(w);
  }

  // ---------------------------------------------------------------- what is drawn

  /** The position drawn from the subtree at `i`, and the place in the stream after it. */
  ghost function Pick(w: seq<nat>, rest: set<nat>, i: nat, words: nat -> nat, k: nat): (nat, nat)
    requires Weigh(w, rest, i) > 0
    decreases |w| - i
  {
    var this' := if i in rest then w[i] else 0;
    var left := Weigh(w, rest, 2 * i + 1);
    var r := words(k) % Weigh(w, rest, i);
    if r < this' then (i, k + 1)
    else if r < this' + left then Pick(w, rest, 2 * i + 1, words, k + 1)
    else Pick(w, rest, 2 * i + 2, words, k + 1)
  }

  lemma {:induction false} PickIsLeft(w: seq<nat>, rest: set<nat>, i: nat, words: nat -> nat, k: nat)
    requires Weigh(w, rest, i) > 0
    ensures Pick(w, rest, i, words, k).0 in rest && Pick(w, rest, i, words, k).0 < |w|
    ensures Below(i, Pick(w, rest, i, words, k).0)
    decreases |w| - i
  {
    var this' := if i in rest then w[i] else 0;
    var left := Weigh(w, rest, 2 * i + 1);
    var r := words(k) % Weigh(w, rest, i);
    if r >= this' {
      var child := if r < this' + left then 2 * i + 1 else 2 * i + 2;
      PickIsLeft(w, rest, child, words, k + 1);
      BelowSplit(i, Pick(w, rest, child, words, k + 1).0);
    }
  }

  // ---------------------------------------------------------------- how likely a position is

  datatype Way = Here | Left | Right

  /** Where a number below the weight of the subtree at `i` leads. */
  ghost function WayOf(w: seq<nat>, rest: set<nat>, i: nat, r: nat): Way
    requires i < |w|
  {
    var this' := if i in rest then w[i] else 0;
    if r < this' then Here else if r < this' + Weigh(w, rest, 2 * i + 1) then Left else Right
  }

  /** The draw goes where the number leads. */
  lemma PickGoes(w: seq<nat>, rest: set<nat>, i: nat, words: nat -> nat, k: nat)
    requires Weigh(w, rest, i) > 0
    ensures i < |w|
    ensures var way := WayOf(w, rest, i, words(k) % Weigh(w, rest, i));
      && (way.Here? ==> Pick(w, rest, i, words, k) == (i, k + 1))
      && (way.Left? ==>
            Weigh(w, rest, 2 * i + 1) > 0 && Pick(w, rest, i, words, k) == Pick(w, rest, 2 * i + 1, words, k + 1))
      && (way.Right? ==>
            Weigh(w, rest, 2 * i + 2) > 0 && Pick(w, rest, i, words, k) == Pick(w, rest, 2 * i + 2, words, k + 1))
  {
  }

  /** The numbers below the weight of the subtree that lead one way. */
  ghost function Leading(w: seq<nat>, rest: set<nat>, i: nat, way: Way): set<nat>
    requires i < |w|
  {
    set r: nat | r < Weigh(w, rest, i) && WayOf(w, rest, i, r) == way
  }

  lemma {:induction false} Between(s: set<nat>, lo: nat, hi: nat)
    requires lo <= hi && forall r: nat :: r in s <==> lo <= r < hi
    ensures |s| == hi - lo
    decreases hi
  {
    if lo < hi {
      var shorter := s - {hi - 1};
      assert forall r: nat :: r in shorter <==> lo <= r < hi - 1;
      Between(shorter, lo, hi - 1);
    } else {
      assert s == {};
    }
  }

  /** As many numbers lead each way as weighs what lies there. */
  lemma LeadingCounts(w: seq<nat>, rest: set<nat>, i: nat)
    requires i < |w|
    ensures |Leading(w, rest, i, Here)| == if i in rest then w[i] else 0
    ensures |Leading(w, rest, i, Left)| == Weigh(w, rest, 2 * i + 1)
    ensures |Leading(w, rest, i, Right)| == Weigh(w, rest, 2 * i + 2)
  {
    var this' := if i in rest then w[i] else 0;
    var left, all := Weigh(w, rest, 2 * i + 1), Weigh(w, rest, i);
    assert all == this' + left + Weigh(w, rest, 2 * i + 2);
    var here, toLeft, toRight := Leading(w, rest, i, Here), Leading(w, rest, i, Left), Leading(w, rest, i, Right);
    assert forall r: nat :: r in here <==> 0 <= r < this';
    assert forall r: nat :: r in toLeft <==> this' <= r < this' + left;
    assert forall r: nat :: r in toRight <==> this' + left <= r < all;
    Between(here, 0, this');
    Between(toLeft, this', this' + left);
    Between(toRight, this' + left, all);
  }

  function Ratio(a: nat, b: nat): real {
    if b == 0 then 0.0 else a as real / b as real
  }

  /** The chance that a number below the weight of the subtree at `i` leads one way, if all are as likely. */
  ghost function WayChance(w: seq<nat>, rest: set<nat>, i: nat, way: Way): real
    requires i < |w|
  {
    Ratio(|Leading(w, rest, i, way)|, Weigh(w, rest, i))
  }

  /** How likely a draw goes each way at each position of the tree. */
  type Odds = (nat, Way) -> real

  ghost function OddsOf(w: seq<nat>, rest: set<nat>): Odds {
    (i: nat, way: Way) => if i < |w| then WayChance(w, rest, i, way) else 0.0
  }

  /** The chance that a draw from the subtree at `i` ends at `c`. */
  ghost function Chance(odds: Odds, size: nat, i: nat, c: nat): real
    decreases size - i
  {
    if i >= size then 0.0
    else if c == i then odds(i, Here)
    else if Below(2 * i + 1, c) then odds(i, Left) * Chance(odds, size, 2 * i + 1, c)
    else odds(i, Right) * Chance(odds, size, 2 * i + 2, c)
  }

  /** The chance is `a` in `b`; folded. */
  ghost predicate InRatio(chance: real, a: nat, b: nat) {
    forall u {:trigger Folds.Open(u)} :: Folds.Open(u) && u == Folds.Draw ==> chance == Ratio(a, b)
  }

  lemma Cancels(p: real, q: real, a: nat, b: nat, c: nat)
    requires b > 0 && c > 0 && InRatio(p, b, c) && InRatio(q, a, b)
    ensures InRatio(p * q, a, c)
  {
    assert Folds.Open(Folds.Draw);
  }

  /** At a position the odds are as the weights there and on the two sides. */
  ghost predicate FairAt(odds: Odds, w: seq<nat>, rest: set<nat>, i: nat)
    requires i < |w|
  {
    && InRatio(odds(i, Here), if i in rest then w[i] else 0, Weigh(w, rest, i))
    && InRatio(odds(i, Left), Weigh(w, rest, 2 * i + 1), Weigh(w, rest, i))
    && InRatio(odds(i, Right), Weigh(w, rest, 2 * i + 2), Weigh(w, rest, i))
  }

  lemma OddsAreFair(w: seq<nat>, rest: set<nat>, i: nat)
    requires i < |w|
    ensures FairAt(OddsOf(w, rest), w, rest, i)
  {
    LeadingCounts(w, rest, i);
  }

  lemma HasWeight(w: seq<nat>, rest: set<nat>, i: nat, c: nat)
    requires c < |w| && c in rest && w[c] > 0 && Below(i, c)
    ensures i < |w| && Weigh(w, rest, i) > 0
  {
    BelowIsLater(i, c);
    WeighWithout(w, rest, i, c);
  }

  lemma {:induction false} FairOddsGiveShare(odds: Odds, w: seq<nat>, rest: set<nat>, i: nat, c: nat)
    requires c < |w| && c in rest && w[c] > 0 && Below(i, c)
    requires forall j {:trigger FairAt(odds, w, rest, j)} :: 0 <= j < |w| ==> FairAt(odds, w, rest, j)
    ensures InRatio(Chance(odds, |w|, i, c), w[c], Weigh(w, rest, i))
    decreases |w| - i
  {
    HasWeight(w, rest, i, c);
    assert FairAt(odds, w, rest, i);
    if c != i {
      BelowSplit(i, c);
      var way, child := Right, 2 * i + 2;
      if Below(2 * i + 1, c) {
        way, child := Left, 2 * i + 1;
      }
      HasWeight(w, rest, child, c);
      FairOddsGiveShare(odds, w, rest, child, c);
      Cancels(odds(i, way), Chance(odds, |w|, child, c), w[c], Weigh(w, rest, child), Weigh(w, rest, i));
    }
  }

  /** Exactly proportional: a position that is left is drawn with the chance of its share of the weight. */
  lemma DrawIsProportional(w: seq<nat>, rest: set<nat>, i: nat, c: nat)
    requires c < |w| && c in rest && w[c] > 0 && Below(i, c)
    ensures Weigh(w, rest, i) > 0
    ensures Chance(OddsOf(w, rest), |w|, i, c) == w[c] as real / Weigh(w, rest, i) as real
  {
    HasWeight(w, rest, i, c);
    var odds := OddsOf(w, rest);
    forall j: nat | j < |w|
      ensures FairAt(odds, w, rest, j)
    {
      OddsAreFair(w, rest, j);
    }
    FairOddsGiveShare(odds, w, rest, i, c);
    assert Folds.Open(Folds.Draw);
  }

  lemma {:induction false} BelowIsLater(i: nat, j: nat)
    requires Below(i, j)
    ensures i <= j
  {
  }

  lemma SomethingLeft(w: seq<nat>, rest: set<nat>)
    requires Positive(w) && rest != {} && forall j :: j in rest ==> j < |w|
    ensures Weigh(w, rest, 0) > 0
  {
    var c :| c in rest;
    AllBelowRoot(c);
    WeighWithout(w, rest, 0, c);
  }

  /** The drawn positions, those that are left, and the place in the stream. */
  datatype State = State(perm: seq<nat>, rest: set<nat>, place: nat)

  /** One draw from the tree. */
  ghost function Step(w: seq<nat>, words: nat -> nat, s: State): State {
    if Weigh(w, s.rest, 0) == 0 then s
    else
      var (c, place) := Pick(w, s.rest, 0, words, s.place);
      State(s.perm + [c], s.rest - {c}, place)
  }

  ghost function Stepper(w: seq<nat>, words: nat -> nat): State -> State {
    (s: State) => Step(w, words, s)
  }

  ghost function Iterate(n: nat, step: State -> State, size: nat): State {
    if size == 0 then State([], All(n), 0) else step(Iterate(n, step, size - 1))
  }

  /** After `size` draws. */
  ghost function Drawn(w: seq<nat>, words: nat -> nat, size: nat): State {
    Iterate(|w|, Stepper(w, words), size)
  }

  /** Every position is either drawn, once, or left. */
  ghost predicate StateOk(n: nat, s: State) {
    && NoDuplicates(s.perm) && |s.perm| + |s.rest| == n
    && (forall j :: 0 <= j < n ==> (j in s.perm <==> j !in s.rest))
    && (forall j :: j in s.perm || j in s.rest ==> j < n)
  }

  /** One position more is drawn, and what was drawn before stays. */
  ghost predicate Follows(n: nat, s: State, t: State) {
    StateOk(n, t) && |t.perm| == |s.perm| + 1 && s.perm <= t.perm
  }

  ghost predicate Sound(n: nat, step: State -> State) {
    forall s: State {:trigger step(s)} :: StateOk(n, s) && s.rest != {} ==> Follows(n, s, step(s))
  }

  lemma StepFollows(w: seq<nat>, words: nat -> nat, s: State)
    requires Positive(w) && StateOk(|w|, s) && s.rest != {}
    ensures Follows(|w|, s, Step(w, words, s))
  {
    SomethingLeft(w, s.rest);
    PickIsLeft(w, s.rest, 0, words, s.place);
    var c := Pick(w, s.rest, 0, words, s.place).0;
    assert c !in s.perm;
    assert forall j :: j in s.perm + [c] <==> j in s.perm || j == c;
  }

  lemma StepperIsSound(w: seq<nat>, words: nat -> nat)
    requires Positive(w)
    ensures Sound(|w|, Stepper(w, words))
  {
    forall s: State | StateOk(|w|, s) && s.rest != {}
      ensures Follows(|w|, s, Stepper(w, words)(s))
    {
      StepFollows(w, words, s);
    }
  }

  lemma {:induction false} IterateOk(n: nat, step: State -> State, size: nat)
    requires Sound(n, step) && size <= n
    ensures StateOk(n, Iterate(n, step, size)) && |Iterate(n, step, size).perm| == size
  {
    if size == 0 {
      AllSize(n);
    } else {
      IterateOk(n, step, size - 1);
      var s := Iterate(n, step, size - 1);
      assert |s.rest| > 0;
      assert Follows(n, s, step(s));
    }
  }

  lemma {:induction false} IterateIsPrefix(n: nat, step: State -> State, size: nat, more: nat)
    requires Sound(n, step) && size <= more <= n
    ensures Iterate(n, step, size).perm <= Iterate(n, step, more).perm
    decreases more
  {
    if size < more {
      IterateIsPrefix(n, step, size, more - 1);
      IterateOk(n, step, more - 1);
      var s := Iterate(n, step, more - 1);
      assert |s.rest| > 0;
      assert Follows(n, s, step(s));
    }
  }

  lemma DrawnOk(w: seq<nat>, words: nat -> nat, size: nat)
    requires Positive(w) && size <= |w|
    ensures StateOk(|w|, Drawn(w, words, size)) && |Drawn(w, words, size).perm| == size
  {
    StepperIsSound(w, words);
    IterateOk(|w|, Stepper(w, words), size);
  }

  /** A shorter permutation is a prefix of a longer one. */
  lemma DrawnIsPrefix(w: seq<nat>, words: nat -> nat, size: nat, more: nat)
    requires Positive(w) && size <= more <= |w|
    ensures Drawn(w, words, size).perm <= Drawn(w, words, more).perm
  {
    StepperIsSound(w, words);
    IterateIsPrefix(|w|, Stepper(w, words), size, more);
  }

  /** The whole permutation holds every position. */
  lemma WholeHoldsAll(w: seq<nat>, words: nat -> nat, v: nat)
    requires Positive(w) && v < |w|
    ensures v in Drawn(w, words, |w|).perm
  {
    DrawnOk(w, words, |w|);
    assert Drawn(w, words, |w|).rest == {};
  }

  // ---------------------------------------------------------------- turns

  /** The validator whose turn it is in a round: the last of as many as there were rounds. */
  ghost predicate HasTurn(w: seq<nat>, words: nat -> nat, round: nat, v: nat) {
    |Drawn(w, words, round + 1).perm| > round && Drawn(w, words, round + 1).perm[round] == v
  }

  lemma TurnIsEntry(w: seq<nat>, words: nat -> nat, round: nat, v: nat)
    requires Positive(w) && round < |w|
    ensures |Drawn(w, words, |w|).perm| == |w|
    ensures HasTurn(w, words, round, v) <==> Drawn(w, words, |w|).perm[round] == v
  {
    DrawnOk(w, words, round + 1);
    DrawnOk(w, words, |w|);
    DrawnIsPrefix(w, words, round + 1, |w|);
  }

  /** In a cycle of rounds every validator has its turn exactly once. */
  lemma EveryoneOnce(w: seq<nat>, words: nat -> nat, v: nat) returns (round: nat)
    requires Positive(w) && v < |w|
    ensures round < |w| && forall r: nat :: r < |w| ==> (HasTurn(w, words, r, v) <==> r == round)
  {
    var whole := Drawn(w, words, |w|);
    WholeHoldsAll(w, words, v);
    DrawnOk(w, words, |w|);
    round :| 0 <= round < |whole.perm| && whole.perm[round] == v;
    forall r: nat | r < |w|
      ensures HasTurn(w, words, r, v) <==> r == round
    {
      TurnIsEntry(w, words, r, v);
    }
  }

  // ---------------------------------------------------------------- the tree of the code

  ghost function NodeFor(w: seq<nat>, rest: set<nat>, i: nat): Node {
    Node(if i < |w| && i in rest then w[i] else 0, Weigh(w, rest, 2 * i + 1), Weigh(w, rest, 2 * i + 2))
  }

  /** What taking position `c` out changes at node `j`. */
  lemma NodeWithout(w: seq<nat>, rest: set<nat>, c: nat, j: nat)
    requires c < |w| && c in rest
    ensures Below(2 * j + 1, c) ==> Weigh(w, rest, 2 * j + 1) >= w[c]
    ensures Below(2 * j + 2, c) ==> Weigh(w, rest, 2 * j + 2) >= w[c]
    ensures var n := NodeFor(w, rest, j);
            NodeFor(w, rest - {c}, j) ==
              Node(if j == c then 0 else n.thisWeight,
                   n.leftWeight - (if Below(2 * j + 1, c) then w[c] else 0),
                   n.rightWeight - (if Below(2 * j + 2, c) then w[c] else 0))
  {
    WeighWithout(w, rest, 2 * j + 1, c);
    WeighWithout(w, rest, 2 * j + 2, c);
  }

  lemma {:induction false} BelowTransitive(a: nat, b: nat, c: nat)
    requires Below(a, b) && Below(b, c)
    ensures Below(a, c)
    decreases c
  {
    if c != b {
      BelowTransitive(a, b, (c - 1) / 2);
    }
  }

  /** A node below one child does not notice what is taken out below the other. */
  lemma Elsewhere(w: seq<nat>, rest: set<nat>, i: nat, child: nat, c: nat, j: nat)
    requires c < |w| && c in rest && (child == 2 * i + 1 || child == 2 * i + 2) && Below(child, c)
    requires Below(i, j) && j != i && !Below(child, j)
    ensures NodeFor(w, rest - {c}, j) == NodeFor(w, rest, j)
  {
    NodeWithout(w, rest, c, j);
    BelowSplit(i, j);
    BelowSplit(i, c);
    BelowSplit(j, c);
    var other := if child == 2 * i + 1 then 2 * i + 2 else 2 * i + 1;
    if Below(j, c) {
      BelowTransitive(other, j, c);
      assert false;
    }
  }

  /** The nodes of the subtree at `i` hold the weights of what is left. */
  ghost predicate Holds(w: seq<nat>, nodes: seq<Node>, rest: set<nat>, i: nat) {
    |nodes| == |w| && forall j: nat {:trigger Below(i, j)} {:trigger nodes[j]} ::
      j < |w| && Below(i, j) ==> nodes[j] == NodeFor(w, rest, j)
  }

  ghost predicate SameOutside(before: seq<Node>, after: seq<Node>, i: nat) {
    |after| == |before| && forall j: nat {:trigger Below(i, j)} {:trigger after[j]} ::
      j < |before| && !Below(i, j) ==> after[j] == before[j]
  }

  lemma ThisTaken(w: seq<nat>, rest: set<nat>, i: nat, nodes: seq<Node>)
    requires Holds(w, nodes, rest, i) && i < |w| && i in rest
    ensures Holds(w, nodes[i := nodes[i].(thisWeight := 0)], rest - {i}, i)
    ensures SameOutside(nodes, nodes[i := nodes[i].(thisWeight := 0)], i)
  {
    var after := nodes[i := nodes[i].(thisWeight := 0)];
    forall j: nat | j < |w| && Below(i, j)
      ensures after[j] == NodeFor(w, rest - {i}, j)
    {
      NodeWithout(w, rest, i, j);
    }
  }

  lemma ChildHolds(w: seq<nat>, rest: set<nat>, i: nat, child: nat, nodes: seq<Node>)
    requires Holds(w, nodes, rest, i) && (child == 2 * i + 1 || child == 2 * i + 2)
    ensures Holds(w, nodes, rest, child)
  {
    forall j: nat | j < |w| && Below(child, j)
      ensures nodes[j] == NodeFor(w, rest, j)
    {
      BelowSplit(i, j);
    }
  }

  lemma ChildTaken(w: seq<nat>, rest: set<nat>, i: nat, child: nat, c: nat, before: seq<Node>, between: seq<Node>)
    requires Holds(w, before, rest, i) && i < |w| && (child == 2 * i + 1 || child == 2 * i + 2)
    requires c < |w| && c in rest && Below(child, c)
    requires Holds(w, between, rest - {c}, child) && SameOutside(before, between, child)
    ensures c != i && between[i] == NodeFor(w, rest, i)
    ensures Holds(w, between[i := NodeFor(w, rest - {c}, i)], rest - {c}, i)
    ensures SameOutside(before, between[i := NodeFor(w, rest - {c}, i)], i)
    ensures child == 2 * i + 1 ==>
      between[i].leftWeight >= w[c] && NodeFor(w, rest - {c}, i) ==
        between[i].(leftWeight := between[i].leftWeight - w[c])
    ensures child == 2 * i + 2 ==>
      between[i].rightWeight >= w[c] && NodeFor(w, rest - {c}, i) ==
        between[i].(rightWeight := between[i].rightWeight - w[c])
  {
    var after := between[i := NodeFor(w, rest - {c}, i)];
    NodeWithout(w, rest, c, i);
    BelowSplit(i, c);
    BelowSplit(i, i);
    assert Below(i, i) && !Below(child, i);
    forall j: nat | j < |w|
      ensures Below(i, j) ==> after[j] == NodeFor(w, rest - {c}, j)
      ensures !Below(i, j) ==> after[j] == before[j]
    {
      BelowSplit(i, j);
      if Below(i, j) && j != i && !Below(child, j) {
        Elsewhere(w, rest, i, child, c, j);
      }
    }
  }

  /** Position `c` is picked and `k'` is the place in the stream after it; folded. */
  ghost predicate IsPick(w: seq<nat>, rest: set<nat>, i: nat, words: nat -> nat, k: nat, c: nat, k': nat) {
    Weigh(w, rest, i) > 0 && forall u {:trigger Folds.Open(u)} ::
      Folds.Open(u) && u == Folds.Pick ==> (c, k') == Pick(w, rest, i, words, k)
  }

  lemma PickedIsLeft(w: seq<nat>, rest: set<nat>, i: nat, words: nat -> nat, k: nat, c: nat, k': nat)
    requires IsPick(w, rest, i, words, k, c, k')
    ensures c in rest && c < |w| && Below(i, c)
  {
    assert Folds.Open(Folds.Pick);
    PickIsLeft(w, rest, i, words, k);
  }

  /** A node holds the whole weight of its subtree, and a random number below it picks the node itself or one child. */
  lemma PickThis(w: seq<nat>, rest: set<nat>, i: nat, words: nat -> nat, k: nat, r: nat)
    requires 0 < Weigh(w, rest, i) && r == words(k) % Weigh(w, rest, i) && r < NodeFor(w, rest, i).thisWeight
    ensures i in rest && IsPick(w, rest, i, words, k, i, k + 1)
  {
  }

  lemma ChildToPick(w: seq<nat>, rest: set<nat>, i: nat, words: nat -> nat, k: nat, r: nat, child: nat)
    requires 0 < Weigh(w, rest, i) && r == words(k) % Weigh(w, rest, i) && r >= NodeFor(w, rest, i).thisWeight
    requires child == if r < NodeFor(w, rest, i).thisWeight + NodeFor(w, rest, i).leftWeight then 2 * i + 1
      else 2 * i + 2
    ensures i < |w| && 0 < Weigh(w, rest, child) <= Weigh(w, rest, i)
  {
  }

  lemma PickBelow(w: seq<nat>, rest: set<nat>, i: nat, words: nat -> nat, k: nat, r: nat, child: nat, c: nat, k': nat)
    requires 0 < Weigh(w, rest, i) && r == words(k) % Weigh(w, rest, i) && r >= NodeFor(w, rest, i).thisWeight
    requires child == if r < NodeFor(w, rest, i).thisWeight + NodeFor(w, rest, i).leftWeight then 2 * i + 1
      else 2 * i + 2
    requires IsPick(w, rest, child, words, k + 1, c, k')
    ensures IsPick(w, rest, i, words, k, c, k')
  {
    assert Folds.Open(Folds.Pick);
  }

  lemma NodeTotal(w: seq<nat>, rest: set<nat>, i: nat, nodes: seq<Node>)
    requires Holds(w, nodes, rest, i) && 0 < Weigh(w, rest, i) < WORD
    ensures i < |nodes| && nodes[i] == NodeFor(w, rest, i)
    ensures nodes[i].rightWeight + nodes[i].leftWeight + nodes[i].thisWeight == Weigh(w, rest, i)
  {
    assert Below(i, i);
    WeighIsNode(w, rest, i);
  }

  lemma WeighIsNode(w: seq<nat>, rest: set<nat>, i: nat)
    requires i < |w|
    ensures var n := NodeFor(w, rest, i); n.rightWeight + n.leftWeight + n.thisWeight == Weigh(w, rest, i)
  {
  }

  class Tree {
    const weights: seq<nat>
    const nodes: array<Node>
    const words: nat -> nat
    var position: nat

    /** `Holds`, folded so that users of the tree do not carry it around. */
    ghost predicate HoldsBelow(rest: set<nat>, i: nat)
      reads this, nodes
    {
      forall u {:trigger Folds.Open(u)} :: Folds.Open(u) && u == Folds.Draw ==> Holds(weights, nodes[..], rest, i)
    }

    constructor (weights: seq<nat>, words: nat -> nat)
      ensures this.weights == weights && this.words == words && position == 0 && fresh(nodes)
      ensures nodes.Length == |weights|
    {
      this.weights, this.words, position := weights, words, 0;
      nodes := new Node[|weights|](_ => Node(0, 0, 0));
    }

    method Rand64() returns (r: nat)
      modifies this`position
      ensures r == words(old(position)) && position == old(position) + 1
    {
      r := words(position);
      position := position + 1;
    }

    /** Fills the subtree at `i`. Its sum comes out modulo 2^64, and below 2^64 every node holds what it should. */
    method Build(i: nat) returns (sum: nat)
      requires nodes.Length == |weights| && Positive(weights)
      modifies nodes
      ensures sum == U64(Weigh(weights, All(|weights|), i))
      ensures Weigh(weights, All(|weights|), i) < WORD ==> HoldsBelow(All(|weights|), i)
      ensures i < |weights| ==> U64(nodes[i].rightWeight + nodes[i].leftWeight + nodes[i].thisWeight) == sum
      ensures SameOutside(old(nodes[..]), nodes[..], i)
      decreases |weights| - i
    {
      if i >= |weights| {
        forall j: nat | j < |weights|
          ensures !Below(i, j)
        {
        }
        return 0;
      }
      assert Folds.Open(Folds.Draw);
      var left := Build(2 * i + 1);
      var right := Build(2 * i + 2);
      nodes[i] := Node(weights[i], left, right);
      SumsWrapOnce(weights[i], Weigh(weights, All(|weights|), 2 * i + 1), Weigh(weights, All(|weights|), 2 * i + 2));
      forall j: nat | j < |weights|
        ensures Weigh(weights, All(|weights|), i) < WORD && Below(i, j) ==>
          nodes[j] == NodeFor(weights, All(|weights|), j)
        ensures !Below(i, j) ==> nodes[j] == old(nodes[j])
      {
        BelowSplit(i, j);
      }
      sum := U64(weights[i] + left + right);
    }

    /** Draws a position of the subtree at `i` and takes its weight out of the subtree. The modulus is never zero. */
    method Retrieve(i: nat, ghost rest: set<nat>) returns (chosen: nat)
      requires HoldsBelow(rest, i) && 0 < Weigh(weights, rest, i) < WORD
      modifies this`position, nodes
      ensures IsPick(weights, rest, i, words, old(position), chosen, position)
      ensures HoldsBelow(rest - {chosen}, i)
      ensures SameOutside(old(nodes[..]), nodes[..], i)
      decreases |weights| - i, 1
    {
      ghost var place := position;
      assert Holds(weights, nodes[..], rest, i) by {
        assert Folds.Open(Folds.Draw);
      }
      NodeTotal(weights, rest, i, nodes[..]);
      var node := nodes[i];
      InWord(node.rightWeight + node.leftWeight + node.thisWeight);
      var total := U64(node.rightWeight + node.leftWeight + node.thisWeight);
      var random := Rand64();
      var r := random % total;
      if r < node.thisWeight {
        PickThis(weights, rest, i, words, place, r);
        TakeThis(i, rest);
        return i;
      }
      var child := if r < node.thisWeight + node.leftWeight then 2 * i + 1 else 2 * i + 2;
      ChildToPick(weights, rest, i, words, place, r, child);
      chosen := RetrieveBelow(i, child, rest);
      PickBelow(weights, rest, i, words, place, r, child, chosen, position);
    }

    method TakeThis(i: nat, ghost rest: set<nat>)
      requires HoldsBelow(rest, i) && i < |weights| == nodes.Length && i in rest
      modifies nodes
      ensures HoldsBelow(rest - {i}, i) && SameOutside(old(nodes[..]), nodes[..], i)
    {
      assert Folds.Open(Folds.Draw);
      ThisTaken(weights, rest, i, nodes[..]);
      nodes[i] := nodes[i].(thisWeight := 0);
    }

    method RetrieveBelow(i: nat, child: nat, ghost rest: set<nat>) returns (chosen: nat)
      requires HoldsBelow(rest, i) && i < |weights| && (child == 2 * i + 1 || child == 2 * i + 2)
      requires 0 < Weigh(weights, rest, child) < WORD
      modifies this`position, nodes
      ensures IsPick(weights, rest, child, words, old(position), chosen, position)
      ensures HoldsBelow(rest - {chosen}, i)
      ensures SameOutside(old(nodes[..]), nodes[..], i)
      decreases |weights| - i, 0
    {
      ghost var before := nodes[..];
      assert Folds.Open(Folds.Draw);
      ChildHolds(weights, rest, i, child, before);
      ghost var place := position;
      chosen := Retrieve(child, rest);
      PickedIsLeft(weights, rest, child, words, place, chosen, position);
      ghost var between := nodes[..];
      ChildTaken(weights, rest, i, child, chosen, before, between);
      if child == 2 * i + 1 {
        nodes[i] := nodes[i].(leftWeight := nodes[i].leftWeight - weights[chosen]);
      } else {
        nodes[i] := nodes[i].(rightWeight := nodes[i].rightWeight - weights[chosen]);
      }
      assert nodes[..] == between[i := nodes[i]];
    }
  }

  /** The first `size` entries of the weighted permutation. */
  method WeightedPermutation(size: nat, weights: seq<nat>, words: nat -> nat) returns (permutation: seq<nat>)
    requires size <= |weights| && Positive(weights) && Total(weights) < WORD
    ensures permutation == Drawn(weights, words, size).perm
    ensures |permutation| == size && NoDuplicates(permutation) && forall j :: j in permutation ==> j < |weights|
  {
    ghost var state;
    permutation, state := Permute(size, weights, words);
    ReadOff(weights, words, size, state);
  }

  lemma ReadOff(w: seq<nat>, words: nat -> nat, size: nat, s: State)
    requires Positive(w) && size <= |w| && IsDrawn(w, words, size, s)
    ensures s.perm == Drawn(w, words, size).perm
    ensures |s.perm| == size && NoDuplicates(s.perm) && forall j :: j in s.perm ==> j < |w|
  {
    assert Folds.Open(Folds.Draw);
    DrawnOk(w, words, size);
  }

  method Permute(size: nat, weights: seq<nat>, words: nat -> nat) returns (permutation: seq<nat>, ghost state: State)
    requires size <= |weights| && Positive(weights) && Total(weights) < WORD
    ensures permutation == state.perm && IsDrawn(weights, words, size, state)
  {
    if |weights| == 0 {
      permutation, state := [], State([], All(|weights|), 0);
      NothingDrawn(weights, words, state);
      return;
    }
    var tree := new Tree(weights, words);
    NoWrap(weights);
    var _ := tree.Build(0);
    permutation, state := DrawAll(tree, size);
  }

  /** `s` is `Drawn`, folded so that loops do not unfold it. */
  ghost predicate IsDrawn(w: seq<nat>, words: nat -> nat, size: nat, s: State) {
    forall u {:trigger Folds.Open(u)} :: Folds.Open(u) && u == Folds.Draw ==> s == Drawn(w, words, size)
  }

  lemma NothingDrawn(w: seq<nat>, words: nat -> nat, s: State)
    requires s == State([], All(|w|), 0)
    ensures IsDrawn(w, words, 0, s)
  {
  }

  method DrawAll(tree: Tree, size: nat) returns (permutation: seq<nat>, ghost state: State)
    requires size <= |tree.weights| && Positive(tree.weights)
    requires tree.position == 0 && tree.HoldsBelow(All(|tree.weights|), 0)
    requires Weigh(tree.weights, All(|tree.weights|), 0) < WORD
    modifies tree`position, tree.nodes
    ensures permutation == state.perm && IsDrawn(tree.weights, tree.words, size, state)
  {
    permutation, state := [], State([], All(|tree.weights|), 0);
    for i := 0 to size
      invariant state == State(permutation, state.rest, tree.position) && tree.HoldsBelow(state.rest, 0)
      invariant IsDrawn(tree.weights, tree.words, i, state) && Weigh(tree.weights, state.rest, 0) < WORD
    {
      permutation, state := DrawOne(tree, i, permutation, state);
    }
  }

  method DrawOne(tree: Tree, i: nat, permutation: seq<nat>, ghost state: State)
    returns (permutation': seq<nat>, ghost state': State)
    requires i < |tree.weights| && Positive(tree.weights)
    requires state == State(permutation, state.rest, tree.position) && tree.HoldsBelow(state.rest, 0)
    requires IsDrawn(tree.weights, tree.words, i, state) && Weigh(tree.weights, state.rest, 0) < WORD
    modifies tree`position, tree.nodes
    ensures state' == State(permutation', state'.rest, tree.position) && tree.HoldsBelow(state'.rest, 0)
    ensures IsDrawn(tree.weights, tree.words, i + 1, state') && Weigh(tree.weights, state'.rest, 0) < WORD
  {
    StillSome(tree.weights, tree.words, i, state);
    var chosen := tree.Retrieve(0, state.rest);
    DrawNext(tree.weights, tree.words, i, state, chosen, tree.position);
    permutation' := permutation + [chosen];
    state' := State(permutation', state.rest - {chosen}, tree.position);
  }

  lemma StillSome(w: seq<nat>, words: nat -> nat, i: nat, s: State)
    requires Positive(w) && i < |w| && IsDrawn(w, words, i, s)
    ensures Weigh(w, s.rest, 0) > 0
  {
    assert Folds.Open(Folds.Draw);
    DrawnOk(w, words, i);
    assert |s.rest| > 0;
    SomethingLeft(w, s.rest);
  }

  lemma DrawNext(w: seq<nat>, words: nat -> nat, i: nat, s: State, c: nat, place: nat)
    requires IsDrawn(w, words, i, s) && IsPick(w, s.rest, 0, words, s.place, c, place)
    ensures IsDrawn(w, words, i + 1, State(s.perm + [c], s.rest - {c}, place))
    ensures Weigh(w, s.rest - {c}, 0) <= Weigh(w, s.rest, 0)
  {
    PickedIsLeft(w, s.rest, 0, words, s.place, c, place);
    assert Folds.Open(Folds.Draw) && Folds.Open(Folds.Pick);
    WeighWithout(w, s.rest, 0, c);
  }
}

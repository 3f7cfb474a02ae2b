/** Growable vectors indexed by branch (vector/vector.go): reading past the end gives zero,
    writing past the end fills the gap with zeros. */
module Vectors {

  /** The span of sequence numbers observed on a branch. */
  datatype BranchSeq = BranchSeq(hi: nat, lo: nat)

  const NOTHING := BranchSeq(0, 0)

  /** The marker that stands for "two events with one number were observed". */
  const FORK := BranchSeq(0, 0x7fff_ffff)

  function At<T>(v: seq<T>, i: nat, zero: T): T {
    if i < |v| then v[i] else zero
  }

  function Put<T>(v: seq<T>, i: nat, x: T, zero: T): (w: seq<T>)
    ensures |w| == if i < |v| then |v| else i + 1
    ensures forall j: nat :: At(w, j, zero) == if j == i then x else At(v, j, zero)
  {
    if i < |v| then v[i := x]
    else v + seq(i - |v|, _ => zero) + [x]
  }

  function SeqAt(v: seq<BranchSeq>, i: nat): BranchSeq {
    At(v, i, NOTHING)
  }

  function NumAt(v: seq<nat>, i: nat): nat {
    At(v, i, 0)
  }
}

/** Definitions that are costly to carry around are folded: they hold under a fold, and stay hidden until
    `assert Folds.Open(...)` opens it. */
module Folds {
  datatype Fold =
    Vectors | Past | Lists | Roots | Ballots | Tables | Lineage | Growth | Choice | Verdict |
    Pick | Draw | Shares | Topics

  /** Never false; mentioning it opens what is folded under `u`. */
  predicate Open(u: Fold) {
    true
  }
}

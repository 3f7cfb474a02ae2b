/** 64-bit machine words. */
module Words {

  const WORD := 0x1_0000_0000_0000_0000
  const HALF := 0x8000_0000_0000_0000

  /** Conversion of any number to uint64. */
  function U64(x: int): (r: nat)
    ensures r < WORD
  {
    x % WORD
  }

  /** Conversion of any number to int64. */
  function I64(x: int): (r: int)
    ensures -HALF <= r < HALF
  {
    (x + HALF) % WORD - HALF
  }

  lemma InWord(x: nat)
    requires x < WORD
    ensures U64(x) == x
  {
  }
}

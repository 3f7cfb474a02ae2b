/** Consensus time (poset/event_ordering.go, poset/frame_info.go): the events of a frame get evenly
    spaced times after the time of the frame before, in 64-bit arithmetic that may wrap on the way. */
module ConsensusTime {
  import opened Words

  /** Persistent data of a decided frame. */
  datatype FrameInfo = FrameInfo(timeOffset: int, timeRatio: nat, lastConsensusTime: nat) {
    function CalcConsensusTime(lamport: nat): nat {
      U64(I64(I64(I64(lamport) * I64(timeRatio)) + timeOffset))
    }
  }

  function Max(x: nat, y: nat): nat {
    if x > y then x else y
  }

  function TimeRatio(last: nat, median: nat, high: nat, low: nat): nat
    requires low <= high
  {
    var lamports := Max(high - low + 1, 1);
    var period := if last > median then 1 else Max(median - last, 1);
    Max(period / lamports, 1)
  }

  /** fareTimestamps, with every conversion the code makes. */
  function FareTimestamps(last: nat, median: nat, high: nat, low: nat): FrameInfo
    requires low <= high
  {
    var ratio := TimeRatio(last, median, high, low);
    var lowest := U64(last + ratio);
    var offset := I64(I64(lowest) - I64(I64(low) * I64(ratio)));
    FrameInfo(offset, ratio, U64(I64(I64(I64(high) * I64(ratio)) + offset)))
  }

  /** The time meant for an event, without any wrapping. */
  function IdealTime(last: nat, ratio: nat, low: nat, lamport: nat): int {
    last + ratio * (lamport - low + 1)
  }

  // ---------------------------------------------------------------- wrapping is harmless

  /** Equal up to a multiple of the word. */
  ghost predicate Same(a: int, b: int) {
    exists k: int :: a == b + k * WORD
  }

  lemma SameIntro(a: int, b: int, k: int)
    requires a == b + k * WORD
    ensures Same(a, b)
  {
  }

  lemma I64Same(x: int)
    ensures Same(I64(x), x)
  {
    var q := (x + HALF) / WORD;
    assert x + HALF == q * WORD + (x + HALF) % WORD;
    SameIntro(I64(x), x, -q);
  }

  lemma U64Same(x: int)
    ensures Same(U64(x), x)
  {
    var q := x / WORD;
    assert x == q * WORD + x % WORD;
    SameIntro(U64(x), x, -q);
  }

  lemma SameAdd(a: int, a': int, b: int, b': int)
    requires Same(a, a') && Same(b, b')
    ensures Same(a + b, a' + b') && Same(a - b, a' - b')
  {
    var k :| a == a' + k * WORD;
    var l :| b == b' + l * WORD;
    SameIntro(a + b, a' + b', k + l);
    SameIntro(a - b, a' - b', k - l);
  }

  lemma SameTrans(a: int, b: int, c: int)
    requires Same(a, b) && Same(b, c)
    ensures Same(a, c)
  {
    var k :| a == b + k * WORD;
    var l :| b == c + l * WORD;
    SameIntro(a, c, k + l);
  }

  lemma SameTimes(x: int, a: int, b: int)
    requires Same(a, b)
    ensures Same(x * a, x * b)
  {
    var k :| a == b + k * WORD;
    assert x * a == x * b + (x * k) * WORD;
    SameIntro(x * a, x * b, x * k);
  }

  /** In range, sameness is equality. */
  lemma SameInRange(a: nat, b: nat)
    requires Same(a, b) && a < WORD && b < WORD
    ensures a == b
  {
    var k :| a == b + k * WORD;
  }

  lemma SameSigned(a: int, b: int)
    requires Same(a, b) && -HALF <= a < HALF && -HALF <= b < HALF
    ensures a == b
  {
    var k :| a == b + k * WORD;
  }

  lemma SignedSame(x: int, y: int)
    requires Same(x, y)
    ensures Same(I64(x), y)
  {
    I64Same(x);
    SameTrans(I64(x), x, y);
  }

  lemma UnsignedSame(x: int, y: int)
    requires Same(x, y)
    ensures Same(U64(x), y)
  {
    U64Same(x);
    SameTrans(U64(x), x, y);
  }

  lemma ProductSame(lamport: nat, ratio: nat)
    requires lamport < HALF
    ensures Same(I64(I64(lamport) * I64(ratio)), lamport * ratio)
  {
    assert I64(lamport) == lamport;
    I64Same(ratio);
    SameTimes(lamport, I64(ratio), ratio);
    SignedSame(lamport * I64(ratio), lamport * ratio);
  }

  lemma DifferenceSame(a: int, a': int, b: int, b': int)
    requires Same(a, a') && Same(b, b')
    ensures Same(I64(a - b), a' - b')
  {
    SameAdd(a, a', b, b');
    SignedSame(a - b, a' - b');
  }

  lemma OffsetSame(last: nat, ratio: nat, low: nat)
    requires low < HALF
    ensures Same(I64(I64(U64(last + ratio)) - I64(I64(low) * I64(ratio))), last + ratio - low * ratio)
  {
    U64Same(last + ratio);
    SignedSame(U64(last + ratio), last + ratio);
    ProductSame(low, ratio);
    DifferenceSame(I64(U64(last + ratio)), last + ratio, I64(I64(low) * I64(ratio)), low * ratio);
  }

  lemma SumSame(a: int, a': int, b: int, b': int)
    requires Same(a, a') && Same(b, b')
    ensures Same(U64(I64(a + b)), a' + b')
  {
    SameAdd(a, a', b, b');
    SignedSame(a + b, a' + b');
    UnsignedSame(I64(a + b), a' + b');
  }

  lemma IdealExpands(last: nat, ratio: nat, low: nat, lamport: nat)
    ensures lamport * ratio + (last + ratio - low * ratio) == IdealTime(last, ratio, low, lamport)
  {
    assert ratio * (lamport - low + 1) == lamport * ratio - low * ratio + ratio;
  }

  /** Whatever wraps on the way, the time that comes out is the ideal one modulo 2^64. */
  lemma TimeIsIdeal(last: nat, median: nat, high: nat, low: nat, lamport: nat)
    requires low <= high < HALF && lamport < HALF
    ensures var info := FareTimestamps(last, median, high, low);
            Same(info.CalcConsensusTime(lamport), IdealTime(last, info.timeRatio, low, lamport))
    ensures FareTimestamps(last, median, high, low).lastConsensusTime ==
      FareTimestamps(last, median, high, low).CalcConsensusTime(high)
  {
    var info := FareTimestamps(last, median, high, low);
    var ratio := info.timeRatio;
    OffsetSame(last, ratio, low);
    ProductSame(lamport, ratio);
    SumSame(I64(I64(lamport) * I64(ratio)), lamport * ratio, info.timeOffset, last + ratio - low * ratio);
    IdealExpands(last, ratio, low, lamport);
  }

  /** As long as the ideal time fits 64 bits, it is the time. */
  lemma TimeFits(last: nat, median: nat, high: nat, low: nat, lamport: nat)
    requires low <= lamport <= high < HALF
    requires IdealTime(last, TimeRatio(last, median, high, low), low, high) < WORD
    ensures FareTimestamps(last, median, high, low).CalcConsensusTime(lamport)
         == IdealTime(last, TimeRatio(last, median, high, low), low, lamport)
  {
    var info := FareTimestamps(last, median, high, low);
    TimeIsIdeal(last, median, high, low, lamport);
    IdealIsMonotone(last, info.timeRatio, low, lamport, high);
    SameInRange(info.CalcConsensusTime(lamport), IdealTime(last, info.timeRatio, low, lamport));
  }

  /** Later Lamport times get later consensus times, all of them after the frame before. */
  lemma IdealIsMonotone(last: nat, ratio: nat, low: nat, l1: nat, l2: nat)
    requires ratio >= 1 && low <= l1 <= l2
    ensures last < IdealTime(last, ratio, low, l1) <= IdealTime(last, ratio, low, l2)
    ensures l1 < l2 ==> IdealTime(last, ratio, low, l1) < IdealTime(last, ratio, low, l2)
  {
    var a, b := l1 - low + 1, l2 - low + 1;
    assert ratio * b == ratio * a + ratio * (l2 - l1);
    assert ratio * a >= a;
    assert ratio * (l2 - l1) >= l2 - l1;
  }

  /** The time of a frame does not run ahead: of the Atropos' median time, or of one tick per Lamport step. */
  lemma TimeIsBounded(last: nat, median: nat, high: nat, low: nat)
    requires low <= high
    ensures IdealTime(last, TimeRatio(last, median, high, low), low, high) <= Max(median, last + (high - low + 1))
  {
    var lamports := high - low + 1;
    var period := if last > median then 1 else Max(median - last, 1);
    assert period / lamports * lamports <= period;
  }

  /** The time of a frame follows the Atropos' median time: it stays within one Lamport span below it, unless the median
      is less than a span ahead, when each Lamport step takes one tick. */
  lemma TimeFollowsMedian(last: nat, median: nat, high: nat, low: nat)
    requires low <= high
    ensures var span := high - low + 1;
      var ideal := IdealTime(last, FareTimestamps(last, median, high, low).timeRatio, low, high);
      if median >= last + span then median - span < ideal <= median else ideal == last + span
  {
    var span := high - low + 1;
    if median >= last + span {
      Quotient(median - last, span);
    } else {
      var period := if last > median then 1 else Max(median - last, 1);
      assert period <= span;
      Quotient(period, span);
    }
  }

  lemma Quotient(a: nat, b: nat)
    requires b > 0
    ensures a - b < a / b * b <= a
    ensures a >= b ==> a / b >= 1
    ensures a <= b ==> a / b <= 1
  {
    assert a == a / b * b + a % b;
    if a / b >= 2 {
      assert a / b * b >= 2 * b;
    }
    if a / b == 0 {
      assert a / b * b == 0;
    }
  }

  /** A time that left the range by less than `last` wraps to before `last`. */
  lemma WrappedIsEarlier(time: nat, ideal: nat, last: nat, step: nat)
    requires Same(time, ideal) && time < WORD && last < WORD && step < WORD
    requires last < ideal <= last + step
    ensures last < time <==> ideal < WORD
    ensures ideal < WORD ==> time == ideal
  {
    var k :| time == ideal + k * WORD;
  }

  /** The time of a frame is later than that of the frame before exactly when it fits 64 bits. */
  lemma FrameTimeIncreases(last: nat, median: nat, high: nat, low: nat)
    requires low <= high < HALF && last < WORD && median < WORD
    ensures last < FareTimestamps(last, median, high, low).lastConsensusTime
       <==> IdealTime(last, TimeRatio(last, median, high, low), low, high) < WORD
  {
    var ratio := TimeRatio(last, median, high, low);
    var ideal := IdealTime(last, ratio, low, high);
    TimeIsIdeal(last, median, high, low, high);
    IdealIsMonotone(last, ratio, low, high, high);
    TimeIsBounded(last, median, high, low);
    var time := FareTimestamps(last, median, high, low).CalcConsensusTime(high);
    var step := ideal - last;
    assert step < WORD;
    WrappedIsEarlier(time, ideal, last, step);
  }

  /** After the last time that 64 bits hold, a frame gets time zero. */
  lemma LastTimeWraps()
    ensures FareTimestamps(WORD - 1, WORD - 1, 1, 1).lastConsensusTime == 0
    ensures IdealTime(WORD - 1, TimeRatio(WORD - 1, WORD - 1, 1, 1), 1, 1) == WORD
  {
    var time := FareTimestamps(WORD - 1, WORD - 1, 1, 1).CalcConsensusTime(1);
    TimeIsIdeal(WORD - 1, WORD - 1, 1, 1, 1);
    SameIntro(WORD, 0, 1);
    SameTrans(time, WORD, 0);
    SameInRange(time, 0);
  }

  /** An event of the frame gets a time after the frame before and not after its own frame. */
  lemma EventTimeInFrame(last: nat, median: nat, high: nat, low: nat, lamport: nat)
    requires low <= lamport <= high < HALF
    requires IdealTime(last, TimeRatio(last, median, high, low), low, high) < WORD
    ensures var info := FareTimestamps(last, median, high, low);
            && info.timeRatio == TimeRatio(last, median, high, low) >= 1
            && info.CalcConsensusTime(lamport) == IdealTime(last, info.timeRatio, low, lamport)
            && info.lastConsensusTime == IdealTime(last, info.timeRatio, low, high)
            && last < info.CalcConsensusTime(lamport) <= info.lastConsensusTime
  {
    TimeFits(last, median, high, low, lamport);
    TimeFits(last, median, high, low, high);
    TimeIsIdeal(last, median, high, low, high);
    IdealIsMonotone(last, TimeRatio(last, median, high, low), low, lamport, high);
  }

  // ---------------------------------------------------------------- serialization of the offset

  const BIAS := (HALF - 1) / 2

  function EncodeOffset(offset: int): nat {
    U64(I64(offset + BIAS))
  }

  function DecodeOffset(m: nat): int {
    I64(I64(m) - BIAS)
  }

  /** Every offset survives being stored, negative ones included. */
  lemma OffsetRoundTrip(offset: int)
    requires -HALF <= offset < HALF
    ensures DecodeOffset(EncodeOffset(offset)) == offset
  {
    var m := EncodeOffset(offset);
    I64Same(offset + BIAS);
    UnsignedSame(I64(offset + BIAS), offset + BIAS);
    SignedSame(m, offset + BIAS);
    SameIntro(BIAS, BIAS, 0);
    DifferenceSame(I64(m), offset + BIAS, BIAS, BIAS);
    SameSigned(DecodeOffset(m), offset);
  }

  /** Offsets no further below zero than the bias are stored as numbers in the same order. */
  lemma OffsetsInOrder(offset: int, offset': int)
    requires -BIAS <= offset <= offset' < HALF - BIAS
    ensures EncodeOffset(offset') - EncodeOffset(offset) == offset' - offset
  {
    InWord(offset + BIAS);
    InWord(offset' + BIAS);
    assert I64(offset + BIAS) == offset + BIAS && I64(offset' + BIAS) == offset' + BIAS;
  }
}

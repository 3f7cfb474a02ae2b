/** Gas power as a token bucket (eventcheck/gaspowercheck/gas_power_check.go): a validator's allowance
    refills with the median time of its events, up to a maximum, and every event spends some of it. */
module GasPower {
  import opened Words
  import opened Stakes
  import opened Dag
  import EventChecks

  const SECOND := 1_000_000_000

  datatype Config = Config(idx: nat, allocPerSec: nat, maxAllocPeriod: nat, startupAllocPeriod: nat, minStartupGas: nat)

  /** What the check reads of an event. */
  datatype Header = Header(epoch: nat, creator: nat, hasSelfParent: bool, medianTime: nat, gasPowerLeft: seq<nat>,
      gasPowerUsed: nat)

  datatype Context = Context(epoch: nat, stakes: seq<nat>, configs: seq<Config>, prevEpochLast: map<nat, Header>,
      refunds: map<nat, nat>, prevEpochEnd: nat)

  datatype GasError = NotRelevant | WrongGasPowerLeft

  /** The share of the allocation that a stake gets, rounded down. */
  function Rate(alloc: nat, stake: nat, total: nat): nat {
    if stake == 0 || total == 0 then 0 else U64(alloc * stake / total)
  }

  function StakeAt(stakes: seq<nat>, v: nat): nat {
    if v < |stakes| then stakes[v] else 0
  }

  function RateOf(ctx: Context, config: Config, v: nat): nat {
    Rate(config.allocPerSec, StakeAt(ctx.stakes, v), Total(ctx.stakes))
  }

  function MaxGasPower(ctx: Context, config: Config, v: nat): nat {
    U64(RateOf(ctx, config, v) * (config.maxAllocPeriod / SECOND))
  }

  function Startup(ctx: Context, config: Config, v: nat): nat {
    var startup := U64(RateOf(ctx, config, v) * (config.startupAllocPeriod / SECOND));
    if StakeAt(ctx.stakes, v) == 0 then 0 else if startup < config.minStartupGas then config.minStartupGas else startup
  }

  function Refund(ctx: Context, v: nat): nat {
    if v in ctx.refunds then ctx.refunds[v] else 0
  }

  /** Where the bucket stood before the event, and when. */
  function Previous(ctx: Context, config: Config, e: Header, selfParent: Header): (nat, nat)
    requires config.idx < |selfParent.gasPowerLeft|
    requires e.creator in ctx.prevEpochLast ==> config.idx < |ctx.prevEpochLast[e.creator].gasPowerLeft|
  {
    var startup := Startup(ctx, config, e.creator);
    if e.hasSelfParent then (selfParent.gasPowerLeft[config.idx], selfParent.medianTime)
    else if e.creator in ctx.prevEpochLast then
      var last := ctx.prevEpochLast[e.creator];
      var left := U64(last.gasPowerLeft[config.idx] + Refund(ctx, e.creator));
      (if left < startup then startup else left, last.medianTime)
    else (U64(startup + Refund(ctx, e.creator)), ctx.prevEpochEnd)
  }

  /** Time that passed forwards; a median time that went back counts for nothing. */
  function Forward(from: nat, to: nat): nat {
    if from > to then 0 else to - from
  }

  /** What the rate allocates in the time that passed. */
  function Refill(passed: nat, rate: nat): nat {
    passed * rate / SECOND
  }

  /** The gas power an event may spend, with every wrap of the code. */
  function CalcGasPower(ctx: Context, config: Config, e: Header, selfParent: Header): (power: nat)
    requires config.idx < |selfParent.gasPowerLeft|
    requires e.creator in ctx.prevEpochLast ==> config.idx < |ctx.prevEpochLast[e.creator].gasPowerLeft|
    ensures power <= MaxGasPower(ctx, config, e.creator)
    ensures IdealPower(ctx, config, e, selfParent) < WORD ==>
      power == Min(MaxGasPower(ctx, config, e.creator), IdealPower(ctx, config, e, selfParent))
  {
    var (left, time) := Previous(ctx, config, e, selfParent);
    var refill := Refill(Forward(time, e.medianTime), RateOf(ctx, config, e.creator));
    FitsTwice(refill, left);
    var power := U64(U64(refill) + left);
    var max := MaxGasPower(ctx, config, e.creator);
    if power > max then max else power
  }

  lemma FitsTwice(x: nat, y: nat)
    ensures x + y < WORD ==> U64(U64(x) + y) == x + y
  {
  }

  ghost predicate Defined(ctx: Context, e: Header, selfParent: Header) {
    && |e.gasPowerLeft| == |selfParent.gasPowerLeft| == |ctx.configs|
    && (forall i :: 0 <= i < |ctx.configs| ==> ctx.configs[i].idx == i)
    && (e.creator in ctx.prevEpochLast ==> |ctx.prevEpochLast[e.creator].gasPowerLeft| == |ctx.configs|)
  }

  /** What is left and what is used make up what was there, for every kind of gas; nothing wraps. */
  ghost predicate Balanced(ctx: Context, e: Header, selfParent: Header)
    requires Defined(ctx, e, selfParent)
  {
    forall i: nat {:trigger BalancedAt(ctx, e, selfParent, i)} ::
      i < |ctx.configs| ==> BalancedAt(ctx, e, selfParent, i)
  }

  ghost predicate BalancedAt(ctx: Context, e: Header, selfParent: Header, i: nat)
    requires Defined(ctx, e, selfParent) && i < |ctx.configs|
  {
    e.gasPowerLeft[i] + e.gasPowerUsed == CalcGasPower(ctx, ctx.configs[i], e, selfParent)
  }

  predicate GasWithinLimits(e: Header) {
    e.gasPowerUsed < EventChecks.GAS_LIMIT && forall i :: 0 <= i < |e.gasPowerLeft| ==>
      e.gasPowerLeft[i] < EventChecks.GAS_LIMIT
  }

  /** The comparison for one kind of gas, in 64 bits. */
  method IsOff(ctx: Context, e: Header, selfParent: Header, i: nat) returns (off: bool)
    requires Defined(ctx, e, selfParent) && GasWithinLimits(e) && i < |ctx.configs|
    ensures off <==> !BalancedAt(ctx, e, selfParent, i)
  {
    var power := CalcGasPower(ctx, ctx.configs[i], e, selfParent);
    InWord(e.gasPowerLeft[i] + e.gasPowerUsed);
    off := U64(e.gasPowerLeft[i] + e.gasPowerUsed) != power;
  }

  /** The check of an event that is within the limits of basiccheck. */
  method Validate(ctx: Context, e: Header, selfParent: Header) returns (err: Option<GasError>)
    requires Defined(ctx, e, selfParent) && GasWithinLimits(e)
    ensures err == Some(NotRelevant) <==> ctx.epoch != e.epoch
    ensures err.None? <==> ctx.epoch == e.epoch && Balanced(ctx, e, selfParent)
  {
    if ctx.epoch != e.epoch {
      return Some(NotRelevant);
    }
    for i := 0 to |ctx.configs|
      invariant forall j: nat {:trigger BalancedAt(ctx, e, selfParent, j)} ::
        j < i ==> BalancedAt(ctx, e, selfParent, j)
    {
      var wrong := IsOff(ctx, e, selfParent, i);
      if wrong {
        assert !BalancedAt(ctx, e, selfParent, i);
        return Some(WrongGasPowerLeft);
      }
    }
    return None;
  }

  // ---------------------------------------------------------------- runs of events

  /** Consecutive events of one creator in one epoch, each of them accepted; `before` stands before the first. */
  ghost predicate AcceptedRun(ctx: Context, before: Header, run: seq<Header>) {
    && (forall i :: 0 <= i < |run| ==>
        Defined(ctx, run[i], Prior(before, run, i)) && Balanced(ctx, run[i], Prior(before, run, i)))
    && (forall i :: 1 <= i < |run| ==> run[i].hasSelfParent && run[i].creator == run[0].creator)
  }

  function Prior(before: Header, run: seq<Header>, i: nat): Header
    requires i < |run|
  {
    if i == 0 then before else run[i - 1]
  }

  function Used(run: seq<Header>): nat {
    if run == [] then 0 else Used(run[..|run| - 1]) + run[|run| - 1].gasPowerUsed
  }

  /** The median time that passed forwards within the run. */
  function Elapsed(run: seq<Header>): nat {
    if |run| <= 1 then 0 else Elapsed(run[..|run| - 1]) + Forward(run[|run| - 2].medianTime, run[|run| - 1].medianTime)
  }

  /** In a run whose time never goes back, that is the time from its first event to its last. */
  lemma {:induction false} ElapsedIsSpan(run: seq<Header>)
    requires run != [] && forall i :: 1 <= i < |run| ==> run[i - 1].medianTime <= run[i].medianTime
    ensures Elapsed(run) == run[|run| - 1].medianTime - run[0].medianTime
  {
    if |run| > 1 {
      ElapsedIsSpan(run[..|run| - 1]);
    }
  }

  /** One event spends at most what was left before it and what its time allocated; time that went back allocates
      nothing. */
  lemma OneEvent(ctx: Context, config: Config, e: Header, selfParent: Header)
    requires config.idx < |selfParent.gasPowerLeft| && e.hasSelfParent
    requires e.creator in ctx.prevEpochLast ==> config.idx < |ctx.prevEpochLast[e.creator].gasPowerLeft|
    ensures SECOND * CalcGasPower(ctx, config, e, selfParent)
         <= SECOND * selfParent.gasPowerLeft[config.idx]
          + RateOf(ctx, config, e.creator) * Forward(selfParent.medianTime, e.medianTime)
    ensures e.medianTime <= selfParent.medianTime ==>
      CalcGasPower(ctx, config, e, selfParent) <= selfParent.gasPowerLeft[config.idx]
  {
    Refilled(Forward(selfParent.medianTime, e.medianTime) * RateOf(ctx, config, e.creator),
        selfParent.gasPowerLeft[config.idx]);
  }

  lemma Refilled(product: nat, left: nat)
    ensures SECOND * U64(U64(product / SECOND) + left) <= SECOND * left + product
    ensures product == 0 ==> U64(U64(product / SECOND) + left) <= left
  {
    Wraps(product / SECOND);
    Wraps(U64(product / SECOND) + left);
  }

  /** And below the maximum, as long as nothing wraps, it may spend all of that but a fraction. */
  lemma OneEventMaySpend(ctx: Context, config: Config, e: Header, selfParent: Header)
    requires config.idx < |selfParent.gasPowerLeft| && e.hasSelfParent
    requires e.creator in ctx.prevEpochLast ==> config.idx < |ctx.prevEpochLast[e.creator].gasPowerLeft|
    requires SECOND * selfParent.gasPowerLeft[config.idx]
           + RateOf(ctx, config, e.creator) * Forward(selfParent.medianTime, e.medianTime) < SECOND * WORD
    ensures var power := CalcGasPower(ctx, config, e, selfParent);
      power < MaxGasPower(ctx, config, e.creator) ==>
        SECOND * (power + 1) > SECOND * selfParent.gasPowerLeft[config.idx]
                             + RateOf(ctx, config, e.creator) * Forward(selfParent.medianTime, e.medianTime)
  {
    AlmostAll(Forward(selfParent.medianTime, e.medianTime) * RateOf(ctx, config, e.creator),
        selfParent.gasPowerLeft[config.idx]);
  }

  lemma AlmostAll(product: nat, left: nat)
    requires SECOND * left + product < SECOND * WORD
    ensures U64(U64(product / SECOND) + left) == product / SECOND + left
    ensures SECOND * (product / SECOND + left + 1) > SECOND * left + product
  {
    FitsTwice(product / SECOND, left);
  }

  /** A bucket holds what the rate allocates in the whole seconds of the longest period. */
  lemma BucketHoldsPeriod(ctx: Context, config: Config, v: nat)
    requires RateOf(ctx, config, v) * config.maxAllocPeriod < SECOND * WORD
    ensures var rate, max := RateOf(ctx, config, v), MaxGasPower(ctx, config, v);
      && SECOND * max <= rate * config.maxAllocPeriod
      && (rate > 0 ==> rate * config.maxAllocPeriod < SECOND * (max + rate))
  {
    WholeSeconds(RateOf(ctx, config, v), config.maxAllocPeriod);
  }

  lemma WholeSeconds(rate: nat, period: nat)
    requires rate * period < SECOND * WORD
    ensures U64(rate * (period / SECOND)) == rate * (period / SECOND)
    ensures SECOND * (rate * (period / SECOND)) <= rate * period
    ensures rate > 0 ==> rate * period < SECOND * (rate * (period / SECOND) + rate)
  {
    var q, r := period / SECOND, period % SECOND;
    Spread(rate, q, r, SECOND);
    InWord(rate * q);
  }

  lemma Spread(rate: nat, q: nat, r: nat, second: nat)
    requires r < second
    ensures rate * (second * q + r) == second * (rate * q) + rate * r
    ensures rate > 0 ==> rate * r < second * rate
  {
  }

  /** The startup gas is what the rate allocates in the whole seconds of the startup period, or the least if more. */
  lemma StartupIsEnough(ctx: Context, config: Config, v: nat)
    requires RateOf(ctx, config, v) * config.startupAllocPeriod < SECOND * WORD && StakeAt(ctx.stakes, v) > 0
    ensures var rate, startup := RateOf(ctx, config, v), Startup(ctx, config, v);
      && startup >= config.minStartupGas
      && (rate > 0 ==> rate * config.startupAllocPeriod < SECOND * (startup + rate))
      && (startup > config.minStartupGas ==> SECOND * startup <= rate * config.startupAllocPeriod)
  {
    WholeSeconds(RateOf(ctx, config, v), config.startupAllocPeriod);
  }

  lemma Wraps(x: nat)
    ensures U64(x) <= x
  {
  }

  function Min(x: nat, y: nat): nat {
    if x < y then x else y
  }

  /** What was left and what the time since then refilled. */
  function IdealPower(ctx: Context, config: Config, e: Header, selfParent: Header): nat
    requires config.idx < |selfParent.gasPowerLeft|
    requires e.creator in ctx.prevEpochLast ==> config.idx < |ctx.prevEpochLast[e.creator].gasPowerLeft|
  {
    var (left, time) := Previous(ctx, config, e, selfParent);
    left + Refill(Forward(time, e.medianTime), RateOf(ctx, config, e.creator))
  }

  /** An epoch's first event starts with at least the startup gas, and with what the previous epoch left and
      refunded. */
  lemma StartsWithStartup(ctx: Context, config: Config, e: Header, selfParent: Header)
    requires config.idx < |selfParent.gasPowerLeft| && !e.hasSelfParent
    requires Startup(ctx, config, e.creator) + Refund(ctx, e.creator) < WORD
    requires e.creator in ctx.prevEpochLast ==>
      config.idx < |ctx.prevEpochLast[e.creator].gasPowerLeft| &&
        ctx.prevEpochLast[e.creator].gasPowerLeft[config.idx] + Refund(ctx, e.creator) < WORD
    ensures var (left, time) := Previous(ctx, config, e, selfParent);
      var startup, refund := Startup(ctx, config, e.creator), Refund(ctx, e.creator);
      && (e.creator in ctx.refunds ==> refund == ctx.refunds[e.creator])
      && (e.creator !in ctx.refunds ==> refund == 0)
      && left >= startup
      && (e.creator in ctx.prevEpochLast ==>
            var last := ctx.prevEpochLast[e.creator];
            && time == last.medianTime && left >= last.gasPowerLeft[config.idx] + refund
            && (left == startup || left == last.gasPowerLeft[config.idx] + refund))
      && (e.creator !in ctx.prevEpochLast ==> time == ctx.prevEpochEnd && left == startup + refund)
  {
    if e.creator in ctx.prevEpochLast {
      InWord(ctx.prevEpochLast[e.creator].gasPowerLeft[config.idx] + Refund(ctx, e.creator));
    } else {
      InWord(Startup(ctx, config, e.creator) + Refund(ctx, e.creator));
    }
  }

  /** Each event of the run leaves and uses at most the maximum, and at most what was left and what the rate
      refilled. */
  ghost predicate Metered(run: seq<Header>, k: nat, rate: nat, max: nat) {
    && (forall i {:trigger run[i]} :: 0 <= i < |run| ==>
        k < |run[i].gasPowerLeft| && run[i].gasPowerLeft[k] + run[i].gasPowerUsed <= max)
    && (forall i: nat {:trigger MeteredAt(run, k, rate, i)} :: 1 <= i < |run| ==> MeteredAt(run, k, rate, i))
  }

  ghost predicate MeteredAt(run: seq<Header>, k: nat, rate: nat, i: nat)
    requires 1 <= i < |run| && k < |run[i].gasPowerLeft| && k < |run[i - 1].gasPowerLeft|
  {
    SECOND * (run[i].gasPowerLeft[k] + run[i].gasPowerUsed) <=
      SECOND * run[i - 1].gasPowerLeft[k] + rate * Forward(run[i - 1].medianTime, run[i].medianTime)
  }

  lemma AddUp(used: nat, left: nat, max: nat, rate: nat, elapsed: nat, used': nat, left': nat, passed: nat)
    requires SECOND * (used + left) <= SECOND * max + rate * elapsed
    requires SECOND * (left' + used') <= SECOND * left + rate * passed
    ensures SECOND * (used + used' + left') <= SECOND * max + rate * (elapsed + passed)
  {
    assert rate * (elapsed + passed) == rate * elapsed + rate * passed;
  }

  lemma {:induction false} MeteredUsage(run: seq<Header>, k: nat, rate: nat, max: nat)
    requires run != [] && Metered(run, k, rate, max)
    ensures SECOND * (Used(run) + run[|run| - 1].gasPowerLeft[k]) <= SECOND * max + rate * Elapsed(run)
  {
    var last := |run| - 1;
    var init := run[..last];
    if last == 0 {
      assert Used(run) == run[0].gasPowerUsed;
    } else {
      forall i: nat | 1 <= i < last
        ensures MeteredAt(init, k, rate, i)
      {
        assert MeteredAt(run, k, rate, i);
      }
      MeteredUsage(init, k, rate, max);
      assert MeteredAt(run, k, rate, last);
      AddUp(Used(init), run[last - 1].gasPowerLeft[k], max, rate, Elapsed(init), run[last].gasPowerUsed,
          run[last].gasPowerLeft[k], Forward(run[last - 1].medianTime, run[last].medianTime));
    }
  }

  /** However long the run: all it used is at most one full bucket and the rate times the time that passed. */
  lemma TokenBucket(ctx: Context, before: Header, run: seq<Header>, k: nat)
    requires run != [] && AcceptedRun(ctx, before, run) && k < |ctx.configs|
    ensures SECOND * Used(run) <=
      SECOND * MaxGasPower(ctx, ctx.configs[k], run[0].creator) +
      RateOf(ctx, ctx.configs[k], run[0].creator) * Elapsed(run)
  {
    var rate, max := RateOf(ctx, ctx.configs[k], run[0].creator), MaxGasPower(ctx, ctx.configs[k], run[0].creator);
    forall i: nat | i < |run|
      ensures k < |run[i].gasPowerLeft| && run[i].gasPowerLeft[k] + run[i].gasPowerUsed <= max
      ensures i > 0 ==> k < |run[i - 1].gasPowerLeft| && MeteredAt(run, k, rate, i)
    {
      var prior := Prior(before, run, i);
      assert Defined(ctx, run[i], prior) && Balanced(ctx, run[i], prior) && BalancedAt(ctx, run[i], prior, k);
      if i > 0 {
        OneEvent(ctx, ctx.configs[k], run[i], prior);
      }
    }
    MeteredUsage(run, k, rate, max);
  }

  // ---------------------------------------------------------------- all validators together

  /** The rates of all validators. */
  function Rates(ctx: Context, config: Config): seq<nat> {
    seq(|ctx.stakes|, (v: nat) => RateOf(ctx, config, v))
  }

  lemma OneShare(alloc: nat, stake: nat, total: nat)
    requires total > 0
    ensures total * Rate(alloc, stake, total) <= alloc * stake
  {
    var q := alloc * stake / total;
    Wraps(q);
    assert total * q <= alloc * stake;
    assert total * U64(q) <= total * q;
  }

  /** A share is rounded down by less than one. */
  lemma ShareIsFair(alloc: nat, stake: nat, total: nat)
    requires total > 0 && stake > 0 && alloc * stake < total * WORD
    ensures total * (Rate(alloc, stake, total) + 1) > alloc * stake
  {
    var product := alloc * stake;
    var q := product / total;
    assert product == total * q + product % total;
    assert q >= WORD ==> total * q >= total * WORD;
    InWord(q);
    assert total * (q + 1) == total * q + total;
  }

  lemma AddShares(t: nat, a: nat, x: nat, x': nat, y: nat, y': nat)
    requires t * x <= a * y && t * x' <= a * y'
    ensures t * (x + x') <= a * (y + y')
  {
  }

  lemma {:induction false} SharesSum(xs: seq<nat>, ys: seq<nat>, t: nat, a: nat, k: nat)
    requires |xs| == |ys| && k <= |xs| && forall i :: 0 <= i < |xs| ==> t * xs[i] <= a * ys[i]
    ensures t * SumUpTo(xs, k) <= a * SumUpTo(ys, k)
  {
    if k > 0 {
      SharesSum(xs, ys, t, a, k - 1);
      AddShares(t, a, SumUpTo(xs, k - 1), xs[k - 1], SumUpTo(ys, k - 1), ys[k - 1]);
    }
  }

  lemma {:induction false} NothingSums(xs: seq<nat>, k: nat)
    requires k <= |xs| && forall i :: 0 <= i < |xs| ==> xs[i] == 0
    ensures SumUpTo(xs, k) == 0
  {
    if k > 0 {
      NothingSums(xs, k - 1);
    }
  }

  lemma Cancel(t: nat, x: nat, a: nat)
    requires t > 0 && t * x <= a * t
    ensures x <= a
  {
    assert t * (x - a) <= 0;
  }

  /** Together the validators refill no faster than the configured rate. */
  lemma RatesWithinAllocation(ctx: Context, config: Config)
    ensures Total(Rates(ctx, config)) <= config.allocPerSec
  {
    var total, rates := Total(ctx.stakes), Rates(ctx, config);
    if total == 0 {
      NothingSums(rates, |rates|);
    } else {
      forall v | 0 <= v < |rates|
        ensures total * rates[v] <= config.allocPerSec * ctx.stakes[v]
      {
        OneShare(config.allocPerSec, ctx.stakes[v], total);
      }
      SharesSum(rates, ctx.stakes, total, config.allocPerSec, |rates|);
      Cancel(total, Total(rates), config.allocPerSec);
    }
  }
}

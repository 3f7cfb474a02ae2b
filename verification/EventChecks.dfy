/** The checks an event passes before it reaches consensus (eventcheck/basiccheck, eventcheck/parentscheck). */
module EventChecks {
  import opened Dag
  import opened Sequences
  import opened Words

  datatype BasicError =
    Version | ExtraTooLarge | TooManyParents | HugeValue | NotInited | ZeroTime | NoParents | SigMalformed

  datatype TxError = NegativeValue | OutOfGas | IntrinsicGas | Underpriced

  datatype ValidateError = Field(error: BasicError) | TooBigGasUsed | WrongGasUsed | BadTx(tx: TxError)

  datatype ParentsError = WrongLamport | DoubleParents | WrongSelfParent | WrongSeq | PastTime

  // ---------------------------------------------------------------- the event alone

  /** What an event carries besides the fields that consensus reads. */
  datatype Envelope = Envelope(
    version: nat,
    extraSize: nat,
    gasPowerUsed: nat,
    maxGasPowerLeft: nat,
    sigSize: nat,
    txs: seq<Transaction>)

  /** A transaction as the check sees it; `intrinsic` is the gas its data costs, unless computing that overflows. */
  datatype Transaction = Transaction(value: int, gasPrice: int, gas: nat, intrinsic: Option<nat>)

  const MAX_EXTRA_DATA := 128
  const GAS_LIMIT := 0x3fff_ffff_ffff_ffff
  const SIG_SIZE := 65

  predicate WithinLimits(e: Event, env: Envelope) {
    && e.seqNum < SEQ_LIMIT && e.epoch < SEQ_LIMIT && e.frame < SEQ_LIMIT && e.lamport < SEQ_LIMIT
    && env.gasPowerUsed < GAS_LIMIT && env.maxGasPowerLeft < GAS_LIMIT
  }

  predicate Inited(e: Event) {
    e.seqNum > 0 && e.epoch > 0 && e.frame > 0 && e.lamport > 0
  }

  predicate Passes(e: Event, env: Envelope, maxParents: nat, err: BasicError) {
    match err
    case Version => env.version == 0
    case ExtraTooLarge => env.extraSize <= MAX_EXTRA_DATA
    case TooManyParents => |e.parents| <= maxParents
    case HugeValue => WithinLimits(e, env)
    case NotInited => Inited(e)
    case ZeroTime => e.claimedTime > 0
    case NoParents => e.seqNum > 1 ==> |e.parents| > 0
    case SigMalformed => env.sigSize == SIG_SIZE
  }

  /** The checks in the order of the code. */
  function Checks(): seq<BasicError> {
    [Version, ExtraTooLarge, TooManyParents, HugeValue, NotInited, ZeroTime, NoParents, SigMalformed]
  }

  /** The version, checkLimits and checkInited: the first check that fails is reported, and none if none does. */
  function BasicCheck(e: Event, env: Envelope, maxParents: nat): (err: Option<BasicError>)
    ensures err.None? <==> forall i :: 0 <= i < |Checks()| ==> Passes(e, env, maxParents, Checks()[i])
    ensures err.Some? ==> !Passes(e, env, maxParents, err.value)
    ensures err.Some? ==> exists i ::
      && 0 <= i < |Checks()| && Checks()[i] == err.value
      && forall j :: 0 <= j < i ==> Passes(e, env, maxParents, Checks()[j])
  {
    if env.version != 0 then assert Checks()[0] == Version; Some(Version)
    else if env.extraSize > MAX_EXTRA_DATA then assert Checks()[1] == ExtraTooLarge; Some(ExtraTooLarge)
    else if |e.parents| > maxParents then assert Checks()[2] == TooManyParents; Some(TooManyParents)
    else if e.seqNum >= SEQ_LIMIT || e.epoch >= SEQ_LIMIT || e.frame >= SEQ_LIMIT || e.lamport >= SEQ_LIMIT
      || env.gasPowerUsed >= GAS_LIMIT || env.maxGasPowerLeft >= GAS_LIMIT
    then assert Checks()[3] == HugeValue; Some(HugeValue)
    else if e.seqNum == 0 || e.epoch == 0 || e.frame == 0 || e.lamport == 0
    then assert Checks()[4] == NotInited; Some(NotInited)
    else if e.claimedTime == 0 then assert Checks()[5] == ZeroTime; Some(ZeroTime)
    else if e.seqNum > 1 && |e.parents| == 0 then assert Checks()[6] == NoParents; Some(NoParents)
    else if env.sigSize != SIG_SIZE then assert Checks()[7] == SigMalformed; Some(SigMalformed)
    else None
  }

  const EVENT_GAS := 28_000
  const PARENT_GAS := 2_400
  const EXTRA_DATA_GAS := 150
  const MAX_GAS_POWER_USED := 10_000_000 + EVENT_GAS
  const MIN_GAS_PRICE := 1_000_000_000

  function TxsGas(txs: seq<Transaction>): nat {
    if txs == [] then 0 else TxsGas(txs[..|txs| - 1]) + txs[|txs| - 1].gas
  }

  /** What an event costs: its transactions, the parents beyond the free ones, its extra data, and itself. */
  function GasOf(e: Event, env: Envelope, freeParents: nat): nat {
    var parents := if |e.parents| > freeParents then (|e.parents| - freeParents) * PARENT_GAS else 0;
    TxsGas(env.txs) + parents + env.extraSize * EXTRA_DATA_GAS + EVENT_GAS
  }

  /** CalcGasPowerUsed: what the event costs, modulo 2^64. */
  method CalcGasPowerUsed(e: Event, env: Envelope, freeParents: nat) returns (used: nat)
    ensures used == U64(GasOf(e, env, freeParents))
  {
    var txsGas := 0;
    for i := 0 to |env.txs|
      invariant txsGas == U64(TxsGas(env.txs[..i]))
    {
      assert env.txs[..i + 1][..i] == env.txs[..i];
      WrapsOnce(TxsGas(env.txs[..i]), env.txs[i].gas);
      txsGas := U64(txsGas + env.txs[i].gas);
    }
    assert env.txs[..|env.txs|] == env.txs;
    var parentsGas := if |e.parents| > freeParents then (|e.parents| - freeParents) * PARENT_GAS else 0;
    var rest := parentsGas + env.extraSize * EXTRA_DATA_GAS + EVENT_GAS;
    WrapsOnce(TxsGas(env.txs), rest);
    used := U64(txsGas + rest);
  }

  lemma WrapsOnce(a: nat, b: nat)
    ensures U64(U64(a) + b) == U64(a + b)
  {
  }

  /** Each further part of an event adds its own cost. */
  lemma EveryPartCosts(e: Event, env: Envelope, freeParents: nat, p: EventId, tx: Transaction)
    ensures GasOf(e.(parents := e.parents + [p]), env, freeParents) ==
      GasOf(e, env, freeParents) + if |e.parents| >= freeParents then PARENT_GAS else 0
    ensures GasOf(e, env.(txs := env.txs + [tx]), freeParents) == GasOf(e, env, freeParents) + tx.gas
    ensures GasOf(e, env.(extraSize := env.extraSize + 1), freeParents) == GasOf(e, env, freeParents) + EXTRA_DATA_GAS
    ensures e.parents == [] && env.txs == [] && env.extraSize == 0 ==> GasOf(e, env, freeParents) == EVENT_GAS
  {
    var txs := env.txs + [tx];
    assert txs[..|txs| - 1] == env.txs;
  }

  predicate TxOk(tx: Transaction) {
    && tx.value >= 0 && tx.gasPrice >= MIN_GAS_PRICE
    && tx.intrinsic.Some? && tx.intrinsic.value <= tx.gas
  }

  /** validateTx. */
  function TxCheck(tx: Transaction): (err: Option<TxError>)
    ensures err.None? <==> TxOk(tx)
  {
    if tx.value < 0 || tx.gasPrice < 0 then Some(NegativeValue)
    else if tx.intrinsic.None? then Some(OutOfGas)
    else if tx.gas < tx.intrinsic.value then Some(IntrinsicGas)
    else if tx.gasPrice < MIN_GAS_PRICE then Some(Underpriced)
    else None
  }

  /** The first transaction that fails is at `i`. */
  predicate FirstBad(txs: seq<Transaction>, i: nat) {
    i < |txs| && !TxOk(txs[i]) && forall j :: 0 <= j < i ==> TxOk(txs[j])
  }

  /** The used gas is what the event says, and not too much. */
  predicate GasOk(e: Event, env: Envelope, freeParents: nat) {
    env.gasPowerUsed <= MAX_GAS_POWER_USED && env.gasPowerUsed == U64(GasOf(e, env, freeParents))
  }

  /** What a checked event says it used is what it costs exactly when the cost fits 64 bits, and then its transactions
      leave room for the event itself. */
  lemma UsedIsCost(e: Event, env: Envelope, freeParents: nat)
    requires GasOk(e, env, freeParents)
    ensures env.gasPowerUsed == GasOf(e, env, freeParents) <==> GasOf(e, env, freeParents) < WORD
    ensures GasOf(e, env, freeParents) < WORD ==> TxsGas(env.txs) <= MAX_GAS_POWER_USED - EVENT_GAS
  {
    if GasOf(e, env, freeParents) < WORD {
      InWord(GasOf(e, env, freeParents));
    }
  }

  /** The cost is not always what is used: two transactions of 2^63 gas add up to none. */
  lemma CostMayWrap(e: Event, env: Envelope, freeParents: nat, tx: Transaction)
    requires tx.gas == HALF && env.txs == [tx, tx] && env.extraSize == 0 && e.parents == []
    requires env.gasPowerUsed == EVENT_GAS
    ensures GasOk(e, env, freeParents) && GasOf(e, env, freeParents) > env.gasPowerUsed
  {
    assert env.txs[..1] == [tx] && [tx][..0] == [];
    assert TxsGas(env.txs) == TxsGas([tx]) + tx.gas == WORD;
  }

  /** Validate: fields, gas and transactions, in this order; the first failure is reported. */
  method Validate(e: Event, env: Envelope, maxParents: nat, freeParents: nat) returns (err: Option<ValidateError>)
    ensures err.None? <==>
      BasicCheck(e, env, maxParents).None? && GasOk(e, env, freeParents) && forall tx :: tx in env.txs ==> TxOk(tx)
    ensures err.Some? && err.value.Field? <==> BasicCheck(e, env, maxParents).Some?
    ensures err.Some? && err.value.Field? ==> BasicCheck(e, env, maxParents) == Some(err.value.error)
    ensures err == Some(TooBigGasUsed) ==> env.gasPowerUsed > MAX_GAS_POWER_USED
    ensures err == Some(WrongGasUsed) ==> env.gasPowerUsed <= MAX_GAS_POWER_USED
    ensures err == Some(TooBigGasUsed) || err == Some(WrongGasUsed) <==>
      BasicCheck(e, env, maxParents).None? && !GasOk(e, env, freeParents)
    ensures err.Some? && err.value.BadTx? ==>
      exists i: nat :: FirstBad(env.txs, i) && TxCheck(env.txs[i]) == Some(err.value.tx)
  {
    var basic := BasicCheck(e, env, maxParents);
    if basic.Some? {
      return Some(Field(basic.value));
    }
    if env.gasPowerUsed > MAX_GAS_POWER_USED {
      return Some(TooBigGasUsed);
    }
    var used := CalcGasPowerUsed(e, env, freeParents);
    if env.gasPowerUsed != used {
      return Some(WrongGasUsed);
    }
    for i := 0 to |env.txs|
      invariant forall j :: 0 <= j < i ==> TxOk(env.txs[j])
    {
      var bad := TxCheck(env.txs[i]);
      if bad.Some? {
        assert FirstBad(env.txs, i);
        return Some(BadTx(bad.value));
      }
    }
    return None;
  }

  // ---------------------------------------------------------------- the event and its parents

  /** The Lamport time is one above the highest of the parents. */
  predicate LamportOk(d: Graph, e: Event)
    requires forall p :: p in e.parents ==> p in d
  {
    && (forall p :: p in e.parents ==> d[p].lamport < e.lamport)
    && (e.lamport == 1 || exists p :: p in e.parents && d[p].lamport + 1 == e.lamport)
    && e.lamport >= 1
  }

  /** The one parent by the event's own creator is its self-parent. */
  predicate SelfParentOk(d: Graph, e: Event)
    requires forall p :: p in e.parents ==> p in d
  {
    forall p :: p in e.parents ==> (d[p].creator == e.creator <==> e.IsSelfParent(p))
  }

  predicate SeqOk(d: Graph, e: Event)
    requires forall p :: p in e.parents ==> p in d
  {
    && (e.seqNum <= 1 <==> e.SelfParent().None?)
    && (e.SelfParent().Some? ==> d[e.parents[0]].seqNum + 1 == e.seqNum)
  }

  predicate TimeOk(d: Graph, e: Event)
    requires forall p :: p in e.parents ==> p in d
  {
    e.SelfParent().Some? ==> d[e.parents[0]].claimedTime < e.claimedTime
  }

  /** parentscheck: which of the checks fails first, if any does. */
  method ParentsCheck(d: Graph, e: Event) returns (err: Option<ParentsError>)
    requires forall p :: p in e.parents ==> p in d
    ensures err.None? <==>
      LamportOk(d, e) && NoDuplicates(e.parents) && SelfParentOk(d, e) && SeqOk(d, e) && TimeOk(d, e)
    ensures err == Some(WrongLamport) <==> !LamportOk(d, e)
    ensures err == Some(DoubleParents) <==> LamportOk(d, e) && !NoDuplicates(e.parents)
    ensures err == Some(WrongSelfParent) <==> LamportOk(d, e) && NoDuplicates(e.parents) && !SelfParentOk(d, e)
    ensures err == Some(WrongSeq) <==> LamportOk(d, e) && NoDuplicates(e.parents) && SelfParentOk(d, e) && !SeqOk(d, e)
  {
    var maxLamport := MaxLamport(d, e);
    if e.lamport != maxLamport + 1 {
      return Some(WrongLamport);
    }
    SizeOfMembers(e.parents);
    if |Members(e.parents)| != |e.parents| {
      return Some(DoubleParents);
    }
    for i := 0 to |e.parents|
      invariant forall j :: 0 <= j < i ==> (d[e.parents[j]].creator == e.creator <==> e.IsSelfParent(e.parents[j]))
    {
      if (d[e.parents[i]].creator == e.creator) != e.IsSelfParent(e.parents[i]) {
        return Some(WrongSelfParent);
      }
    }
    if (e.seqNum <= 1) != e.SelfParent().None? {
      return Some(WrongSeq);
    }
    if e.SelfParent().Some? {
      var selfParent := d[e.parents[0]];
      if e.seqNum != selfParent.seqNum + 1 {
        return Some(WrongSeq);
      }
      if e.claimedTime <= selfParent.claimedTime {
        return Some(PastTime);
      }
    }
    return None;
  }

  method MaxLamport(d: Graph, e: Event) returns (max: nat)
    requires forall p :: p in e.parents ==> p in d
    ensures e.lamport == max + 1 <==> LamportOk(d, e)
  {
    max := 0;
    for i := 0 to |e.parents|
      invariant forall j :: 0 <= j < i ==> d[e.parents[j]].lamport <= max
      invariant max == 0 || exists j :: 0 <= j < i && d[e.parents[j]].lamport == max
    {
      if d[e.parents[i]].lamport > max {
        max := d[e.parents[i]].lamport;
      }
    }
    if max > 0 {
      ghost var j :| 0 <= j < |e.parents| && d[e.parents[j]].lamport == max;
      assert e.parents[j] in e.parents;
    }
    assert forall p :: p in e.parents ==> d[p].lamport <= max;
  }

  /** An event that passes both checks is linked into the graph, which is all that the vector clock and consensus
      need. */
  lemma PassedIsLinked(d: Graph, e: Event, env: Envelope, maxParents: nat)
    requires forall p :: p in e.parents ==> p in d
    requires e.claimedTime < WORD && e.medianTime < WORD
    requires BasicCheck(e, env, maxParents).None?
    requires LamportOk(d, e) && SelfParentOk(d, e) && SeqOk(d, e) && TimeOk(d, e)
    ensures Linked(d, e)
  {
    assert Passes(e, env, maxParents, Checks()[3]) && Passes(e, env, maxParents, Checks()[4]);
    assert Passes(e, env, maxParents, Checks()[5]) && Passes(e, env, maxParents, Checks()[6]);
  }
}

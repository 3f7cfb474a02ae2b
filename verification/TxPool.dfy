/** Fair truncation of the pending transactions (truncatePending of evmcore/tx_pool.go). A list of pending
    transactions is given by its nonces in order; capping a list keeps its lowest nonces. */
module TxPool {
  import opened Sequences

  type Account = nat

  /** The pending nonces of every account, in increasing order. */
  type Pending = map<Account, seq<nat>>

  ghost function Total(p: Pending): nat
    decreases |p|
  {
    if p == map[] then 0
    else
      var a: Account :| a in p;
      |p[a]| + Total(p - {a})
  }

  lemma {:induction false} TotalOne(p: Pending, a: Account)
    requires a in p
    ensures Total(p) == |p[a]| + Total(p - {a})
    decreases |p|
  {
    var b: Account :| b in p && Total(p) == |p[b]| + Total(p - {b});
    if b != a {
      TotalOne(p - {b}, a);
      TotalOne(p - {a}, b);
      assert p - {b} - {a} == p - {a} - {b};
    }
  }

  lemma TotalCut(p: Pending, a: Account, s: seq<nat>)
    requires a in p
    ensures Total(p[a := s]) + |p[a]| == Total(p) + |s|
  {
    TotalOne(p, a);
    TotalOne(p[a := s], a);
    assert p[a := s] - {a} == p - {a};
  }

  /** Every list is a prefix of what it was, and only offenders lost anything. */
  ghost predicate CutsOnly(p: Pending, q: Pending, offenders: seq<Account>) {
    && q.Keys == p.Keys && (forall a :: a in p ==> q[a] <= p[a])
    && forall a :: a in p && a !in offenders ==> q[a] == p[a]
  }

  /** All offenders stand at one length, which is at least the guaranteed one, and no other remote account is longer. */
  ghost predicate Level(p: Pending, q: Pending, locals: set<Account>, slots: nat, offenders: seq<Account>,
      length: nat) {
    && CutsOnly(p, q, offenders) && NoDuplicates(offenders)
    && (forall a :: a in offenders ==> a in p && a !in locals && |q[a]| == length && length >= slots)
    && (offenders != [] ==> forall b :: b in p && b !in locals && b !in offenders ==> |p[b]| <= length)
  }

  /** What truncation promises to the accounts. */
  ghost predicate Fair(p: Pending, q: Pending, locals: set<Account>, slots: nat) {
    && q.Keys == p.Keys && (forall a :: a in p ==> q[a] <= p[a])
    && (forall a :: a in p && q[a] != p[a] ==> a !in locals && |q[a]| >= slots)
    && (forall a, b :: a in p && b in p && q[a] != p[a] && q[b] != p[b] ==> |q[a]| == |q[b]|)
    && (forall a, b :: a in p && b in p && q[a] != p[a] && q[b] == p[b] && b !in locals ==> |p[b]| <= |q[a]|)
  }

  lemma LevelIsFair(p: Pending, q: Pending, locals: set<Account>, slots: nat, offenders: seq<Account>, length: nat)
    requires Level(p, q, locals, slots, offenders, length)
    ensures Fair(p, q, locals, slots)
  {
    forall a, b | a in p && b in p && q[a] != p[a] && q[b] == p[b] && b !in locals
      ensures |p[b]| <= |q[a]|
    {
      assert a in offenders;
    }
  }

  function Shorter(list: seq<nat>): seq<nat> {
    if list == [] then [] else list[..|list| - 1]
  }

  /** The last transaction is off every list of `offenders`, and nothing else is. */
  ghost predicate Shortened(q: Pending, offenders: seq<Account>, q': Pending) {
    q'.Keys == q.Keys && forall a {:trigger q'[a]} :: a in q ==> q'[a] == if a in offenders then Shorter(q[a]) else q[a]
  }

  lemma ShortenStep(q: Pending, offenders: seq<Account>, q': Pending, a: Account)
    requires Shortened(q, offenders, q') && a in q && a !in offenders && q[a] != []
    ensures q'[a] == q[a]
    ensures Shortened(q, offenders + [a], q'[a := Shorter(q'[a])])
    ensures Total(q'[a := Shorter(q'[a])]) + 1 == Total(q')
  {
    TotalCut(q', a, Shorter(q'[a]));
  }

  /** Takes the last transaction off every list of `offenders`. */
  method CutAll(q: Pending, offenders: seq<Account>, pending: nat) returns (q': Pending, pending': nat)
    requires NoDuplicates(offenders) && (forall a :: a in offenders ==> a in q && q[a] != []) && pending == Total(q)
    ensures Shortened(q, offenders, q') && pending' == Total(q') && pending' + |offenders| == pending
  {
    q', pending' := q, pending;
    for i := 0 to |offenders|
      invariant Shortened(q, offenders[..i], q') && pending' == Total(q') && pending' + i == pending
    {
      var a := offenders[i];
      assert a in offenders && a !in offenders[..i];
      assert offenders[..i + 1] == offenders[..i] + [a];
      ShortenStep(q, offenders[..i], q', a);
      q' := q'[a := Shorter(q'[a])];
      pending' := pending' - 1;
    }
    assert offenders[..|offenders|] == offenders;
  }

  lemma CutKeepsLevel(p: Pending, q: Pending, locals: set<Account>, slots: nat, offenders: seq<Account>, length: nat,
      q': Pending)
    requires Level(p, q, locals, slots, offenders, length) && length > slots
    requires forall b :: b in p && b !in locals && b !in offenders ==> |p[b]| < length
    requires Shortened(q, offenders, q')
    ensures Level(p, q', locals, slots, offenders, length - 1)
  {
  }

  ghost function CutAccounts(p: Pending, q: Pending): set<Account>
    requires q.Keys == p.Keys
  {
    set a | a in p && q[a] != p[a]
  }

  /** Nothing is cut without need: with one transaction more for each cut account the pool would be too full. */
  ghost predicate Tight(p: Pending, q: Pending, globalSlots: nat) {
    q == p || (q.Keys == p.Keys && Total(q) + |CutAccounts(p, q)| > globalSlots)
  }

  lemma RoundIsTight(p: Pending, q: Pending, locals: set<Account>, slots: nat, offenders: seq<Account>, length: nat,
      q': Pending, globalSlots: nat)
    requires Level(p, q, locals, slots, offenders, length) && length > 0 && Shortened(q, offenders, q')
    requires Total(q') + |offenders| > globalSlots
    ensures Tight(p, q', globalSlots)
  {
    SizeOfMembers(offenders);
    assert CutAccounts(p, q') == Members(offenders);
  }

  /** Cuts all offenders, one transaction each at a time, until there is room or they are down at `floor`. */
  method CutDown(ghost p: Pending, q: Pending, ghost locals: set<Account>, ghost slots: nat, offenders: seq<Account>,
      pending: nat, globalSlots: nat, floor: nat)
    returns (q': Pending, pending': nat, ghost length': nat)
    requires offenders != [] && pending == Total(q) && slots <= floor <= |Last(q, offenders)|
    requires Level(p, q, locals, slots, offenders, |Last(q, offenders)|)
    requires forall b :: b in p && b !in locals && b !in offenders ==> |p[b]| <= floor
    requires Tight(p, q, globalSlots)
    ensures Tight(p, q', globalSlots)
    ensures Level(p, q', locals, slots, offenders, length') && pending' == Total(q')
    ensures (pending' <= globalSlots || length' == floor)
  {
    q', pending', length' := q, pending, |Last(q, offenders)|;
    while pending' > globalSlots && |Last(q', offenders)| > floor
      invariant Tight(p, q', globalSlots)
      invariant Level(p, q', locals, slots, offenders, length') && pending' == Total(q')
      invariant floor <= length' == |Last(q', offenders)|
      decreases length'
    {
      ghost var before := q';
      q', pending' := CutAll(q', offenders, pending');
      CutKeepsLevel(p, before, locals, slots, offenders, length', q');
      RoundIsTight(p, before, locals, slots, offenders, length', q', globalSlots);
      length' := length' - 1;
    }
  }

  function Last(q: Pending, offenders: seq<Account>): seq<nat>
    requires offenders != []
  {
    var a := offenders[|offenders| - 1];
    if a in q then q[a] else []
  }

  // ---------------------------------------------------------------- truncation

  /** The remote accounts above the guaranteed length are the offenders and the spammers yet to come. */
  ghost predicate Queued(p: Pending, locals: set<Account>, slots: nat, offenders: seq<Account>,
      spammers: set<Account>) {
    && (forall a :: a in spammers ==> a !in offenders)
    && forall a :: a in spammers || a in offenders <==> a in p && a !in locals && |p[a]| > slots
  }

  /** The next offender: a spammer with the longest list. */
  method PopLongest(p: Pending, spammers: set<Account>) returns (o: Account)
    requires spammers != {} && spammers <= p.Keys
    ensures o in spammers && forall a :: a in spammers ==> |p[a]| <= |p[o]|
  {
    o :| o in spammers;
    var todo := spammers - {o};
    while todo != {}
      invariant o in spammers && todo <= spammers && forall a :: a in spammers && a !in todo ==> |p[a]| <= |p[o]|
      decreases |todo|
    {
      var a :| a in todo;
      if |p[a]| > |p[o]| {
        o := a;
      }
      todo := todo - {a};
    }
  }

  method CountPending(p: Pending) returns (pending: nat)
    ensures pending == Total(p)
  {
    pending := 0;
    var rest: Pending := p;
    while rest != map[]
      invariant pending + Total(rest) == Total(p) && forall a :: a in rest ==> a in p && rest[a] == p[a]
      decreases |rest|
    {
      var a: Account :| a in rest;
      TotalOne(rest, a);
      pending := pending + |rest[a]|;
      rest := rest - {a};
    }
  }

  lemma JoinLevel(p: Pending, q: Pending, locals: set<Account>, slots: nat, offenders: seq<Account>, o: Account,
      length: nat)
    requires Level(p, q, locals, slots, offenders, length) && o in p && o !in locals && o !in offenders
    requires |p[o]| == length >= slots
    requires forall b :: b in p && b !in locals && b !in offenders ==> |p[b]| <= length
    ensures Level(p, q, locals, slots, offenders + [o], length)
  {
  }

  /** The next offender joins: the earlier ones are cut down to its length, as long as that is needed. */
  method Equalize(p: Pending, q: Pending, ghost locals: set<Account>, ghost slots: nat, offenders: seq<Account>,
      o: Account, pending: nat, globalSlots: nat)
    returns (q': Pending, pending': nat, ghost length': nat)
    requires pending == Total(q) && o in p && o !in locals && o !in offenders && |p[o]| >= slots
    requires Tight(p, q, globalSlots) && (offenders == [] ==> q == p)
    requires offenders != [] ==> Level(p, q, locals, slots, offenders, |Last(q, offenders)|)
    requires forall b :: b in p && b !in locals && b !in offenders ==> |p[b]| <= |p[o]|
    ensures pending' == Total(q') && Fair(p, q', locals, slots) && Tight(p, q', globalSlots)
    ensures pending' > globalSlots ==>
      Level(p, q', locals, slots, offenders + [o], |p[o]|) && Last(q', offenders + [o]) == p[o]
  {
    q', pending', length' := q, pending, |p[o]|;
    if |offenders| > 0 {
      q', pending', length' := CutDown(p, q, locals, slots, offenders, pending, globalSlots, |q[o]|);
      LevelIsFair(p, q', locals, slots, offenders, length');
    }
    if pending' > globalSlots {
      JoinLevel(p, q', locals, slots, offenders, o, |p[o]|);
    }
  }

  /** Between offenders: either there is room, or all offenders so far stand at one length. */
  ghost predicate InPass(p: Pending, q: Pending, locals: set<Account>, slots: nat, offenders: seq<Account>,
      room: bool) {
    && Fair(p, q, locals, slots) && (offenders == [] ==> q == p)
    && (!room && offenders != [] ==> Level(p, q, locals, slots, offenders, |Last(q, offenders)|))
  }

  /** Pops spammers, longest first, until there is room or none is left. */
  method Pass(p: Pending, locals: set<Account>, slots: nat, pending: nat, globalSlots: nat)
    returns (q: Pending, offenders: seq<Account>, pending': nat)
    requires pending == Total(p)
    ensures pending' == Total(q) && InPass(p, q, locals, slots, offenders, pending' <= globalSlots)
    ensures Tight(p, q, globalSlots)
    ensures pending' > globalSlots ==> Queued(p, locals, slots, offenders, {})
  {
    q, offenders, pending' := p, [], pending;
    var spammers := set a | a in p && a !in locals && |p[a]| > slots;
    while pending' > globalSlots && spammers != {}
      invariant pending' == Total(q) && InPass(p, q, locals, slots, offenders, pending' <= globalSlots)
      invariant Tight(p, q, globalSlots)
      invariant spammers <= p.Keys && Queued(p, locals, slots, offenders, spammers)
      decreases spammers
    {
      q, offenders, spammers, pending' := PassStep(p, q, locals, slots, offenders, spammers, pending', globalSlots);
    }
  }

  /** The longest list of a spammer joins the offenders, and those before it are cut to its length. */
  method PassStep(p: Pending, q: Pending, locals: set<Account>, slots: nat, offenders: seq<Account>,
      spammers: set<Account>, pending: nat, globalSlots: nat)
    returns (q': Pending, offenders': seq<Account>, spammers': set<Account>, pending': nat)
    requires pending == Total(q) > globalSlots && Tight(p, q, globalSlots)
    requires InPass(p, q, locals, slots, offenders, false)
    requires {} < spammers <= p.Keys && Queued(p, locals, slots, offenders, spammers)
    ensures pending' == Total(q') && InPass(p, q', locals, slots, offenders', pending' <= globalSlots)
    ensures Tight(p, q', globalSlots)
    ensures spammers' < spammers && Queued(p, locals, slots, offenders', spammers')
  {
    var o := PopLongest(p, spammers);
    NextOffender(p, locals, slots, offenders, spammers, o);
    ghost var length;
    q', pending', length := Equalize(p, q, locals, slots, offenders, o, pending, globalSlots);
    spammers', offenders' := spammers - {o}, offenders + [o];
  }

  /** truncatePending. */
  method TruncatePending(p: Pending, locals: set<Account>, globalSlots: nat, accountSlots: nat) returns (q: Pending)
    ensures Fair(p, q, locals, accountSlots) && Tight(p, q, globalSlots)
    ensures Total(p) <= globalSlots ==> q == p
    ensures Total(q) <= globalSlots || forall a :: a in p && a !in locals ==> |q[a]| <= accountSlots
  {
    var pending := CountPending(p);
    if pending <= globalSlots {
      return p;
    }
    var offenders;
    q, offenders, pending := Pass(p, locals, accountSlots, pending, globalSlots);
    if pending > globalSlots && |offenders| > 0 {
      q, pending := Finish(p, q, locals, accountSlots, offenders, pending, globalSlots);
    }
  }

  /** All spammers are offenders by now: down to the limit, or to the guaranteed length. */
  method Finish(ghost p: Pending, q: Pending, ghost locals: set<Account>, slots: nat, offenders: seq<Account>,
      pending: nat, globalSlots: nat)
    returns (q': Pending, pending': nat)
    requires offenders != [] && pending == Total(q) && Queued(p, locals, slots, offenders, {})
    requires Level(p, q, locals, slots, offenders, |Last(q, offenders)|) && Tight(p, q, globalSlots)
    ensures Fair(p, q', locals, slots) && pending' == Total(q') && Tight(p, q', globalSlots)
    ensures pending' <= globalSlots || forall a :: a in p && a !in locals ==> |q'[a]| <= slots
  {
    assert offenders[|offenders| - 1] in offenders;
    ghost var length;
    q', pending', length := CutDown(p, q, locals, slots, offenders, pending, globalSlots, slots);
    LevelIsFair(p, q', locals, slots, offenders, length);
  }

  lemma NextOffender(p: Pending, locals: set<Account>, slots: nat, offenders: seq<Account>, spammers: set<Account>,
      o: Account)
    requires Queued(p, locals, slots, offenders, spammers) && o in spammers && spammers <= p.Keys
    requires forall a :: a in spammers ==> |p[a]| <= |p[o]|
    ensures o in p && o !in locals && o !in offenders && |p[o]| > slots
    ensures forall b :: b in p && b !in locals && b !in offenders ==> |p[b]| <= |p[o]|
    ensures Queued(p, locals, slots, offenders + [o], spammers - {o})
  {
    assert forall a :: a in offenders + [o] <==> a in offenders || a == o;
  }
}

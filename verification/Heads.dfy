/** What an event sees does not depend on its own hash: a prepared event, whose hash changes once its
    consensus fields are filled in, keeps every property it was prepared with. */
module Heads {
  import opened Dag
  import opened Stakes
  import opened ForklessCause
  import opened Frames
  import opened VectorSpec
  import opened Median

  /** The two events differ at most in the fields that consensus fills in. */
  predicate SameBody(e: Event, e': Event) {
    e'.creator == e.creator && e'.seqNum == e.seqNum && e'.parents == e.parents && e'.claimedTime == e.claimedTime
  }

  ghost predicate TwoHeads(d: Graph, n: nat, id: EventId, e: Event, id': EventId, e': Event) {
    && WellFormed(d, n) && Addable(d, n, id, e) && Addable(d, n, id', e') && SameBody(e, e')
  }

  lemma HeadSees(d: Graph, n: nat, id: EventId, e: Event, id': EventId, e': Event, x: EventId)
    requires TwoHeads(d, n, id, e, id', e') && x in d
    ensures Sees(d[id := e], id, x) <==> Sees(d[id' := e'], id', x)
  {
    AddedSees(d, n, id, e, x);
    AddedSees(d, n, id', e', x);
  }

  lemma HeadFork(d: Graph, n: nat, id: EventId, e: Event, id': EventId, e': Event, c: nat)
    requires TwoHeads(d, n, id, e, id', e') && ForkSeen(d[id := e], id, c)
    ensures ForkSeen(d[id' := e'], id', c)
  {
    var d1, d2 := d[id := e], d[id' := e'];
    var x, y :| IsFork(d1, x, y, c) && Sees(d1, id, x) && Sees(d1, id, y);
    var x', y' := if x == id then id' else x, if y == id then id' else y;
    if x != id {
      HeadSees(d, n, id, e, id', e', x);
    }
    if y != id {
      HeadSees(d, n, id, e, id', e', y);
    }
    assert Sees(d2, id', id');
    assert IsFork(d2, x', y', c);
  }

  lemma HeadRelays(d: Graph, n: nat, id: EventId, e: Event, id': EventId, e': Event, b: EventId, c: nat)
    requires TwoHeads(d, n, id, e, id', e') && b in d && Relays(d[id := e], id, b, c)
    ensures Relays(d[id' := e'], id', b, c)
  {
    var d1, d2 := d[id := e], d[id' := e'];
    var x :| x in d1 && d1[x].creator == c && Sees(d1, id, x) && Sees(d1, x, b);
    if x == id {
      HeadSees(d, n, id, e, id', e', b);
      assert Sees(d2, id', id') && d2[id'].creator == c;
    } else {
      HeadSees(d, n, id, e, id', e', x);
      SeesStable(d, d1, n, x, b);
      SeesStable(d, d2, n, x, b);
      assert x in d2 && d2[x].creator == c;
    }
  }

  /** Forkless cause of a head does not depend on its hash. */
  lemma HeadCaused(d: Graph, stakes: seq<nat>, id: EventId, e: Event, id': EventId, e': Event, b: EventId)
    requires TwoHeads(d, |stakes|, id, e, id', e') && b in d
    ensures ForklessCaused(d[id := e], stakes, id, b) <==> ForklessCaused(d[id' := e'], stakes, id', b)
  {
    var n, d1, d2 := |stakes|, d[id := e], d[id' := e'];
    forall c: nat
      ensures ForkSeen(d1, id, c) <==> ForkSeen(d2, id', c)
      ensures Relays(d1, id, b, c) <==> Relays(d2, id', b, c)
    {
      HeadPair(d, n, id, e, id', e', b, c);
    }
    assert Witnesses(d1, n, id, b) == Witnesses(d2, n, id', b);
  }

  lemma HeadPair(d: Graph, n: nat, id: EventId, e: Event, id': EventId, e': Event, b: EventId, c: nat)
    requires TwoHeads(d, n, id, e, id', e') && b in d
    ensures ForkSeen(d[id := e], id, c) <==> ForkSeen(d[id' := e'], id', c)
    ensures Relays(d[id := e], id, b, c) <==> Relays(d[id' := e'], id', b, c)
  {
    if ForkSeen(d[id := e], id, c) {
      HeadFork(d, n, id, e, id', e', c);
    }
    if ForkSeen(d[id' := e'], id', c) {
      HeadFork(d, n, id', e', id, e, c);
    }
    if Relays(d[id := e], id, b, c) {
      HeadRelays(d, n, id, e, id', e', b, c);
    }
    if Relays(d[id' := e'], id', b, c) {
      HeadRelays(d, n, id', e', id, e, b, c);
    }
  }

  lemma HeadTop(d: Graph, n: nat, id: EventId, e: Event, id': EventId, e': Event, c: nat, x: EventId)
    requires TwoHeads(d, n, id, e, id', e') && IsTop(d[id := e], id, c, x)
    ensures IsTop(d[id' := e'], id', c, if x == id then id' else x)
  {
    var d1, d2 := d[id := e], d[id' := e'];
    var x' := if x == id then id' else x;
    if x != id {
      HeadSees(d, n, id, e, id', e', x);
    } else {
      assert Sees(d2, id', id');
    }
    forall y | y in d2 && Sees(d2, id', y) && d2[y].creator == c
      ensures d2[y].seqNum <= d2[x'].seqNum
    {
      if y == id' {
        assert Sees(d1, id, id);
      } else {
        HeadSees(d, n, id, e, id', e', y);
      }
    }
  }

  lemma HeadCountedTime(d: Graph, n: nat, id: EventId, e: Event, id': EventId, e': Event, c: nat, genesis: nat)
    requires TwoHeads(d, n, id, e, id', e') && !ForkSeen(d[id := e], id, c) && !ForkSeen(d[id' := e'], id', c)
    ensures CountedTime(d[id := e], id, c, genesis) == CountedTime(d[id' := e'], id', c, genesis)
  {
    var d1, d2 := d[id := e], d[id' := e'];
    if x :| IsTop(d1, id, c, x) {
      var a :| IsTop(d1, id, c, a) && CountedTime(d1, id, c, genesis) == d1[a].claimedTime;
      HeadTop(d, n, id, e, id', e', c, a);
      var b :| IsTop(d2, id', c, b) && CountedTime(d2, id', c, genesis) == d2[b].claimedTime;
      TopIsUnique(d2, id', c, b, if a == id then id' else a);
    } else if x :| IsTop(d2, id', c, x) {
      HeadTop(d, n, id', e', id, e, c, x);
      assert false;
    }
  }

  /** The median time of a head does not depend on its hash. */
  lemma HeadEntries(d: Graph, stakes: seq<nat>, id: EventId, e: Event, id': EventId, e': Event, genesis: nat)
    requires TwoHeads(d, |stakes|, id, e, id', e')
    ensures Entries(d[id := e], stakes, id, genesis) == Entries(d[id' := e'], stakes, id', genesis)
  {
    var n, d1, d2 := |stakes|, d[id := e], d[id' := e'];
    forall c: nat | c < n
      ensures EntryOf(d1, stakes, id, genesis, c) == EntryOf(d2, stakes, id', genesis, c)
    {
      if ForkSeen(d1, id, c) {
        HeadFork(d, n, id, e, id', e', c);
      } else if ForkSeen(d2, id', c) {
        HeadFork(d, n, id', e', id, e, c);
        assert false;
      } else {
        HeadCountedTime(d, n, id, e, id', e', c, genesis);
      }
    }
  }

  // ---------------------------------------------------------------- frames of a head

  /** A quorum of old roots on frame `f` causes the head. */
  ghost predicate OldQuorum(d: Graph, stakes: seq<nat>, id: EventId, e: Event, f: nat) {
    HasQuorum(stakes, OldCausers(d, stakes, id, e, f))
  }

  ghost predicate IsOldCauser(d: Graph, stakes: seq<nat>, id: EventId, e: Event, f: nat, c: nat, r: EventId) {
    IsRootAt(d, r, f) && d[r].creator == c && ForklessCaused(d[id := e], stakes, id, r)
  }

  ghost predicate HasOldCauser(d: Graph, stakes: seq<nat>, id: EventId, e: Event, f: nat, c: nat) {
    exists r: EventId :: IsOldCauser(d, stakes, id, e, f, c, r)
  }

  ghost function OldCausers(d: Graph, stakes: seq<nat>, id: EventId, e: Event, f: nat): set<nat> {
    set c: nat | c < |stakes| && HasOldCauser(d, stakes, id, e, f, c)
  }

  /** The head is no root of frame `f` itself, so the old roots are all roots of that frame. */
  lemma OldQuorumIsQuorum(d: Graph, stakes: seq<nat>, id: EventId, e: Event, f: nat)
    requires id !in d && !(e.isRoot && e.frame == f)
    ensures OldCausers(d, stakes, id, e, f) == CausingRoots(d[id := e], stakes, id, f)
  {
    var d' := d[id := e];
    forall c: nat | c < |stakes|
      ensures c in OldCausers(d, stakes, id, e, f) <==> c in CausingRoots(d', stakes, id, f)
    {
      if c in OldCausers(d, stakes, id, e, f) {
        var r: EventId :| IsOldCauser(d, stakes, id, e, f, c, r);
        assert IsCausingRoot(d', stakes, id, f, c, r);
      }
      if c in CausingRoots(d', stakes, id, f) {
        var r: EventId :| IsCausingRoot(d', stakes, id, f, c, r);
        assert IsOldCauser(d, stakes, id, e, f, c, r);
      }
    }
  }

  lemma HeadQuorum(d: Graph, stakes: seq<nat>, id: EventId, e: Event, id': EventId, e': Event, f: nat)
    requires TwoHeads(d, |stakes|, id, e, id', e')
    ensures OldQuorum(d, stakes, id, e, f) <==> OldQuorum(d, stakes, id', e', f)
  {
    forall c: nat | c < |stakes|
      ensures c in OldCausers(d, stakes, id, e, f) <==> c in OldCausers(d, stakes, id', e', f)
    {
      if c in OldCausers(d, stakes, id, e, f) {
        var r: EventId :| IsOldCauser(d, stakes, id, e, f, c, r);
        HeadCaused(d, stakes, id, e, id', e', r);
        assert IsOldCauser(d, stakes, id', e', f, c, r);
      }
      if c in OldCausers(d, stakes, id', e', f) {
        var r: EventId :| IsOldCauser(d, stakes, id', e', f, c, r);
        HeadCaused(d, stakes, id, e, id', e', r);
        assert IsOldCauser(d, stakes, id, e, f, c, r);
      }
    }
    assert OldCausers(d, stakes, id, e, f) == OldCausers(d, stakes, id', e', f);
  }

  /** The frame and root flag that preparing assigns. */
  ghost predicate Assigned(d: Graph, stakes: seq<nat>, id: EventId, e: Event, frame: nat, isRoot: bool) {
    if e.SelfParent().None? then frame == 1 && isRoot
    else if OldQuorum(d, stakes, id, e, SelfFrame(d, e)) then frame == SelfFrame(d, e) + 1 && isRoot
    else frame == SelfFrame(d, e) && !isRoot
  }

  /** Under hash `id` the event would pass with this frame and root flag. */
  ghost predicate Claimable(d: Graph, stakes: seq<nat>, e: Event, id: EventId, frame: nat, isRoot: bool) {
    var e' := e.(frame := frame, isRoot := isRoot);
    Addable(d, |stakes|, id, e') && FrameOk(d[id := e'], stakes, id)
  }

  /** No higher frame would pass, and with this frame no other root flag. */
  ghost predicate HighestFrame(d: Graph, stakes: seq<nat>, e: Event) {
    forall id: EventId, frame: nat, isRoot: bool {:trigger Claimable(d, stakes, e, id, frame, isRoot)} ::
      Claimable(d, stakes, e, id, frame, isRoot) ==> frame <= e.frame && (frame == e.frame ==> isRoot == e.isRoot)
  }

  /** Preparing advances whenever it may: what it assigns is the highest frame that passes the check. */
  lemma PreparedIsHighest(d: Graph, stakes: seq<nat>, id: EventId, e: Event, e': Event)
    requires FramesOk(d, stakes) && Addable(d, |stakes|, id, e) && SameBody(e, e')
    requires Assigned(d, stakes, id, e, e'.frame, e'.isRoot)
    ensures HighestFrame(d, stakes, e')
  {
    forall id': EventId, frame: nat, isRoot: bool | Claimable(d, stakes, e', id', frame, isRoot)
      ensures frame <= e'.frame && (frame == e'.frame ==> isRoot == e'.isRoot)
    {
      ClaimIsNoHigher(d, stakes, id, e, id', e'.(frame := frame, isRoot := isRoot), e'.frame, e'.isRoot);
    }
  }

  lemma ClaimIsNoHigher(d: Graph, stakes: seq<nat>, id: EventId, e: Event, id': EventId, claim: Event, frame: nat,
      isRoot: bool)
    requires FramesOk(d, stakes) && TwoHeads(d, |stakes|, id, e, id', claim)
    requires Assigned(d, stakes, id, e, frame, isRoot) && FrameOk(d[id' := claim], stakes, id')
    ensures claim.frame <= frame && (claim.frame == frame ==> claim.isRoot == isRoot)
  {
    var d' := d[id' := claim];
    assert claim.SelfParent() == e.SelfParent();
    if e.SelfParent().Some? {
      var p := e.parents[0];
      assert p in e.parents && FrameOk(d, stakes, p);
      assert SelfFrame(d', claim) == SelfFrame(d, e) == d[p].frame >= 1;
      HeadQuorum(d, stakes, id, e, id', claim, d[p].frame);
      if claim.isRoot {
        OldQuorumIsQuorum(d, stakes, id', claim, d[p].frame);
      }
    }
  }

  /** What preparing assigns always passes the check, under whatever hash the finished event gets. */
  lemma PreparedPasses(d: Graph, stakes: seq<nat>, id: EventId, e: Event, id': EventId, e': Event)
    requires FramesOk(d, stakes) && TwoHeads(d, |stakes|, id, e, id', e')
    requires Assigned(d, stakes, id, e, e'.frame, e'.isRoot)
    ensures FrameOk(d[id' := e'], stakes, id')
  {
    var d' := d[id' := e'];
    assert e'.SelfParent() == e.SelfParent();
    if e.SelfParent().Some? {
      var p := e.parents[0];
      assert p in e.parents && FrameOk(d, stakes, p);
      assert SelfFrame(d', e') == SelfFrame(d, e) == d[p].frame >= 1;
      HeadQuorum(d, stakes, id, e, id', e', d[p].frame);
      if e'.isRoot {
        OldQuorumIsQuorum(d, stakes, id', e', d[p].frame);
      }
    }
  }
}

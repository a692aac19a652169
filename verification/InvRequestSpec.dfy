/** The inventory request tracker as its header describes it (src/invrequest.h:19-57 and 185-262):
  * a table with one entry per (peer, invid) pair that is a candidate, in flight or done.
  * Nothing here knows about the delayed/ready/best split, the sorted indexes or the per-peer
  * counters; the class in InvRequest.dfy is proved to refine this table.
  */
module InvRequestSpec {
  type InvId = nat
  type NodeId = int
  type Time = int

  /** The keyed hash behind the tie-breaking priorities. */
  type Salt = (InvId, NodeId) -> nat

  const TWO63: nat := 0x8000_0000_0000_0000
  const TWO64: nat := 0x1_0000_0000_0000_0000

  /** The hash loses its lowest bit; the preferred flag becomes bit 63. */
  function PriorityOf(salt: Salt, invid: InvId, peer: NodeId, preferred: bool): (p: nat)
    ensures p < TWO64
    ensures preferred <==> TWO63 <= p
  {
    (salt(invid, peer) % TWO64) / 2 + (if preferred then TWO63 else 0)
  }

  datatype Phase = Candidate(reqtime: Time) | InFlight(expiry: Time) | Done

  datatype Entry = Entry(peer: NodeId, invid: InvId, preferred: bool, sequence: nat, phase: Phase) {
    predicate Is(p: NodeId, x: InvId) { peer == p && invid == x }

    predicate ReadyAt(now: Time) { phase.Candidate? && phase.reqtime <= now }

    predicate ExpiredAt(now: Time) { phase.InFlight? && phase.expiry <= now }

    function Priority(salt: Salt): nat { PriorityOf(salt, invid, peer, preferred) }
  }

  datatype Table = Table(entries: set<Entry>, next: nat)

  ghost predicate HasLive(es: set<Entry>, invid: InvId) {
    exists e :: e in es && e.invid == invid && !e.phase.Done?
  }

  /** Forgets every invid for which only failed entries are left. */
  ghost function Prune(es: set<Entry>): set<Entry> {
    set e | e in es && HasLive(es, e.invid)
  }

  ghost predicate Tracks(es: set<Entry>, peer: NodeId, invid: InvId) {
    exists e :: e in es && e.Is(peer, invid)
  }

  ghost predicate IsCandidate(es: set<Entry>, peer: NodeId, invid: InvId) {
    exists e :: e in es && e.Is(peer, invid) && e.phase.Candidate?
  }

  // ---------- the calls ----------

  datatype Call =
    | ReceivedInv(peer: NodeId, invid: InvId, preferred: bool, reqtime: Time)
    | DisconnectedPeer(peer: NodeId)
    | ForgetInvId(invid: InvId)
    | GetRequestable(peer: NodeId, now: Time)
    | RequestedData(peer: NodeId, invid: InvId, expiry: Time)
    | ReceivedResponse(peer: NodeId, invid: InvId)

  function Expired(e: Entry, now: Time): Entry {
    if e.ExpiredAt(now) then e.(phase := Done) else e
  }

  function Requested(e: Entry, peer: NodeId, invid: InvId, expiry: Time): Entry {
    if e.Is(peer, invid) then e.(phase := InFlight(expiry))
    else if e.invid == invid && e.phase.InFlight? then e.(phase := Done)
    else e
  }

  function Answered(e: Entry, peer: NodeId, invid: InvId): Entry {
    if e.Is(peer, invid) then e.(phase := Done) else e
  }

  ghost function Announce(t: Table, peer: NodeId, invid: InvId, preferred: bool, reqtime: Time): Table {
    if Tracks(t.entries, peer, invid) then t
    else Table(t.entries + {Entry(peer, invid, preferred, t.next, Candidate(reqtime))}, t.next + 1)
  }

  ghost function Disconnect(es: set<Entry>, peer: NodeId): set<Entry> {
    Prune(set e | e in es && e.peer != peer)
  }

  ghost function Forget(es: set<Entry>, invid: InvId): set<Entry> {
    set e | e in es && e.invid != invid
  }

  ghost function Expire(es: set<Entry>, now: Time): set<Entry> {
    Prune(set e | e in es :: Expired(e, now))
  }

  ghost function Request(es: set<Entry>, peer: NodeId, invid: InvId, expiry: Time): set<Entry> {
    if IsCandidate(es, peer, invid) then set e | e in es :: Requested(e, peer, invid, expiry) else es
  }

  ghost function Respond(es: set<Entry>, peer: NodeId, invid: InvId): set<Entry> {
    Prune(set e | e in es :: Answered(e, peer, invid))
  }

  ghost function Step(t: Table, c: Call): Table {
    match c
    case ReceivedInv(peer, invid, preferred, reqtime) => Announce(t, peer, invid, preferred, reqtime)
    case DisconnectedPeer(peer) => t.(entries := Disconnect(t.entries, peer))
    case ForgetInvId(invid) => t.(entries := Forget(t.entries, invid))
    case GetRequestable(peer, now) => t.(entries := Expire(t.entries, now))
    case RequestedData(peer, invid, expiry) => t.(entries := Request(t.entries, peer, invid, expiry))
    case ReceivedResponse(peer, invid) => t.(entries := Respond(t.entries, peer, invid))
  }

  lemma StepAnnounce(t: Table, peer: NodeId, invid: InvId, preferred: bool, reqtime: Time)
    ensures Step(t, ReceivedInv(peer, invid, preferred, reqtime)) ==
            if Tracks(t.entries, peer, invid) then t
            else Table(t.entries + {Entry(peer, invid, preferred, t.next, Candidate(reqtime))}, t.next + 1)
  {
  }

  lemma StepEntries(t: Table, c: Call)
    ensures c.DisconnectedPeer? ==> Step(t, c) == Table(Disconnect(t.entries, c.peer), t.next)
    ensures c.GetRequestable? ==> Step(t, c) == Table(Expire(t.entries, c.now), t.next)
    ensures c.RequestedData? ==> Step(t, c) == Table(Request(t.entries, c.peer, c.invid, c.expiry), t.next)
    ensures c.ReceivedResponse? ==> Step(t, c) == Table(Respond(t.entries, c.peer, c.invid), t.next)
  {
  }

  // ---------- the answer of GetRequestable ----------

  /** No live request for the invid, and no ready candidate for it has a higher priority. */
  ghost predicate Requestable(salt: Salt, es: set<Entry>, e: Entry, now: Time) {
    && e in es
    && e.ReadyAt(now)
    && (forall f :: f in es && f.invid == e.invid ==> !f.phase.InFlight?)
    && (forall f :: f in es && f.invid == e.invid && f.ReadyAt(now) ==> f.Priority(salt) <= e.Priority(salt))
  }

  /** Requestable, and no other ready candidate for the invid ties with it. */
  ghost predicate StrictlyBest(salt: Salt, es: set<Entry>, e: Entry, now: Time) {
    && Requestable(salt, es, e, now)
    && (forall f :: f in es && f.invid == e.invid && f.ReadyAt(now) && f != e ==> f.Priority(salt) < e.Priority(salt))
  }

  /** In announcement order, only requestable invids of the peer, and every strictly best one. */
  ghost predicate IsAnswer(salt: Salt, es: set<Entry>, peer: NodeId, now: Time, ret: seq<InvId>) {
    && (forall i :: 0 <= i < |ret| ==> Offered(salt, es, peer, now, ret[i]))
    && (forall i, j, e, f :: 0 <= i < j < |ret| && e in es && f in es && e.Is(peer, ret[i]) && f.Is(peer, ret[j])
          ==> e.sequence < f.sequence)
    && (forall e :: e in es && e.peer == peer && StrictlyBest(salt, es, e, now) ==> e.invid in ret)
  }

  ghost predicate Offered(salt: Salt, es: set<Entry>, peer: NodeId, now: Time, invid: InvId) {
    exists e :: e in es && e.Is(peer, invid) && Requestable(salt, es, e, now)
  }

  /** Of equally preferred ready candidates the one with the largest hash is offered, not counting its last bit. */
  lemma LargestHashFirst(salt: Salt, es: set<Entry>, e: Entry, f: Entry, now: Time)
    requires Requestable(salt, es, e, now)
    requires f in es && f.invid == e.invid && f.ReadyAt(now) && f.preferred == e.preferred
    ensures salt(f.invid, f.peer) % TWO64 / 2 <= salt(e.invid, e.peer) % TWO64 / 2
  {
    assert f.Priority(salt) <= e.Priority(salt);
  }

  /** Preferred candidates come first: a non-preferred one is never requestable beside a ready preferred one. */
  lemma PreferredFirst(salt: Salt, es: set<Entry>, e: Entry, f: Entry, now: Time)
    requires Requestable(salt, es, e, now)
    requires f in es && f.invid == e.invid && f.ReadyAt(now) && f.preferred
    ensures e.preferred
  {
    assert f.Priority(salt) <= e.Priority(salt);
  }

  // ---------- what every call keeps ----------

  ghost predicate UniqueKeys(es: set<Entry>) {
    forall e, f :: e in es && f in es && e.Is(f.peer, f.invid) ==> e == f
  }

  ghost predicate Numbered(t: Table) {
    && (forall e :: e in t.entries ==> e.sequence < t.next)
    && (forall e, f :: e in t.entries && f in t.entries && e.sequence == f.sequence ==> e == f)
  }

  ghost predicate OneInFlight(es: set<Entry>) {
    forall e, f :: e in es && f in es && e.invid == f.invid && e.phase.InFlight? && f.phase.InFlight? ==> e == f
  }

  ghost predicate NoDeadInv(es: set<Entry>) {
    forall e :: e in es ==> HasLive(es, e.invid)
  }

  ghost predicate WellFormed(t: Table) {
    UniqueKeys(t.entries) && Numbered(t) && OneInFlight(t.entries) && NoDeadInv(t.entries)
  }

  function Rank(p: Phase): nat {
    match p case Candidate(_) => 0 case InFlight(_) => 1 case Done => 2
  }

  /** e' is e after zero or more moves candidate -> in flight -> done. */
  predicate MovedOn(e: Entry, e': Entry) {
    && e'.Is(e.peer, e.invid) && e'.sequence == e.sequence && e'.preferred == e.preferred
    && (e'.phase == e.phase || Rank(e.phase) < Rank(e'.phase))
  }

  /** What a call makes of an entry it keeps. */
  ghost function Moved(es: set<Entry>, c: Call, e: Entry): Entry {
    match c
    case GetRequestable(_, now) => Expired(e, now)
    case RequestedData(peer, invid, expiry) =>
      if IsCandidate(es, peer, invid) then Requested(e, peer, invid, expiry) else e
    case ReceivedResponse(peer, invid) => Answered(e, peer, invid)
    case _ => e
  }

  ghost predicate IsNew(t: Table, e': Entry) {
    !Tracks(t.entries, e'.peer, e'.invid) && e'.phase.Candidate? && e'.sequence == t.next
  }

  /** Every entry after a call is an entry from before, changed as the call says, or a newly announced candidate. */
  lemma StepOrigin(t: Table, c: Call, e': Entry) returns (e: Entry)
    requires e' in Step(t, c).entries
    ensures (e in t.entries && e' == Moved(t.entries, c, e)) || (IsNew(t, e') && Step(t, c).next == t.next + 1)
  {
    e := e';
    match c
    case GetRequestable(_, now) => e :| e in t.entries && e' == Expired(e, now);
    case RequestedData(peer, invid, expiry) =>
      if IsCandidate(t.entries, peer, invid) {
        e :| e in t.entries && e' == Requested(e, peer, invid, expiry);
      }
    case ReceivedResponse(peer, invid) => e :| e in t.entries && e' == Answered(e, peer, invid);
    case _ =>
  }

  /** A kept entry only moves forward. */
  lemma MovesForward(t: Table, c: Call, e: Entry)
    requires UniqueKeys(t.entries) && e in t.entries
    ensures MovedOn(e, Moved(t.entries, c, e))
  {
  }

  /** No call invents an entry or moves one back: an entry after a call has moved on from one before or is new. */
  lemma StepMovesOn(t: Table, c: Call, e': Entry) returns (e: Entry)
    requires UniqueKeys(t.entries)
    requires e' in Step(t, c).entries
    ensures (e in t.entries && MovedOn(e, e')) || IsNew(t, e')
  {
    e := StepOrigin(t, c, e');
    if e in t.entries { MovesForward(t, c, e); }
  }

  lemma StepKeepsKeys(t: Table, c: Call)
    requires UniqueKeys(t.entries) && Numbered(t)
    ensures UniqueKeys(Step(t, c).entries) && Numbered(Step(t, c))
  {
    forall e' | e' in Step(t, c).entries ensures e'.sequence < Step(t, c).next {
      var e := StepMovesOn(t, c, e');
    }
    forall e', f' | e' in Step(t, c).entries && f' in Step(t, c).entries
                    && (e'.Is(f'.peer, f'.invid) || e'.sequence == f'.sequence)
      ensures e' == f'
    {
      StepIsFunctional(t, c, e', f');
    }
  }

  /** Two entries after a call with the same key, or the same number, descend from one entry. */
  lemma StepIsFunctional(t: Table, c: Call, e': Entry, f': Entry)
    requires UniqueKeys(t.entries) && Numbered(t)
    requires e' in Step(t, c).entries && f' in Step(t, c).entries
    requires e'.Is(f'.peer, f'.invid) || e'.sequence == f'.sequence
    ensures e' == f'
  {
    if c.ReceivedInv? {
    } else {
      var e := StepOrigin(t, c, e');
      var f := StepOrigin(t, c, f');
      MovesForward(t, c, e);
      MovesForward(t, c, f);
      assert e == f;
    }
  }

  lemma StepKeepsOneInFlight(t: Table, c: Call)
    requires UniqueKeys(t.entries) && OneInFlight(t.entries)
    ensures OneInFlight(Step(t, c).entries)
  {
    forall e', f' | e' in Step(t, c).entries && f' in Step(t, c).entries
                    && e'.invid == f'.invid && e'.phase.InFlight? && f'.phase.InFlight?
      ensures e' == f'
    {
      var e := StepOrigin(t, c, e');
      var f := StepOrigin(t, c, f');
    }
  }

  lemma PrunedHasNoDeadInv(es: set<Entry>)
    ensures NoDeadInv(Prune(es))
  {
    forall e | e in Prune(es) ensures HasLive(Prune(es), e.invid) {
      var f :| f in es && f.invid == e.invid && !f.phase.Done?;
      assert f in Prune(es);
    }
  }

  lemma StepKeepsNoDeadInv(t: Table, c: Call)
    requires NoDeadInv(t.entries)
    ensures NoDeadInv(Step(t, c).entries)
  {
    var es := t.entries;
    match c
    case GetRequestable(_, now) => PrunedHasNoDeadInv(set e | e in es :: Expired(e, now));
    case DisconnectedPeer(peer) => PrunedHasNoDeadInv(set e | e in es && e.peer != peer);
    case ReceivedResponse(peer, invid) => PrunedHasNoDeadInv(set e | e in es :: Answered(e, peer, invid));
    case RequestedData(peer, invid, expiry) => RequestKeepsNoDeadInv(es, peer, invid, expiry);
    case ReceivedInv(peer, invid, preferred, reqtime) =>
      var es' := Step(t, c).entries;
      forall e' | e' in es' ensures HasLive(es', e'.invid) {
        if e' in es {
          var f :| f in es && f.invid == e'.invid && !f.phase.Done?;
          assert f in es';
        } else {
          assert e' in es' && !e'.phase.Done?;
        }
      }
    case ForgetInvId(invid) =>
      forall e' | e' in Forget(es, invid) ensures HasLive(Forget(es, invid), e'.invid) {
        var f :| f in es && f.invid == e'.invid && !f.phase.Done?;
        assert f in Forget(es, invid);
      }
  }

  lemma RequestKeepsNoDeadInv(es: set<Entry>, peer: NodeId, invid: InvId, expiry: Time)
    requires NoDeadInv(es)
    ensures NoDeadInv(Request(es, peer, invid, expiry))
  {
    var es' := Request(es, peer, invid, expiry);
    if IsCandidate(es, peer, invid) {
      var c :| c in es && c.Is(peer, invid) && c.phase.Candidate?;
      assert Requested(c, peer, invid, expiry) in es';
      forall e' | e' in es' ensures HasLive(es', e'.invid) {
        var e :| e in es && e' == Requested(e, peer, invid, expiry);
        var f :| f in es && f.invid == e.invid && !f.phase.Done?;
        assert Requested(f, peer, invid, expiry) in es';
      }
    }
  }

  lemma StepKeepsWellFormed(t: Table, c: Call)
    requires WellFormed(t)
    ensures WellFormed(Step(t, c))
  {
    StepKeepsKeys(t, c);
    StepKeepsOneInFlight(t, c);
    StepKeepsNoDeadInv(t, c);
  }

  lemma RespondKeepsWellFormed(t: Table, peer: NodeId, invid: InvId)
    requires WellFormed(t)
    ensures WellFormed(Table(Respond(t.entries, peer, invid), t.next))
  {
    StepKeepsWellFormed(t, ReceivedResponse(peer, invid));
  }

  lemma RemovingDone(t: Table, e: Entry)
    requires WellFormed(t) && e.phase.Done?
    ensures WellFormed(t.(entries := t.entries - {e}))
  {
    forall f | f in t.entries - {e} ensures HasLive(t.entries - {e}, f.invid) {
      var g :| g in t.entries && g.invid == f.invid && !g.phase.Done?;
      assert g in t.entries - {e};
    }
  }

  // ---------- calls as changes of one entry ----------

  lemma RespondIsPrune(es: set<Entry>, e: Entry)
    requires UniqueKeys(es) && e in es
    ensures Respond(es, e.peer, e.invid) == Prune(es - {e} + {e.(phase := Done)})
  {
    var es1 := es - {e} + {e.(phase := Done)};
    var image := set f | f in es :: Answered(f, e.peer, e.invid);
    forall x ensures x in image <==> x in es1 {
      if x in es1 {
        if x in es - {e} { assert x == Answered(x, e.peer, e.invid); }
        else { assert x == Answered(e, e.peer, e.invid); }
      }
    }
    assert image == es1;
  }

  lemma RespondToDone(es: set<Entry>, e: Entry)
    requires UniqueKeys(es) && NoDeadInv(es) && e in es && e.phase.Done?
    ensures Respond(es, e.peer, e.invid) == es
  {
    RespondIsPrune(es, e);
    assert e.(phase := Done) == e && es - {e} + {e.(phase := Done)} == es;
    assert Prune(es) == es;
  }

  /** Some other entry of the invid is still live: nothing is forgotten. */
  lemma RespondKeeps(es: set<Entry>, e: Entry, f: Entry)
    requires UniqueKeys(es) && NoDeadInv(es) && e in es
    requires f in es && f != e && f.invid == e.invid && !f.phase.Done?
    ensures Respond(es, e.peer, e.invid) == es - {e} + {e.(phase := Done)}
  {
    RespondIsPrune(es, e);
    var es1 := es - {e} + {e.(phase := Done)};
    forall x | x in es1 ensures HasLive(es1, x.invid) {
      if x.invid == e.invid {
        assert f in es1;
      } else {
        var g :| g in es && g.invid == x.invid && !g.phase.Done?;
        assert g in es1;
      }
    }
  }

  /** Everything else of the invid has failed before: the invid is forgotten. */
  lemma RespondForgets(es: set<Entry>, e: Entry)
    requires UniqueKeys(es) && NoDeadInv(es) && e in es
    requires forall f :: f in es && f != e && f.invid == e.invid ==> f.phase.Done?
    ensures Respond(es, e.peer, e.invid) == Forget(es, e.invid)
  {
    RespondIsPrune(es, e);
    var es1 := es - {e} + {e.(phase := Done)};
    forall x ensures x in Prune(es1) <==> x in Forget(es, e.invid) {
      if x in Forget(es, e.invid) {
        var g :| g in es && g.invid == x.invid && !g.phase.Done?;
        assert g in es1;
      }
    }
  }

  ghost predicate LiveAt(es: set<Entry>, invid: InvId, now: Time) {
    exists e :: e in es && e.invid == invid && !e.phase.Done? && !e.ExpiredAt(now)
  }

  lemma ExpireMembers(es: set<Entry>, now: Time, x: Entry)
    ensures x in Expire(es, now) <==> exists e :: e in es && x == Expired(e, now) && LiveAt(es, e.invid, now)
  {
    var image := set e | e in es :: Expired(e, now);
    forall y ensures HasLive(image, y) <==> LiveAt(es, y, now) {
      if HasLive(image, y) {
        var e' :| e' in image && e'.invid == y && !e'.phase.Done?;
        var e :| e in es && e' == Expired(e, now);
        assert e in es && e.invid == y && !e.phase.Done? && !e.ExpiredAt(now);
      }
      if LiveAt(es, y, now) {
        var e :| e in es && e.invid == y && !e.phase.Done? && !e.ExpiredAt(now);
        assert Expired(e, now) in image;
      }
    }
  }

  lemma LiveAfterRespond(es: set<Entry>, e: Entry, y: InvId, now: Time)
    requires UniqueKeys(es) && e in es && e.ExpiredAt(now)
    ensures LiveAt(Respond(es, e.peer, e.invid), y, now) <==> LiveAt(es, y, now)
  {
    RespondIsPrune(es, e);
    var es1 := es - {e} + {e.(phase := Done)};
    var es2 := Respond(es, e.peer, e.invid);
    if LiveAt(es, y, now) {
      var f :| f in es && f.invid == y && !f.phase.Done? && !f.ExpiredAt(now);
      assert f in es1;
      assert f in es2;
    }
    if LiveAt(es2, y, now) {
      var f :| f in es2 && f.invid == y && !f.phase.Done? && !f.ExpiredAt(now);
      assert f in es;
    }
  }

  /** Completing one expired entry first does not change what expiring does. */
  lemma ExpireAfterRespond(es: set<Entry>, e: Entry, now: Time)
    requires UniqueKeys(es) && e in es && e.ExpiredAt(now)
    ensures Expire(Respond(es, e.peer, e.invid), now) == Expire(es, now)
  {
    var es2 := Respond(es, e.peer, e.invid);
    forall x ensures x in Expire(es2, now) <==> x in Expire(es, now) {
      ExpireMembers(es, now, x);
      ExpireMembers(es2, now, x);
      if x in Expire(es, now) {
        var f :| f in es && x == Expired(f, now) && LiveAt(es, f.invid, now);
        ExpiresForth(es, e, f, now);
      }
      if x in Expire(es2, now) {
        var f :| f in es2 && x == Expired(f, now) && LiveAt(es2, f.invid, now);
        ExpiresBack(es, e, f, now);
      }
    }
  }

  lemma ExpiresForth(es: set<Entry>, e: Entry, f: Entry, now: Time)
    requires UniqueKeys(es) && e in es && e.ExpiredAt(now)
    requires f in es && LiveAt(es, f.invid, now)
    ensures var es2 := Respond(es, e.peer, e.invid);
            exists f' :: f' in es2 && Expired(f, now) == Expired(f', now) && LiveAt(es2, f'.invid, now)
  {
    RespondIsPrune(es, e);
    LiveAfterRespond(es, e, f.invid, now);
    var es1 := es - {e} + {e.(phase := Done)};
    var f' := if f == e then e.(phase := Done) else f;
    var g :| g in es && g.invid == f.invid && !g.phase.Done? && !g.ExpiredAt(now);
    assert g in es1 && f' in es1;
    assert f' in Prune(es1) && Expired(f, now) == Expired(f', now);
  }

  lemma ExpiresBack(es: set<Entry>, e: Entry, f: Entry, now: Time)
    requires UniqueKeys(es) && e in es && e.ExpiredAt(now)
    requires f in Respond(es, e.peer, e.invid) && LiveAt(Respond(es, e.peer, e.invid), f.invid, now)
    ensures exists f' :: f' in es && Expired(f, now) == Expired(f', now) && LiveAt(es, f'.invid, now)
  {
    RespondIsPrune(es, e);
    LiveAfterRespond(es, e, f.invid, now);
    var f' := if f == e.(phase := Done) then e else f;
    assert f' in es && Expired(f, now) == Expired(f', now);
  }

  /** The pairs whose request has run out. */
  ghost function Overdue(es: set<Entry>, now: Time): set<(NodeId, InvId)> {
    set e | e in es && e.ExpiredAt(now) :: (e.peer, e.invid)
  }

  lemma OthersStayExpired(es: set<Entry>, e: Entry, now: Time)
    requires UniqueKeys(es) && OneInFlight(es) && NoDeadInv(es) && e in es && e.ExpiredAt(now)
    ensures forall f :: f in es && f.ExpiredAt(now) && f != e ==> f in Respond(es, e.peer, e.invid)
    ensures forall f :: f in Respond(es, e.peer, e.invid) && f.ExpiredAt(now) ==> f in es && f != e
  {
    RespondIsPrune(es, e);
    if f :| f in es && f != e && f.invid == e.invid && !f.phase.Done? {
      RespondKeeps(es, e, f);
    } else {
      RespondForgets(es, e);
    }
  }

  lemma OverdueAfterRespond(es: set<Entry>, e: Entry, now: Time)
    requires UniqueKeys(es) && OneInFlight(es) && NoDeadInv(es) && e in es && e.ExpiredAt(now)
    ensures Overdue(Respond(es, e.peer, e.invid), now) == Overdue(es, now) - {(e.peer, e.invid)}
  {
    var es' := Respond(es, e.peer, e.invid);
    OthersStayExpired(es, e, now);
    forall k ensures k in Overdue(es', now) <==> k in Overdue(es, now) && k != (e.peer, e.invid) {
      if k in Overdue(es, now) && k != (e.peer, e.invid) {
        var f :| f in es && f.ExpiredAt(now) && k == (f.peer, f.invid);
        assert f in es';
      }
      if k in Overdue(es', now) {
        var f :| f in es' && f.ExpiredAt(now) && k == (f.peer, f.invid);
        assert f in es;
      }
    }
  }

  /** With nothing expired and nothing dead, expiring changes nothing. */
  lemma NothingExpires(es: set<Entry>, now: Time)
    requires NoDeadInv(es)
    requires forall e :: e in es ==> !e.ExpiredAt(now)
    ensures Expire(es, now) == es
  {
    forall x ensures x in Expire(es, now) <==> x in es {
      ExpireMembers(es, now, x);
      if x in es {
        var f :| f in es && f.invid == x.invid && !f.phase.Done?;
        assert x == Expired(x, now) && LiveAt(es, x.invid, now);
      }
    }
  }

  /** Completing and deleting one entry of the peer first does not change what disconnecting does. */
  lemma DisconnectAfterDelete(es: set<Entry>, e: Entry)
    requires UniqueKeys(es) && e in es
    ensures Disconnect(Respond(es, e.peer, e.invid) - {e.(phase := Done)}, e.peer) == Disconnect(es, e.peer)
  {
    RespondIsPrune(es, e);
    var es1 := es - {e} + {e.(phase := Done)};
    var es2 := Prune(es1) - {e.(phase := Done)};
    var rest := set f | f in es && f.peer != e.peer;
    var rest2 := set f | f in es2 && f.peer != e.peer;
    forall x ensures x in Prune(rest2) <==> x in Prune(rest) {
      if x in Prune(rest) {
        var g :| g in rest && g.invid == x.invid && !g.phase.Done?;
        assert g in es1 && x in es1;
        assert g in rest2 && x in rest2;
      }
      if x in Prune(rest2) {
        var g :| g in rest2 && g.invid == x.invid && !g.phase.Done?;
        assert g in rest && x in rest;
      }
    }
  }

  lemma RequestAlone(es: set<Entry>, e: Entry, expiry: Time)
    requires UniqueKeys(es) && e in es && e.phase.Candidate?
    requires forall f :: f in es && f.invid == e.invid ==> !f.phase.InFlight?
    ensures Request(es, e.peer, e.invid, expiry) == es - {e} + {e.(phase := InFlight(expiry))}
  {
    var es' := es - {e} + {e.(phase := InFlight(expiry))};
    forall x ensures x in Request(es, e.peer, e.invid, expiry) <==> x in es' {
      if x in es - {e} { assert x == Requested(x, e.peer, e.invid, expiry); }
      assert e.(phase := InFlight(expiry)) == Requested(e, e.peer, e.invid, expiry);
    }
  }

  lemma RequestIgnored(es: set<Entry>, peer: NodeId, invid: InvId, expiry: Time)
    requires !IsCandidate(es, peer, invid)
    ensures Request(es, peer, invid, expiry) == es
  {
  }

  lemma RequestReplaces(es: set<Entry>, e: Entry, o: Entry, expiry: Time)
    requires UniqueKeys(es) && OneInFlight(es) && e in es && e.phase.Candidate?
    requires o in es && o.invid == e.invid && o.phase.InFlight?
    ensures Request(es, e.peer, e.invid, expiry) ==
              es - {o} + {o.(phase := Done)} - {e} + {e.(phase := InFlight(expiry))}
  {
    var es' := es - {o} + {o.(phase := Done)} - {e} + {e.(phase := InFlight(expiry))};
    forall x ensures x in Request(es, e.peer, e.invid, expiry) <==> x in es' {
      if x in es - {e} - {o} { assert x == Requested(x, e.peer, e.invid, expiry); }
      assert e.(phase := InFlight(expiry)) == Requested(e, e.peer, e.invid, expiry);
      assert o.(phase := Done) == Requested(o, e.peer, e.invid, expiry);
    }
  }

  lemma NothingToDisconnect(es: set<Entry>, peer: NodeId)
    requires NoDeadInv(es)
    requires forall e :: e in es ==> e.peer != peer
    ensures Disconnect(es, peer) == es
  {
    assert (set e | e in es && e.peer != peer) == es;
  }

  // ---------- whole runs ----------

  ghost predicate IsRun(ts: seq<Table>, cs: seq<Call>) {
    && |ts| == |cs| + 1
    && ts[0] == Table({}, 0)
    && (forall i :: 0 <= i < |cs| ==> StepAt(ts, cs, i))
  }

  /** The answers given along a run. */
  ghost predicate AnswerAt(salt: Salt, ts: seq<Table>, cs: seq<Call>, answers: seq<seq<InvId>>, i: nat)
    requires i < |cs| && i + 1 < |ts| && i < |answers|
  {
    cs[i].GetRequestable? ==> IsAnswer(salt, ts[i + 1].entries, cs[i].peer, cs[i].now, answers[i])
  }

  ghost predicate StepAt(ts: seq<Table>, cs: seq<Call>, i: nat)
    requires i < |cs| && i + 1 < |ts|
  {
    ts[i + 1] == Step(ts[i], cs[i])
  }

  lemma {:induction false} RunKeepsWellFormed(ts: seq<Table>, cs: seq<Call>, n: nat)
    requires IsRun(ts, cs) && n <= |cs|
    ensures WellFormed(ts[n])
  {
    if n > 0 {
      RunKeepsWellFormed(ts, cs, n - 1);
      assert StepAt(ts, cs, n - 1);
      StepKeepsWellFormed(ts[n - 1], cs[n - 1]);
    }
  }

  /** Requested from the peer, or failed there, some time before. */
  ghost predicate Spent(es: set<Entry>, peer: NodeId, invid: InvId) {
    exists e :: e in es && e.Is(peer, invid) && !e.phase.Candidate?
  }

  lemma StepKeepsSpent(t: Table, c: Call, peer: NodeId, invid: InvId)
    requires UniqueKeys(t.entries)
    requires Spent(t.entries, peer, invid) && Tracks(Step(t, c).entries, peer, invid)
    ensures Spent(Step(t, c).entries, peer, invid)
  {
    var f :| f in t.entries && f.Is(peer, invid) && !f.phase.Candidate?;
    var e' :| e' in Step(t, c).entries && e'.Is(peer, invid);
    var e := StepMovesOn(t, c, e');
    assert e == f;
  }

  lemma SpentNext(ts: seq<Table>, cs: seq<Call>, peer: NodeId, invid: InvId, n: nat)
    requires IsRun(ts, cs) && n < |cs|
    requires Spent(ts[n].entries, peer, invid) && Tracks(ts[n + 1].entries, peer, invid)
    ensures Spent(ts[n + 1].entries, peer, invid)
  {
    RunKeepsWellFormed(ts, cs, n);
    assert StepAt(ts, cs, n);
    StepKeepsSpent(ts[n], cs[n], peer, invid);
  }

  ghost predicate TracksThrough(ts: seq<Table>, peer: NodeId, invid: InvId, i: nat, n: nat)
    requires n < |ts|
  {
    forall k :: i <= k <= n ==> Tracks(ts[k].entries, peer, invid)
  }

  lemma TracksThroughLess(ts: seq<Table>, peer: NodeId, invid: InvId, i: nat, n: nat)
    requires i < n < |ts| && TracksThrough(ts, peer, invid, i, n)
    ensures TracksThrough(ts, peer, invid, i, n - 1) && Tracks(ts[n].entries, peer, invid)
  {
  }

  /** As long as the pair is tracked without a gap, a spent pair stays spent. */
  lemma {:induction false} RunKeepsSpent(ts: seq<Table>, cs: seq<Call>, peer: NodeId, invid: InvId, i: nat, n: nat)
    requires IsRun(ts, cs) && i <= n <= |cs|
    requires Spent(ts[i].entries, peer, invid)
    requires TracksThrough(ts, peer, invid, i, n)
    ensures Spent(ts[n].entries, peer, invid)
    decreases n
  {
    if i < n {
      TracksThroughLess(ts, peer, invid, i, n);
      RunKeepsSpent(ts, cs, peer, invid, i, n - 1);
      SpentNext(ts, cs, peer, invid, n - 1);
    }
  }

  /** The same inventory is never offered twice to one peer: whenever a pair that was requested or
    * has failed at moment i is offered by the call at moment n, the pair was forgotten in between.
    */
  lemma NeverOfferedTwice(ts: seq<Table>, cs: seq<Call>, salt: Salt, peer: NodeId, invid: InvId, i: nat, n: nat,
                          answers: seq<seq<InvId>>)
    requires IsRun(ts, cs) && i <= n < |cs| == |answers|
    requires Spent(ts[i].entries, peer, invid)
    requires cs[n].GetRequestable? && cs[n].peer == peer && AnswerAt(salt, ts, cs, answers, n) && invid in answers[n]
    ensures exists k :: i < k <= n && !Tracks(ts[k].entries, peer, invid)
  {
    if forall k :: i < k <= n ==> Tracks(ts[k].entries, peer, invid) {
      assert Tracks(ts[i].entries, peer, invid);
      var es := ts[n + 1].entries;
      assert Offered(salt, es, peer, cs[n].now, invid);
      var o :| o in es && o.Is(peer, invid) && Requestable(salt, es, o, cs[n].now);
      assert Tracks(es, peer, invid);
      RunKeepsSpent(ts, cs, peer, invid, i, n + 1);
      RunKeepsWellFormed(ts, cs, n + 1);
      assert false;
    }
  }
}

/** The tracker class: one container with three sorted indexes, per-peer counters and a sequence
  * counter, all updated in place (src/invrequest.cpp:356-860). Every method is proved to act on
  * the table of InvRequestSpec as the header promises.
  */
module InvRequest {
  import opened Wrappers
  import Spec = InvRequestSpec
  import opened InvRequestIndex

  // ---------- sequence edits ----------

  function Without<T>(s: seq<T>, k: nat): seq<T>
    requires k < |s|
  {
    s[..k] + s[k + 1..]
  }

  function With<T>(s: seq<T>, k: nat, a: T): seq<T>
    requires k <= |s|
  {
    s[..k] + [a] + s[k..]
  }

  lemma WithoutFacts(salt: Salt, s: seq<Announcement>, k: nat)
    requires Sorted(salt, s) && Distinct(s) && k < |s|
    ensures Sorted(salt, Without(s, k)) && Distinct(Without(s, k))
    ensures Contents(Without(s, k)) == Contents(s) - {s[k]}
  {
    var t := Without(s, k);
    forall a ensures a in t <==> a in s && a != s[k] {
      if a in s && a != s[k] {
        var i :| 0 <= i < |s| && s[i] == a;
        assert t[if i < k then i else i - 1] == a;
      }
    }
  }

  lemma WithFacts(salt: Salt, s: seq<Announcement>, k: nat, a: Announcement)
    requires Sorted(salt, s) && Distinct(s) && FitsAt(salt, s, k, a) && a !in s
    ensures Sorted(salt, With(s, k, a)) && Distinct(With(s, k, a))
    ensures Contents(With(s, k, a)) == Contents(s) + {a}
  {
    var t := With(s, k, a);
    assert t[k] == a;
    forall b ensures b in t <==> b in s || b == a {
      if b in s {
        var i :| 0 <= i < |s| && s[i] == b;
        assert t[if i < k then i else i + 1] == b;
      }
    }
  }

  /** Inserts where the order allows it; among ties the place is arbitrary. */
  method Place(salt: Salt, s: seq<Announcement>, a: Announcement) returns (t: seq<Announcement>)
    requires Sorted(salt, s) && Distinct(s) && a !in s
    ensures Sorted(salt, t) && Distinct(t) && Contents(t) == Contents(s) + {a}
  {
    ghost var fit := SomewhereFits(salt, s, a);
    var j :| 0 <= j <= |s| && FitsAt(salt, s, j, a);
    WithFacts(salt, s, j, a);
    t := With(s, j, a);
  }

  /** Lists every element of the set exactly once. */
  ghost predicate ReportsOnce(s: seq<(NodeId, InvId)>, c: set<(NodeId, InvId)>) {
    && (forall i, j :: 0 <= i < j < |s| ==> s[i] != s[j])
    && (forall x :: x in s <==> x in c)
  }

  lemma ReportsOneMore(s: seq<(NodeId, InvId)>, due: set<(NodeId, InvId)>, left: set<(NodeId, InvId)>,
                       k: (NodeId, InvId))
    requires ReportsOnce(s, due - left) && left <= due && k in left
    ensures ReportsOnce(s + [k], due - (left - {k}))
  {
  }

  /** Waiting announcements lie in the future, selectable ones do not. */
  ghost predicate TimedFor(A: set<Announcement>, now: Time) {
    forall a :: a in A ==> (a.IsWaiting() ==> now < a.time) && (a.IsSelectable() ==> a.time <= now)
  }

  ghost function TooEarlyIn(A: set<Announcement>, now: Time): set<(NodeId, InvId)> {
    set a | a in A && a.IsSelectable() && a.time > now :: (a.peer, a.invid)
  }

  lemma ShrinksTooEarly(A: set<Announcement>, A': set<Announcement>, a: Announcement, now: Time)
    requires NoLongerSelectable(A, A', a) && a in A && a.IsSelectable() && a.time > now
    ensures TooEarlyIn(A', now) < TooEarlyIn(A, now)
  {
    forall k | k in TooEarlyIn(A', now) ensures k in TooEarlyIn(A, now) && k != (a.peer, a.invid) {
      var b :| b in A' && b.IsSelectable() && b.time > now && k == (b.peer, b.invid);
      var c :| c in A && c.SameKey(b) && c.IsSelectable() && c.time == b.time;
    }
    assert (a.peer, a.invid) in TooEarlyIn(A, now);
  }

  lemma TracksIs(A: set<Announcement>, peer: NodeId, invid: InvId)
    ensures Spec.Tracks(Entries(A), peer, invid) <==> exists a :: a in A && a.peer == peer && a.invid == invid
  {
    if a :| a in A && a.peer == peer && a.invid == invid { assert a.Entry() in Entries(A); }
  }

  lemma NotACandidate(A: set<Announcement>, peer: NodeId, invid: InvId, expiry: Time)
    requires forall a :: a in A && a.peer == peer && a.invid == invid ==> a.state.Requested? || a.state.Completed?
    ensures Spec.Request(Entries(A), peer, invid, expiry) == Entries(A)
  {
    Spec.RequestIgnored(Entries(A), peer, invid, expiry);
  }

  lemma NoResponse(A: set<Announcement>, peer: NodeId, invid: InvId)
    requires Spec.NoDeadInv(Entries(A)) && forall a :: a in A ==> !(a.peer == peer && a.invid == invid)
    ensures Spec.Respond(Entries(A), peer, invid) == Entries(A)
  {
    var es := Entries(A);
    assert forall e :: e in es ==> Spec.Answered(e, peer, invid) == e;
    assert (set e | e in es :: Spec.Answered(e, peer, invid)) == es;
  }

  /** What is left of a peer when the iteration over it stands at cur. */
  ghost predicate At(mine: set<Announcement>, cur: Option<Announcement>) {
    match cur
    case None => mine == {}
    case Some(it) => it in mine && forall a :: a in mine && a != it ==> PeerBefore(it, a)
  }

  lemma AdvanceAt(A: set<Announcement>, peer: NodeId, it: Announcement, next: Option<Announcement>)
    requires UniqueKeys(A) && At(OfPeer(A, peer), Some(it))
    requires next.None? ==> forall a :: a in A ==> !PeerBefore(it, a)
    requires next.Some? ==> next.value in A && PeerBefore(it, next.value)
                            && forall a :: a in A && PeerBefore(it, a) ==> !PeerBefore(a, next.value)
    ensures At(OfPeer(A, peer) - {it}, if next.Some? && next.value.peer == peer then next else None)
  {
    var mine := OfPeer(A, peer) - {it};
    assert forall a :: a in mine ==> a in A && a.peer == peer && PeerBefore(it, a);
    if next.Some? {
      forall a | a in mine && a != next.value ensures PeerBefore(next.value, a) {
        assert !PeerBefore(a, next.value) && !a.SameKey(next.value);
      }
    }
  }

  /** Only the announcements of one invid have changed; it is the peer's only one among them. */
  lemma PeerKeepsOthers(A: set<Announcement>, A': set<Announcement>, it: Announcement, it': Announcement)
    requires UniqueKeys(A) && UniqueKeys(A') && it in A && it.SameKey(it')
             && Dropping(A', it.invid) == Dropping(A, it.invid)
    requires it' in A' || forall a :: a in A' ==> a.invid != it.invid
    ensures OfPeer(A' - {it'}, it.peer) == OfPeer(A, it.peer) - {it}
  {
    forall a ensures a in OfPeer(A' - {it'}, it.peer) <==> a in OfPeer(A, it.peer) - {it} {
      if a in OfPeer(A, it.peer) - {it} {
        assert !a.SameKey(it);
        assert a in Dropping(A, it.invid);
      }
      if a in OfPeer(A' - {it'}, it.peer) {
        assert a.invid == it.invid ==> a.SameKey(it');
        assert a in Dropping(A', it.invid);
      }
    }
  }

  lemma DisconnectGoesOn(A: set<Announcement>, it: Announcement)
    requires Spec.UniqueKeys(Entries(A)) && it in A
    ensures Spec.Disconnect(Spec.Respond(Entries(A), it.peer, it.invid) - {it.(state := Completed).Entry()}, it.peer)
            == Spec.Disconnect(Entries(A), it.peer)
  {
    assert it.Entry() in Entries(A);
    assert it.(state := Completed).Entry() == it.Entry().(phase := Spec.Done);
    Spec.DisconnectAfterDelete(Entries(A), it.Entry());
  }

  lemma EntryAbsent(A: set<Announcement>, a: Announcement)
    requires forall b :: b in A ==> b.invid != a.invid
    ensures Entries(A) - {a.Entry()} == Entries(A) && A - {a} == A
  {
  }

  lemma NoneLeft(A: set<Announcement>, peer: NodeId)
    requires Spec.NoDeadInv(Entries(A)) && OfPeer(A, peer) == {}
    ensures Spec.Disconnect(Entries(A), peer) == Entries(A)
  {
    forall a | a in A ensures a.peer != peer { assert a !in OfPeer(A, peer); }
    Spec.NothingToDisconnect(Entries(A), peer);
  }

  // ---------- what SanityCheck recomputes per invid ----------

  ghost function InState(A: set<Announcement>, invid: InvId, states: set<State>): set<Announcement> {
    set a | a in A && a.invid == invid && a.state in states
  }

  lemma SanityCheckPasses(salt: Salt, A: set<Announcement>, a: Announcement)
    requires Choice(salt, A) && Spec.NoDeadInv(Entries(A)) && a in A
    ensures |InState(A, a.invid, {CandidateDelayed, CandidateReady, CandidateBest, Requested})| > 0
    ensures |InState(A, a.invid, {CandidateBest, Requested})| <= 1
    ensures |InState(A, a.invid, {CandidateReady})| > 0 ==> |InState(A, a.invid, {CandidateBest, Requested})| == 1
    ensures forall b, r :: b in InState(A, a.invid, {CandidateBest}) && r in InState(A, a.invid, {CandidateReady}) ==>
                           r.Priority(salt) <= b.Priority(salt)
  {
    var live := InState(A, a.invid, {CandidateDelayed, CandidateReady, CandidateBest, Requested});
    var selected := InState(A, a.invid, {CandidateBest, Requested});
    assert a.Entry() in Entries(A);
    var e :| e in Entries(A) && e.invid == a.invid && !e.phase.Done?;
    var b :| b in A && e == b.Entry();
    assert b in live;
    if s :| s in selected {
      assert selected == {s};
    } else {
      assert selected == {};
      assert forall r :: r in A && r.invid == a.invid ==> !r.IsSelected() by {
        forall r | r in A && r.invid == a.invid ensures !r.IsSelected() { assert r !in selected; }
      }
      assert InState(A, a.invid, {CandidateReady}) == {};
    }
  }

  // ---------- the answer ----------

  predicate SequenceBefore(a: Announcement, b: Announcement) { a.sequence < b.sequence }

  ghost predicate Increasing(s: seq<Announcement>) {
    forall i, j :: 0 <= i < j < |s| ==> s[i].sequence < s[j].sequence
  }

  method SortBySequence(c: set<Announcement>) returns (s: seq<Announcement>)
    requires forall a, b :: a in c && b in c && a.sequence == b.sequence ==> a == b
    ensures Increasing(s) && forall a :: a in s <==> a in c
  {
    s := [];
    var rest := c;
    while rest != {}
      invariant rest <= c && Increasing(s)
      invariant forall a :: a in s <==> a in c && a !in rest
      invariant forall a, b :: a in s && b in rest ==> a.sequence < b.sequence
      decreases |rest|
    {
      ghost var m := LeastExists(SequenceBefore, rest);
      var n :| n in rest && forall a :: a in rest ==> !SequenceBefore(a, n);
      s := s + [n];
      rest := rest - {n};
    }
  }

  function InvIds(s: seq<Announcement>): (r: seq<InvId>)
    ensures |r| == |s| && forall i :: 0 <= i < |s| ==> r[i] == s[i].invid
  {
    seq(|s|, i requires 0 <= i < |s| => s[i].invid)
  }

  lemma NumbersDiffer(A: set<Announcement>, c: set<Announcement>, next: nat)
    requires Spec.Numbered(Spec.Table(Entries(A), next)) && UniqueKeys(A) && c <= A
    ensures forall a, b :: a in c && b in c && a.sequence == b.sequence ==> a == b
  {
    forall a, b | a in c && b in c && a.sequence == b.sequence ensures a == b {
      assert a.Entry() in Entries(A) && b.Entry() in Entries(A);
      assert a.SameKey(b);
    }
  }

  lemma BestIsRequestable(salt: Salt, A: set<Announcement>, a: Announcement, now: Time)
    requires Choice(salt, A) && TimedFor(A, now) && a in A && a.state.CandidateBest?
    ensures Spec.Requestable(salt, Entries(A), a.Entry(), now)
  {
    assert a.Entry() in Entries(A);
    forall f | f in Entries(A) && f.invid == a.invid
      ensures !f.phase.InFlight? && (f.ReadyAt(now) ==> f.Priority(salt) <= a.Entry().Priority(salt))
    {
      var b :| b in A && f == b.Entry();
      assert b.IsSelected() ==> b == a;
    }
  }

  lemma StrictlyBestIsBest(salt: Salt, A: set<Announcement>, a: Announcement, now: Time)
    requires Choice(salt, A) && UniqueKeys(A) && TimedFor(A, now) && a in A
    requires Spec.StrictlyBest(salt, Entries(A), a.Entry(), now)
    ensures a.state.CandidateBest?
  {
    if a.state.CandidateReady? {
      var b :| b in A && b.invid == a.invid && b.IsSelected();
      assert b.Entry() in Entries(A);
      assert b.SameKey(a) ==> b == a;
    }
  }

  lemma AnswerIsRight(salt: Salt, A: set<Announcement>, peer: NodeId, now: Time, s: seq<Announcement>)
    requires Choice(salt, A) && UniqueKeys(A) && TimedFor(A, now)
    requires Increasing(s) && forall a :: a in s <==> a in A && a.peer == peer && a.state.CandidateBest?
    ensures Spec.IsAnswer(salt, Entries(A), peer, now, InvIds(s))
  {
    var es, ret := Entries(A), InvIds(s);
    forall i | 0 <= i < |ret| ensures Spec.Offered(salt, es, peer, now, ret[i]) {
      BestIsRequestable(salt, A, s[i], now);
      assert s[i].Entry() in es && s[i].Entry().Is(peer, ret[i]);
    }
    forall i, e | 0 <= i < |ret| && e in es && e.Is(peer, ret[i]) ensures e == s[i].Entry() {
      var b :| b in A && e == b.Entry();
      assert b.SameKey(s[i]) && s[i] in A;
    }
    forall e | e in es && e.peer == peer && Spec.StrictlyBest(salt, es, e, now) ensures e.invid in ret {
      var b :| b in A && e == b.Entry();
      StrictlyBestIsBest(salt, A, b, now);
      var i :| 0 <= i < |s| && s[i] == b;
      assert ret[i] == e.invid;
    }
  }

  /** Every invid that no request is out for and that some peer is ready for is offered to exactly one peer. */
  lemma SomePeerIsOffered(salt: Salt, A: set<Announcement>, now: Time, e: Spec.Entry) returns (a: Announcement)
    requires Choice(salt, A) && TimedFor(A, now)
    requires e in Entries(A) && e.ReadyAt(now) && forall f :: f in Entries(A) && f.invid == e.invid ==>
               !f.phase.InFlight?
    ensures a in A && a.invid == e.invid && a.state.CandidateBest? && Spec.Requestable(salt, Entries(A), a.Entry(), now)
    ensures forall b :: b in A && b.invid == e.invid && b.state.CandidateBest? ==> b == a
  {
    var c :| c in A && e == c.Entry();
    assert c.IsSelectable();
    a := c;
    if c.state.CandidateReady? {
      a :| a in A && a.invid == c.invid && a.IsSelected();
    }
    assert a.Entry() in Entries(A);
    BestIsRequestable(salt, A, a, now);
  }

  lemma {:induction false} EntriesCount(B: set<Announcement>)
    requires UniqueKeys(B)
    ensures |Entries(B)| == |B|
  {
    if B == {} {
      assert Entries(B) == {};
    } else {
      var a :| a in B;
      EntriesCount(B - {a});
      EntriesRemove(B, a);
      assert a.Entry() in Entries(B);
    }
  }

  lemma RequestsAgree(A: set<Announcement>, p: NodeId)
    requires UniqueKeys(A)
    ensures Info(A, p).requested == |set e | e in Entries(A) && e.peer == p && e.phase.InFlight?|
  {
    var r := Requests(A, p);
    EntriesCount(r);
    assert Entries(r) == set e | e in Entries(A) && e.peer == p && e.phase.InFlight?;
  }

  /** The counters, read off the table. */
  lemma CandidatesAgree(A: set<Announcement>, p: NodeId)
    requires UniqueKeys(A)
    ensures Info(A, p).total - Info(A, p).requested - Info(A, p).completed
            == |set e | e in Entries(A) && e.peer == p && e.phase.Candidate?|
  {
    var r, d, t := Requests(A, p), Completes(A, p), OfPeer(A, p);
    var c := t - r - d;
    EntriesCount(c);
    assert Entries(c) == set e | e in Entries(A) && e.peer == p && e.phase.Candidate?;
    assert |t - r| == |t| - |r| && |c| == |t - r| - |d| by {
      assert t == (t - r) + r && t - r == c + d;
    }
  }

  /** The announcements before position k have smaller invids, the others have not. */
  ghost predicate Splits(s: seq<Announcement>, k: nat, invid: InvId) {
    && k <= |s| && (forall i :: 0 <= i < k ==> s[i].invid < invid)
    && (forall i :: k <= i < |s| ==> invid <= s[i].invid)
  }

  lemma SplitsWithout(s: seq<Announcement>, k: nat, invid: InvId)
    requires Splits(s, k, invid) && k < |s| && s[k].invid == invid
    ensures Splits(Without(s, k), k, invid) && Dropping(Contents(s) - {s[k]}, invid) == Dropping(Contents(s), invid)
  {
  }

  lemma InvidGone(salt: Salt, s: seq<Announcement>, k: nat, invid: InvId)
    requires Sorted(salt, s) && Splits(s, k, invid) && (k < |s| ==> s[k].invid != invid)
    ensures Dropping(Contents(s), invid) == Contents(s)
  {
    forall a | a in Contents(s) ensures a.invid != invid {
      var i :| 0 <= i < |s| && s[i] == a;
      assert k < i ==> !Before(salt, s[i], s[k]);
    }
  }

  class Tracker {
    const salt: Salt

    /** The container, listed in ByInvId order; ties are in no particular order. */
    var index: seq<Announcement>
    var peerinfo: map<NodeId, PeerInfo>
    var sequence: nat

    ghost function Anns(): set<Announcement>
      reads this
    {
      Contents(index)
    }

    ghost function Table(): Spec.Table
      reads this
    {
      Spec.Table(Entries(Anns()), sequence)
    }

    /** The container and its counters are consistent. */
    ghost predicate Indexed()
      reads this
    {
      Sorted(salt, index) && Distinct(index) && UniqueKeys(Anns()) && Counted(peerinfo, Anns())
    }

    /** Everything that SanityCheck asserts. */
    ghost predicate Valid()
      reads this
    {
      Indexed() && Choice(salt, Anns()) && Spec.WellFormed(Table())
    }

    constructor (salt: Salt)
      ensures Valid() && Table() == Spec.Table({}, 0) && this.salt == salt
    {
      this.salt := salt;
      index := [];
      peerinfo := map[];
      sequence := 0;
      new;
      assert Anns() == {} && Entries(Anns()) == {};
      forall p ensures Info(Anns(), p).total == 0 { assert OfPeer(Anns(), p) == {}; }
    }

    // ---------- wrappers that keep the counters up to date ----------

    method Erase(k: nat)
      requires Indexed() && k < |index|
      modifies `index, `peerinfo
      ensures Indexed() && Anns() == old(Anns()) - {old(index)[k]}
      ensures index == Without(old(index), k)
    {
      ErasedIsCounted(peerinfo, Anns(), index[k]);
      WithoutFacts(salt, index, k);
      peerinfo := CountErased(peerinfo, index[k]);
      index := Without(index, k);
    }

    method Modify(it: Announcement, it': Announcement)
      requires Indexed() && it in index && it.SameKey(it')
      modifies `index, `peerinfo
      ensures Indexed() && Anns() == old(Anns()) - {it} + {it'}
    {
      ModifiedIsCounted(peerinfo, Anns(), it, it');
      var k :| 0 <= k < |index| && index[k] == it;
      WithoutFacts(salt, index, k);
      var rest := Without(index, k);
      assert it' !in Contents(rest);
      KeysKept(Anns(), it, it');
      index := Place(salt, rest, it');
      peerinfo := CountModified(peerinfo, it, it');
    }

    // ---------- the neighbour tricks ----------

    method PromoteCandidateReady(it: Announcement)
      requires Valid() && it in index && it.state.CandidateDelayed?
      modifies `index, `peerinfo
      ensures Valid() && Table() == old(Table())
      ensures NoLongerWaits(old(Anns()), Anns(), it)
    {
      ghost var A := Anns();
      assert it in A && Choice(salt, A) && UniqueKeys(A);
      Modify(it, it.(state := CandidateReady));
      SelectPromoted(it, A);
    }

    /** The second half of PromoteCandidateReady: it has just become ready. */
    method SelectPromoted(it: Announcement, ghost A: set<Announcement>)
      requires Choice(salt, A) && UniqueKeys(A) && it in A && it.state.CandidateDelayed?
      requires Indexed() && Anns() == A - {it} + {it.(state := CandidateReady)}
      modifies `index, `peerinfo
      ensures Indexed() && Choice(salt, Anns()) && Entries(Anns()) == Entries(A)
      ensures NoLongerWaits(A, Anns(), it)
    {
      var ready := it.(state := CandidateReady);
      assert ready in Anns();
      var i :| 0 <= i < |index| && index[i] == ready;
      NextTells(salt, index, i);
      if i + 1 == |index| || index[i + 1].invid != it.invid || index[i + 1].state.Completed? {
        PromotedAlone(salt, A, it);
        Modify(ready, it.(state := CandidateBest));
      } else {
        var next := index[i + 1];
        assert next in Anns() && next != ready;
        if next.state.CandidateBest? && ready.Priority(salt) > next.Priority(salt) {
          PromotedOver(salt, A, it, next);
          Modify(next, next.(state := CandidateReady));
          assert ready in Anns();
          Modify(ready, it.(state := CandidateBest));
        } else {
          PromotedBelow(salt, A, it, next);
        }
      }
    }

    method ChangeAndReselect(it: Announcement, state: State)
      requires Indexed() && Choice(salt, Anns()) && it in index
      requires state.Completed? || (state.CandidateDelayed? && it.IsSelectable())
      modifies `index, `peerinfo
      ensures Indexed() && Choice(salt, Anns())
      ensures Entries(Anns()) == old(Entries(Anns())) - {it.Entry()} + {it.(state := state).Entry()}
      ensures NoLongerSelectable(old(Anns()), Anns(), it)
      ensures if state.Completed? then NoLongerWaits(old(Anns()), Anns(), it)
              else NoLongerWaits(old(Anns()), Anns() - {it.(state := state)}, it)
      ensures it.(state := state) in index
      ensures Dropping(Anns(), it.invid) == Dropping(old(Anns()), it.invid)
    {
      ghost var A := Anns();
      var i :| 0 <= i < |index| && index[i] == it;
      if it.IsSelected() {
        PrevIsTopReady(salt, index, i);
      }
      if it.IsSelected() && i > 0 && index[i - 1].invid == it.invid && index[i - 1].state.CandidateReady? {
        var prev := index[i - 1];
        LeavesAndReselects(salt, A, it, prev, state);
        ReselectLeavesRest(A, it, prev, state);
        Modify(prev, prev.(state := CandidateBest));
        assert it in Anns();
        Modify(it, it.(state := state));
      } else {
        Leaves(salt, A, it, state);
        LeavesRest(A, it, state);
        Modify(it, it.(state := state));
      }
      assert it.(state := state) in Anns();
    }

    predicate IsOnlyNonCompleted(k: nat)
      reads this
      requires k < |index|
    {
      NeighboursSayOnly(index, k)
    }

    /** Erases forward from position k as long as the invid is the same. */
    method EraseInvIdFrom(k: nat, invid: InvId)
      requires Indexed() && Splits(index, k, invid)
      modifies `index, `peerinfo
      ensures Indexed()
      ensures Anns() == Dropping(old(Anns()), invid)
    {
      while k < |index| && index[k].invid == invid
        invariant Indexed() && Splits(index, k, invid)
        invariant Dropping(Anns(), invid) == Dropping(old(Anns()), invid)
        decreases |index|
      {
        SplitsWithout(index, k, invid);
        Erase(k);
      }
      InvidGone(salt, index, k, invid);
    }

    method MakeCompleted(it: Announcement) returns (stays: bool)
      requires Valid() && it in index
      modifies `index, `peerinfo
      ensures Valid()
      ensures Entries(Anns()) == Spec.Respond(old(Entries(Anns())), it.peer, it.invid)
      ensures stays <==> it.(state := Completed) in Anns()
      ensures stays || forall a :: a in Anns() ==> a.invid != it.invid
      ensures it.state.Completed? || NoLongerWaits(old(Anns()), Anns(), it)
      ensures Dropping(Anns(), it.invid) == Dropping(old(Anns()), it.invid)
    {
      Spec.RespondKeepsWellFormed(Table(), it.peer, it.invid);
      if it.state.Completed? {
        CompletedStays(Anns(), it);
        return true;
      }
      stays := CompleteOpen(it);
    }

    /** MakeCompleted for an announcement that is not completed yet. */
    method CompleteOpen(it: Announcement) returns (stays: bool)
      requires Indexed() && Choice(salt, Anns()) && it in index && !it.state.Completed?
      requires Spec.UniqueKeys(Entries(Anns())) && Spec.NoDeadInv(Entries(Anns()))
      modifies `index, `peerinfo
      ensures Indexed() && Choice(salt, Anns())
      ensures Entries(Anns()) == Spec.Respond(old(Entries(Anns())), it.peer, it.invid)
      ensures stays <==> it.(state := Completed) in Anns()
      ensures stays || forall a :: a in Anns() ==> a.invid != it.invid
      ensures NoLongerWaits(old(Anns()), Anns(), it)
      ensures Dropping(Anns(), it.invid) == Dropping(old(Anns()), it.invid)
    {
      var k :| 0 <= k < |index| && index[k] == it;
      NeighboursTellOnly(salt, index, k);
      if IsOnlyNonCompleted(k) {
        LastOneForgets(salt, Anns(), it);
        DroppingTwice(Anns(), it.invid);
        EraseInvIdFrom(k, it.invid);
        stays := false;
      } else {
        OthersKeep(Anns(), it);
        ChangeAndReselect(it, Completed);
        stays := true;
      }
    }

    // ---------- moving the clock ----------

    method FirstByTime() returns (it: Announcement)
      requires index != []
      ensures it in Anns() && forall a :: a in Anns() ==> !TimeBefore(a, it)
    {
      assert index[0] in Contents(index);
      ghost var m := LeastExists(TimeBefore, Contents(index));
      it :| it in index && forall a :: a in index ==> !TimeBefore(a, it);
    }

    method LastByTime() returns (it: Announcement)
      requires index != []
      ensures it in Anns() && forall a :: a in Anns() ==> !TimeBefore(it, a)
    {
      assert index[0] in Contents(index);
      ghost var m := LeastExists(TimeAfter, Contents(index));
      it :| it in index && forall a :: a in index ==> !TimeAfter(a, it);
    }

    ghost function Pending(now: Time): set<Announcement>
      reads this
    {
      set a | a in Anns() && a.IsWaiting() && a.time <= now
    }

    /** One round of the first loop of SetTimePoint. */
    method SettleFirst(now: Time) returns (more: bool, report: Option<(NodeId, InvId)>)
      requires Valid() && index != []
      modifies `index, `peerinfo
      ensures Valid() && Spec.Expire(Entries(Anns()), now) == Spec.Expire(old(Entries(Anns())), now)
      ensures report.None? ==> Spec.Overdue(Entries(Anns()), now) == Spec.Overdue(old(Entries(Anns())), now)
      ensures report.Some? ==> report.value in Spec.Overdue(old(Entries(Anns())), now)
                               && Spec.Overdue(Entries(Anns()), now) ==
                                    Spec.Overdue(old(Entries(Anns())), now) - {report.value}
      ensures more ==> Pending(now) < old(Pending(now))
      ensures !more ==> report.None? && index == old(index) && forall a :: a in Anns() && a.IsWaiting() ==> now < a.time
    {
      var it := FirstByTime();
      more, report := true, None;
      ghost var pending := Pending(now);
      if it.state.CandidateDelayed? && it.time <= now {
        PromoteCandidateReady(it);
        assert it in pending && it !in Pending(now) && Pending(now) <= pending;
      } else if it.state.Requested? && it.time <= now {
        assert it.Entry() in Entries(Anns());
        Spec.ExpireAfterRespond(Entries(Anns()), it.Entry(), now);
        Spec.OverdueAfterRespond(Entries(Anns()), it.Entry(), now);
        report := Some((it.peer, it.invid));
        var _ := MakeCompleted(it);
        assert it in pending && it !in Pending(now) && Pending(now) <= pending;
      } else {
        more := false;
      }
    }

    /** First loop of SetTimePoint: promotes what is due and completes what has expired. */
    method SettlePast(now: Time) returns (expired: seq<(NodeId, InvId)>)
      requires Valid()
      modifies `index, `peerinfo
      ensures Valid() && Spec.Expire(Entries(Anns()), now) == Spec.Expire(old(Entries(Anns())), now)
      ensures forall a :: a in Anns() && a.IsWaiting() ==> now < a.time
      ensures ReportsOnce(expired, Spec.Overdue(old(Entries(Anns())), now))
    {
      expired := [];
      ghost var due := Spec.Overdue(Entries(Anns()), now);
      var more := true;
      while more && index != []
        invariant Valid() && Spec.Expire(Entries(Anns()), now) == Spec.Expire(old(Entries(Anns())), now)
        invariant ReportsOnce(expired, due - Spec.Overdue(Entries(Anns()), now))
        invariant Spec.Overdue(Entries(Anns()), now) <= due
        invariant !more ==> forall a :: a in Anns() && a.IsWaiting() ==> now < a.time
        decreases more, Pending(now)
      {
        ghost var overdue := Spec.Overdue(Entries(Anns()), now);
        var report;
        more, report := SettleFirst(now);
        if report.Some? {
          ReportsOneMore(expired, due, overdue, report.value);
          expired := expired + [report.value];
        }
      }
    }

    method Demote(it: Announcement)
      requires Valid() && it in index && it.IsSelectable()
      modifies `index, `peerinfo
      ensures Valid() && Entries(Anns()) == old(Entries(Anns()))
      ensures NoLongerSelectable(old(Anns()), Anns(), it)
      ensures NoLongerWaits(old(Anns()), Anns() - {it.(state := CandidateDelayed)}, it)
    {
      ghost var t := Table();
      assert it.Entry() in t.entries;
      ChangeAndReselect(it, CandidateDelayed);
      assert Table() == t;
    }

    /** Second loop of SetTimePoint: the clock went backwards. */
    method SettleFuture(now: Time)
      requires Valid() && forall a :: a in Anns() && a.IsWaiting() ==> now < a.time
      modifies `index, `peerinfo
      ensures Valid() && Entries(Anns()) == old(Entries(Anns()))
      ensures TimedFor(Anns(), now)
    {
      while index != []
        invariant Valid() && Entries(Anns()) == old(Entries(Anns()))
        invariant forall a :: a in Anns() && a.IsWaiting() ==> now < a.time
        decreases TooEarlyIn(Anns(), now)
      {
        var it := LastByTime();
        ghost var A := Anns();
        if it.IsSelectable() && it.time > now {
          Demote(it);
          ShrinksTooEarly(A, Anns(), it, now);
        } else {
          break;
        }
      }
    }

    method SetTimePoint(now: Time) returns (expired: seq<(NodeId, InvId)>)
      requires Valid()
      modifies `index, `peerinfo
      ensures Valid() && Entries(Anns()) == Spec.Expire(old(Entries(Anns())), now)
      ensures TimedFor(Anns(), now)
      ensures ReportsOnce(expired, Spec.Overdue(old(Entries(Anns())), now))
    {
      expired := SettlePast(now);
      Spec.NothingExpires(Entries(Anns()), now);
      SettleFuture(now);
    }

    // ---------- the operations ----------

    method ReceivedInv(peer: NodeId, invid: InvId, preferred: bool, reqtime: Time)
      requires Valid()
      modifies this
      ensures Valid()
      ensures Table() == Spec.Step(old(Table()), Spec.ReceivedInv(peer, invid, preferred, reqtime))
    {
      Spec.StepKeepsWellFormed(Table(), Spec.ReceivedInv(peer, invid, preferred, reqtime));
      Spec.StepAnnounce(Table(), peer, invid, preferred, reqtime);
      TracksIs(Anns(), peer, invid);
      if a :| a in index && a.peer == peer && a.state.CandidateBest? && a.invid == invid {
        return;
      }
      // The unique ByPeer index refuses an announcement with the same (peer, not best, invid).
      if a :| a in index && a.peer == peer && !a.state.CandidateBest? && a.invid == invid {
        return;
      }
      var ann := Announcement(invid, reqtime, peer, sequence, preferred, CandidateDelayed);
      Emplace(ann);
      sequence := sequence + 1;
    }

    method Emplace(ann: Announcement)
      requires Indexed() && Choice(salt, Anns()) && ann.state.CandidateDelayed?
      requires forall b :: b in index ==> !b.SameKey(ann)
      modifies `index, `peerinfo
      ensures Indexed() && Choice(salt, Anns()) && Entries(Anns()) == old(Entries(Anns())) + {ann.Entry()}
    {
      AddedDelayed(salt, Anns(), ann);
      AddedIsCounted(peerinfo, Anns(), ann);
      index := Place(salt, index, ann);
      peerinfo := CountAdded(peerinfo, ann);
    }

    method LowerBound(invid: InvId, rank: nat) returns (k: nat)
      requires Sorted(salt, index)
      ensures IsLowerBound(index, invid, rank, k)
    {
      k := 0;
      while k < |index| && (index[k].invid < invid || (index[k].invid == invid && Rank(index[k].state) < rank))
        invariant k <= |index|
        invariant forall i :: 0 <= i < k ==>
                    index[i].invid < invid || (index[i].invid == invid && Rank(index[i].state) < rank)
      {
        k := k + 1;
      }
    }

    method ForgetInvId(invid: InvId)
      requires Valid()
      modifies `index, `peerinfo
      ensures Valid()
      ensures Table() == Spec.Step(old(Table()), Spec.ForgetInvId(invid))
    {
      Spec.StepKeepsWellFormed(Table(), Spec.ForgetInvId(invid));
      var k := LowerBound(invid, Rank(CandidateDelayed));
      EntriesForget(Anns(), invid);
      Subsets(salt, Anns(), Dropping(Anns(), invid));
      EraseInvIdFrom(k, invid);
    }

    method ReceivedResponse(peer: NodeId, invid: InvId)
      requires Valid()
      modifies `index, `peerinfo
      ensures Valid()
      ensures Table() == Spec.Step(old(Table()), Spec.ReceivedResponse(peer, invid))
    {
      Spec.StepEntries(Table(), Spec.ReceivedResponse(peer, invid));
      if a :| a in index && a.peer == peer && a.invid == invid {
        var _ := MakeCompleted(a);
      } else {
        NoResponse(Anns(), peer, invid);
      }
    }

    method RequestedData(peer: NodeId, invid: InvId, expiry: Time)
      requires Valid()
      modifies `index, `peerinfo
      ensures Valid()
      ensures Table() == Spec.Step(old(Table()), Spec.RequestedData(peer, invid, expiry))
    {
      Spec.StepKeepsWellFormed(Table(), Spec.RequestedData(peer, invid, expiry));
      Spec.StepEntries(Table(), Spec.RequestedData(peer, invid, expiry));
      if a :| a in index && a.peer == peer && a.state.CandidateBest? && a.invid == invid {
        RequestBest(a, expiry);
      } else if a :| a in index && a.peer == peer && !a.state.CandidateBest? && a.invid == invid {
        if a.state.CandidateDelayed? || a.state.CandidateReady? {
          RequestUnselected(a, expiry);
        } else {
          assert forall b :: b in Anns() && b.peer == peer && b.invid == invid ==> b.SameKey(a);
          NotACandidate(Anns(), peer, invid, expiry);
        }
      } else {
        NotACandidate(Anns(), peer, invid, expiry);
      }
    }

    method RequestBest(it: Announcement, expiry: Time)
      requires Indexed() && Choice(salt, Anns()) && it in index && it.state.CandidateBest?
      requires Spec.UniqueKeys(Entries(Anns()))
      modifies `index, `peerinfo
      ensures Indexed() && Choice(salt, Anns())
      ensures Entries(Anns()) == Spec.Request(old(Entries(Anns())), it.peer, it.invid, expiry)
    {
      RequestedAlone(salt, Anns(), it, expiry);
      Modify(it, it.(state := Requested, time := expiry));
    }

    /** RequestedData for a candidate that is not the best one. */
    method RequestUnselected(it: Announcement, expiry: Time)
      requires Indexed() && Choice(salt, Anns()) && it in index
               && (it.state.CandidateDelayed? || it.state.CandidateReady?)
      requires Spec.UniqueKeys(Entries(Anns())) && Spec.OneInFlight(Entries(Anns()))
      modifies `index, `peerinfo
      ensures Indexed() && Choice(salt, Anns())
      ensures Entries(Anns()) == Spec.Request(old(Entries(Anns())), it.peer, it.invid, expiry)
    {
      ghost var A := Anns();
      var k := LowerBound(it.invid, Rank(CandidateBest));
      LowerBoundFindsSelected(salt, index, it.invid, k);
      if k < |index| && index[k].invid == it.invid && index[k].state.CandidateBest? {
        var o := index[k];
        RequestedOverBest(salt, A, it, o, expiry);
        Modify(o, o.(state := CandidateReady));
      } else if k < |index| && index[k].invid == it.invid && index[k].state.Requested? {
        var o := index[k];
        RequestedOverRequest(salt, A, it, o, expiry);
        Modify(o, o.(state := Completed));
      } else {
        RequestedAlone(salt, A, it, expiry);
      }
      assert it in Anns();
      Modify(it, it.(state := Requested, time := expiry));
    }

    /** The first announcement in ByPeer order among those that come after the given one. */
    method NextByPeer(it: Announcement) returns (r: Option<Announcement>)
      ensures r.None? ==> forall a :: a in Anns() ==> !PeerBefore(it, a)
      ensures r.Some? ==> r.value in Anns() && PeerBefore(it, r.value)
                          && forall a :: a in Anns() && PeerBefore(it, a) ==> !PeerBefore(a, r.value)
    {
      var later := set a | a in index && PeerBefore(it, a);
      if later == {} {
        r := None;
        assert forall a :: a in index && PeerBefore(it, a) ==> a in later;
      } else {
        ghost var m := LeastExists(PeerBefore, later);
        var n :| n in later && forall a :: a in later ==> !PeerBefore(a, n);
        r := Some(n);
      }
    }

    method DisconnectedPeer(peer: NodeId)
      requires Valid()
      modifies `index, `peerinfo
      ensures Valid()
      ensures Table() == Spec.Step(old(Table()), Spec.DisconnectedPeer(peer))
    {
      Spec.StepEntries(Table(), Spec.DisconnectedPeer(peer));
      var it := FirstOfPeer(peer);
      while it.Some?
        invariant Valid() && At(OfPeer(Anns(), peer), it)
        invariant Spec.Disconnect(Entries(Anns()), peer) == old(Spec.Disconnect(Entries(Anns()), peer))
        decreases OfPeer(Anns(), peer)
      {
        // Decided before the announcement changes its place.
        var next := NextByPeer(it.value);
        AdvanceAt(Anns(), peer, it.value, next);
        if next.Some? && next.value.peer != peer {
          next := None;
        }
        DeleteOne(it.value);
        it := next;
      }
      NoneLeft(Anns(), peer);
    }

    /** lower_bound(peer, false, 0) in ByPeer order. */
    method FirstOfPeer(peer: NodeId) returns (r: Option<Announcement>)
      requires UniqueKeys(Anns())
      ensures At(OfPeer(Anns(), peer), r)
    {
      var mine := set a | a in index && a.peer == peer;
      if mine == {} {
        r := None;
        assert OfPeer(Anns(), peer) == mine;
      } else {
        ghost var m := LeastExists(PeerBefore, mine);
        var n :| n in mine && forall a :: a in mine ==> !PeerBefore(a, n);
        r := Some(n);
        forall a | a in OfPeer(Anns(), peer) && a != n ensures PeerBefore(n, a) {
          assert a in mine && !a.SameKey(n);
        }
      }
    }

    /** One round of DisconnectedPeer. */
    method DeleteOne(it: Announcement)
      requires Valid() && it in index
      modifies `index, `peerinfo
      ensures Valid()
      ensures Spec.Disconnect(Entries(Anns()), it.peer) == Spec.Disconnect(old(Entries(Anns())), it.peer)
      ensures OfPeer(Anns(), it.peer) == old(OfPeer(Anns(), it.peer)) - {it}
    {
      ghost var A := Anns();
      DisconnectGoesOn(A, it);
      var done := it.(state := Completed);
      var stays := MakeCompleted(it);
      PeerKeepsOthers(A, Anns(), it, done);
      if stays {
        EraseCompleted(done);
      } else {
        EntryAbsent(Anns(), done);
      }
    }

    method EraseCompleted(it: Announcement)
      requires Valid() && it in index && it.state.Completed?
      modifies `index, `peerinfo
      ensures Valid() && Anns() == old(Anns()) - {it} && Entries(Anns()) == old(Entries(Anns())) - {it.Entry()}
    {
      EntriesRemove(Anns(), it);
      Subsets(salt, Anns(), Anns() - {it});
      Spec.RemovingDone(Table(), it.Entry());
      var k :| 0 <= k < |index| && index[k] == it;
      Erase(k);
    }

    method GetRequestable(peer: NodeId, now: Time) returns (ret: seq<InvId>, expired: seq<(NodeId, InvId)>)
      requires Valid()
      modifies `index, `peerinfo
      ensures Valid() && TimedFor(Anns(), now)
      ensures Table() == Spec.Step(old(Table()), Spec.GetRequestable(peer, now))
      ensures Spec.IsAnswer(salt, Table().entries, peer, now, ret)
      ensures ReportsOnce(expired, Spec.Overdue(old(Table()).entries, now))
    {
      Spec.StepEntries(Table(), Spec.GetRequestable(peer, now));
      expired := SetTimePoint(now);
      // The range (peer, best) of the ByPeer index.
      var best := set a | a in index && a.peer == peer && a.state.CandidateBest?;
      NumbersDiffer(Anns(), best, sequence);
      var selected := SortBySequence(best);
      AnswerIsRight(salt, Anns(), peer, now, selected);
      ret := InvIds(selected);
    }

    // ---------- counts ----------

    method CountInFlight(peer: NodeId) returns (n: nat)
      requires Valid()
      ensures n == |set e | e in Table().entries && e.peer == peer && e.phase.InFlight?|
    {
      n := if peer in peerinfo then peerinfo[peer].requested else 0;
      RequestsAgree(Anns(), peer);
      if peer !in peerinfo { InfoNone(Anns(), peer); }
    }

    method CountCandidates(peer: NodeId) returns (n: int)
      requires Valid()
      ensures n == |set e | e in Table().entries && e.peer == peer && e.phase.Candidate?|
    {
      n := if peer in peerinfo then peerinfo[peer].total - peerinfo[peer].requested - peerinfo[peer].completed else 0;
      CandidatesAgree(Anns(), peer);
      if peer !in peerinfo { InfoNone(Anns(), peer); }
    }

    method Perform(c: Spec.Call) returns (answer: seq<InvId>)
      requires Valid()
      modifies this
      ensures Valid() && Table() == Spec.Step(old(Table()), c)
      ensures c.GetRequestable? ==> Spec.IsAnswer(salt, Table().entries, c.peer, c.now, answer)
    {
      answer := [];
      match c
      case ReceivedInv(peer, invid, preferred, reqtime) => ReceivedInv(peer, invid, preferred, reqtime);
      case DisconnectedPeer(peer) => DisconnectedPeer(peer);
      case ForgetInvId(invid) => ForgetInvId(invid);
      case GetRequestable(peer, now) =>
        var expired;
        answer, expired := GetRequestable(peer, now);
      case RequestedData(peer, invid, expiry) => RequestedData(peer, invid, expiry);
      case ReceivedResponse(peer, invid) => ReceivedResponse(peer, invid);
    }
  }

  /** Any calls in any order on a new tracker: the table goes through the run that the header prescribes
    * and every answer is right, so what is proved of runs (NeverOfferedTwice) holds of the class.
    */
  method Run(salt: Salt, cs: seq<Spec.Call>) returns (ghost ts: seq<Spec.Table>, answers: seq<seq<InvId>>)
    ensures Spec.IsRun(ts, cs) && |answers| == |cs|
    ensures forall i :: 0 <= i < |cs| ==> Spec.AnswerAt(salt, ts, cs, answers, i)
  {
    var tracker := new Tracker(salt);
    ts, answers := [tracker.Table()], [];
    for n := 0 to |cs|
      invariant tracker.Valid() && tracker.salt == salt && fresh(tracker)
      invariant |ts| == n + 1 && |answers| == n && ts[0] == Spec.Table({}, 0) && ts[n] == tracker.Table()
      invariant forall i :: 0 <= i < n ==> Spec.StepAt(ts, cs, i) && Spec.AnswerAt(salt, ts, cs, answers, i)
    {
      var answer := tracker.Perform(cs[n]);
      RunGoesOn(salt, ts, cs, answers, tracker.Table(), answer);
      ts, answers := ts + [tracker.Table()], answers + [answer];
    }
  }

  lemma RunGoesOn(salt: Salt, ts: seq<Spec.Table>, cs: seq<Spec.Call>, answers: seq<seq<InvId>>, t: Spec.Table,
                  answer: seq<InvId>)
    requires |ts| == |answers| + 1 && |answers| < |cs|
    requires forall i :: 0 <= i < |answers| ==> Spec.StepAt(ts, cs, i) && Spec.AnswerAt(salt, ts, cs, answers, i)
    requires var n := |answers|;
             t == Spec.Step(ts[n], cs[n])
             && (cs[n].GetRequestable? ==> Spec.IsAnswer(salt, t.entries, cs[n].peer, cs[n].now, answer))
    ensures forall i :: 0 <= i <= |answers| ==>
              Spec.StepAt(ts + [t], cs, i) && Spec.AnswerAt(salt, ts + [t], cs, answers + [answer], i)
  {
    forall i | 0 <= i <= |answers|
      ensures Spec.StepAt(ts + [t], cs, i) && Spec.AnswerAt(salt, ts + [t], cs, answers + [answer], i)
    {
      if i < |answers| { assert Spec.StepAt(ts, cs, i) && Spec.AnswerAt(salt, ts, cs, answers, i); }
    }
  }
}

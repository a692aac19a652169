/** Two of the rules that src/invrequest.h:42-78 gives for requests, over whole runs of the specification. */
module InvRequestRules {
  import opened InvRequestSpec

  // ---------- no request while another one is outstanding ----------

  /** The call that can end a request in flight, or make another one for the same invid. */
  ghost predicate Ends(c: Call, e: Entry)
    requires e.phase.InFlight?
  {
    match c
    case ReceivedInv(_, _, _, _) => false
    case DisconnectedPeer(peer) => peer == e.peer
    case ForgetInvId(invid) => invid == e.invid
    case GetRequestable(_, now) => e.phase.expiry <= now
    case RequestedData(_, invid, _) => invid == e.invid
    case ReceivedResponse(peer, invid) => e.Is(peer, invid)
  }

  lemma PruneKeepsLive(es: set<Entry>, e: Entry)
    requires e in es && !e.phase.Done?
    ensures e in Prune(es)
  {
    assert HasLive(es, e.invid);
  }

  lemma StaysInFlight(t: Table, c: Call, e: Entry)
    requires e in t.entries && e.phase.InFlight? && !Ends(c, e)
    ensures e in Step(t, c).entries
  {
    match c
    case DisconnectedPeer(peer) => PruneKeepsLive((set f | f in t.entries && f.peer != peer), e);
    case GetRequestable(_, now) =>
      assert Expired(e, now) == e;
      PruneKeepsLive((set f | f in t.entries :: Expired(f, now)), e);
    case RequestedData(peer, invid, expiry) =>
      if IsCandidate(t.entries, peer, invid) { assert Requested(e, peer, invid, expiry) == e; }
    case ReceivedResponse(peer, invid) =>
      assert Answered(e, peer, invid) == e;
      PruneKeepsLive((set f | f in t.entries :: Answered(f, peer, invid)), e);
    case _ =>
  }

  lemma {:induction false} StaysThrough(ts: seq<Table>, cs: seq<Call>, e: Entry, i: nat, n: nat)
    requires IsRun(ts, cs) && i <= n <= |cs| && e in ts[i].entries && e.phase.InFlight?
    requires forall k :: i <= k < n ==> !Ends(cs[k], e)
    ensures e in ts[n].entries
    decreases n
  {
    if i < n {
      StaysThrough(ts, cs, e, i, n - 1);
      assert StepAt(ts, cs, n - 1);
      StaysInFlight(ts[n - 1], cs[n - 1], e);
    }
  }

  /** While a request is outstanding nobody is offered its inventory: if at moment i a request is in flight and the call
    * at moment n offers the same invid to anyone, some call in between has ended it: its peer answered or went offline,
    * the invid was forgotten, its time was over, or another peer was asked after all.
    */
  lemma NoneWhileOutstanding(ts: seq<Table>, cs: seq<Call>, salt: Salt, e: Entry, i: nat, n: nat,
                             answers: seq<seq<InvId>>)
    requires IsRun(ts, cs) && i <= n < |cs| == |answers| && e in ts[i].entries && e.phase.InFlight?
    requires cs[n].GetRequestable? && AnswerAt(salt, ts, cs, answers, n) && e.invid in answers[n]
    ensures exists k :: i <= k <= n && Ends(cs[k], e)
  {
    var es := ts[n + 1].entries;
    assert Offered(salt, es, cs[n].peer, cs[n].now, e.invid);
    var o :| o in es && o.Is(cs[n].peer, e.invid) && Requestable(salt, es, o, cs[n].now);
    if forall k :: i <= k <= n ==> !Ends(cs[k], e) { StaysThrough(ts, cs, e, i, n + 1); }
  }

  // ---------- no request before its time ----------

  /** The call at moment k announced the entry. */
  ghost predicate AnnouncedAt(cs: seq<Call>, e: Entry, k: nat)
    requires e.phase.Candidate?
  {
    k < |cs| && cs[k] == ReceivedInv(e.peer, e.invid, e.preferred, e.phase.reqtime)
  }

  lemma CandidateOrigin(t: Table, c: Call, e: Entry)
    requires UniqueKeys(t.entries) && e in Step(t, c).entries && e.phase.Candidate? && e !in t.entries
    ensures c == ReceivedInv(e.peer, e.invid, e.preferred, e.phase.reqtime)
  {
    var f := StepMovesOn(t, c, e);
    var g := StepOrigin(t, c, e);
    if g in t.entries { MovesForward(t, c, g); }
  }

  /** Every candidate was announced, with the time it waits for, and has been tracked since. */
  lemma {:induction false} CandidateWasAnnounced(ts: seq<Table>, cs: seq<Call>, e: Entry, n: nat) returns (k: nat)
    requires IsRun(ts, cs) && n <= |cs| && e in ts[n].entries && e.phase.Candidate?
    ensures k < n && AnnouncedAt(cs, e, k) && forall j :: k < j <= n ==> e in ts[j].entries
    decreases n
  {
    if n == 0 {
      assert false;
    } else {
      assert StepAt(ts, cs, n - 1);
      if e in ts[n - 1].entries {
        k := CandidateWasAnnounced(ts, cs, e, n - 1);
      } else {
        RunKeepsWellFormed(ts, cs, n - 1);
        CandidateOrigin(ts[n - 1], cs[n - 1], e);
        k := n - 1;
      }
    }
  }

  /** Nothing is requested from a peer before its time: whatever the call at moment n offers to a peer was announced by
    * that peer with a time that has passed by then, and not forgotten since.
    */
  lemma NotBeforeReqtime(ts: seq<Table>, cs: seq<Call>, salt: Salt, invid: InvId, n: nat, answers: seq<seq<InvId>>)
    returns (k: nat)
    requires IsRun(ts, cs) && n < |cs| == |answers|
    requires cs[n].GetRequestable? && AnswerAt(salt, ts, cs, answers, n) && invid in answers[n]
    ensures k < n && cs[k].ReceivedInv? && cs[k].peer == cs[n].peer && cs[k].invid == invid
    ensures cs[k].reqtime <= cs[n].now
    ensures TracksThrough(ts, cs[n].peer, invid, k + 1, n)
  {
    var es := ts[n + 1].entries;
    assert Offered(salt, es, cs[n].peer, cs[n].now, invid);
    var e :| e in es && e.Is(cs[n].peer, invid) && Requestable(salt, es, e, cs[n].now);
    k := CandidateWasAnnounced(ts, cs, e, n + 1);
    forall j | k + 1 <= j <= n ensures Tracks(ts[j].entries, cs[n].peer, invid) { assert e in ts[j].entries; }
  }

  // ---------- requests that time out make room ----------

  /** After a time point no request is in flight whose time is over. */
  lemma OverdueEnds(t: Table, peer: NodeId, now: Time, e: Entry)
    requires e in Step(t, GetRequestable(peer, now)).entries
    ensures e.phase.InFlight? ==> e.phase.expiry > now
  {
    var f :| f in t.entries && e == Expired(f, now);
  }

  lemma {:induction false} SomeHighest(salt: Salt, es: set<Entry>) returns (o: Entry)
    requires es != {}
    ensures o in es && forall f :: f in es ==> f.Priority(salt) <= o.Priority(salt)
    decreases |es|
  {
    var x :| x in es;
    o := x;
    if es != {x} {
      var rest := es - {x};
      assert rest != {};
      o := SomeHighest(salt, rest);
      if o.Priority(salt) < x.Priority(salt) { o := x; }
      assert forall f :: f in es ==> f in rest || f == x;
    }
  }

  /** If at a time point some candidate of an invid is ready and every request for it in flight is overdue, then after
    * it some peer should be asked for it.
    */
  lemma SomeoneIsNext(t: Table, salt: Salt, peer: NodeId, now: Time, e: Entry) returns (o: Entry)
    requires e in t.entries && e.ReadyAt(now)
    requires forall f :: f in t.entries && f.invid == e.invid && f.phase.InFlight? ==> f.phase.expiry <= now
    ensures o.invid == e.invid && Requestable(salt, Step(t, GetRequestable(peer, now)).entries, o, now)
  {
    var es := Step(t, GetRequestable(peer, now)).entries;
    assert Expired(e, now) == e;
    PruneKeepsLive((set f | f in t.entries :: Expired(f, now)), e);
    var ready := set f | f in es && f.invid == e.invid && f.ReadyAt(now);
    assert e in ready;
    o := SomeHighest(salt, ready);
    forall f | f in es && f.invid == e.invid ensures !f.phase.InFlight? {
      var g :| g in t.entries && f == Expired(g, now);
    }
  }
}

/** Announcements, the three orders of the tracker's multi-index container, and what the
  * neighbours in the ByInvId order tell (src/invrequest.cpp:42-268, 454-544).
  */
module InvRequestIndex {
  import Spec = InvRequestSpec

  type InvId = Spec.InvId
  type NodeId = Spec.NodeId
  type Time = Spec.Time
  type Salt = Spec.Salt

  datatype State = CandidateDelayed | CandidateReady | CandidateBest | Requested | Completed

  datatype Announcement = Announcement(
    invid: InvId, time: Time, peer: NodeId, sequence: nat, preferred: bool, state: State)
  {
    predicate IsSelected() { state.CandidateBest? || state.Requested? }

    predicate IsWaiting() { state.Requested? || state.CandidateDelayed? }

    predicate IsSelectable() { state.CandidateReady? || state.CandidateBest? }

    predicate SameKey(b: Announcement) { invid == b.invid && peer == b.peer }

    function Priority(salt: Salt): nat { Spec.PriorityOf(salt, invid, peer, preferred) }

    /** The entry of the table that this announcement stands for. */
    function Entry(): Spec.Entry {
      Spec.Entry(peer, invid, preferred, sequence,
        match state
        case Requested => Spec.InFlight(time)
        case Completed => Spec.Done
        case _ => Spec.Candidate(time))
    }
  }

  function Rank(s: State): nat {
    match s
    case CandidateDelayed => 0
    case CandidateReady => 1
    case CandidateBest => 2
    case Requested => 3
    case Completed => 4
  }

  // ---------- ByInvId: (invid, state, priority of ready ones) ----------

  function ViewPriority(salt: Salt, a: Announcement): nat {
    if a.state.CandidateReady? then a.Priority(salt) else 0
  }

  predicate Before(salt: Salt, a: Announcement, b: Announcement) {
    || a.invid < b.invid
    || (a.invid == b.invid &&
        (|| Rank(a.state) < Rank(b.state)
         || (a.state == b.state && ViewPriority(salt, a) < ViewPriority(salt, b))))
  }

  ghost predicate Sorted(salt: Salt, s: seq<Announcement>) {
    forall i, j :: 0 <= i < j < |s| ==> !Before(salt, s[j], s[i])
  }

  predicate FitsAt(salt: Salt, s: seq<Announcement>, k: nat, a: Announcement) {
    && k <= |s|
    && (forall i :: 0 <= i < k ==> !Before(salt, a, s[i]))
    && (forall i :: k <= i < |s| ==> !Before(salt, s[i], a))
  }

  lemma {:induction false} SomewhereFits(salt: Salt, s: seq<Announcement>, a: Announcement) returns (k: nat)
    requires Sorted(salt, s)
    ensures FitsAt(salt, s, k, a)
  {
    if s == [] || !Before(salt, a, s[|s| - 1]) {
      k := |s|;
    } else {
      k := SomewhereFits(salt, s[..|s| - 1], a);
    }
  }

  // ---------- ByTime: (wait state, time);  ByPeer: (peer, is best, invid) ----------

  function WaitRank(a: Announcement): nat {
    if a.IsWaiting() then 0 else if a.IsSelectable() then 2 else 1
  }

  predicate TimeBefore(a: Announcement, b: Announcement) {
    WaitRank(a) < WaitRank(b) || (WaitRank(a) == WaitRank(b) && a.time < b.time)
  }

  predicate TimeAfter(a: Announcement, b: Announcement) { TimeBefore(b, a) }

  predicate PeerBefore(a: Announcement, b: Announcement) {
    || a.peer < b.peer
    || (a.peer == b.peer &&
        (|| (!a.state.CandidateBest? && b.state.CandidateBest?)
         || (a.state.CandidateBest? == b.state.CandidateBest? && a.invid < b.invid)))
  }

  ghost predicate IsOrder(less: (Announcement, Announcement) -> bool) {
    && (forall a, b :: less(a, b) ==> !less(b, a))
    && (forall a, b, c :: less(a, c) ==> less(a, b) || less(b, c))
  }

  lemma {:induction false} LeastExists(less: (Announcement, Announcement) -> bool, c: set<Announcement>)
    returns (m: Announcement)
    requires c != {} && IsOrder(less)
    ensures m in c && forall a :: a in c ==> !less(a, m)
    decreases |c|
  {
    var x :| x in c;
    m := x;
    assert !less(x, x);
    if c - {x} != {} {
      var n := LeastExists(less, c - {x});
      if less(n, x) { m := n; }
      assert forall a :: a in c ==> a == x || a in c - {x};
    }
  }

  // ---------- contents ----------

  ghost function Contents(s: seq<Announcement>): set<Announcement> { set a | a in s }

  ghost predicate UniqueKeys(A: set<Announcement>) {
    forall a, b :: a in A && b in A && a.SameKey(b) ==> a == b
  }

  lemma KeysKept(A: set<Announcement>, a: Announcement, b: Announcement)
    requires UniqueKeys(A) && a in A && a.SameKey(b)
    ensures UniqueKeys(A - {a} + {b})
  {
  }

  ghost predicate Distinct(s: seq<Announcement>) {
    forall i, j :: 0 <= i < j < |s| ==> s[i] != s[j]
  }

  ghost function Entries(A: set<Announcement>): set<Spec.Entry> {
    set a | a in A :: a.Entry()
  }

  lemma EntriesReplace(A: set<Announcement>, a: Announcement, b: Announcement)
    requires UniqueKeys(A) && a in A && a.SameKey(b)
    ensures Entries(A - {a} + {b}) == Entries(A) - {a.Entry()} + {b.Entry()}
  {
    var A' := A - {a} + {b};
    forall x ensures x in Entries(A') <==> x in Entries(A) - {a.Entry()} + {b.Entry()} {
      if x in Entries(A') {
        var c :| c in A' && x == c.Entry();
      }
      if x in Entries(A) - {a.Entry()} {
        var c :| c in A && x == c.Entry();
        assert c in A';
      }
      assert b in A';
    }
  }

  /** Moving an announcement between the three candidate states is invisible in the table. */
  lemma EntriesSame(A: set<Announcement>, a: Announcement, b: Announcement)
    requires UniqueKeys(A) && a in A && a.Entry() == b.Entry()
    ensures Entries(A - {a} + {b}) == Entries(A)
    ensures UniqueKeys(A - {a} + {b})
  {
    EntriesReplace(A, a, b);
    assert a.Entry() in Entries(A);
  }

  lemma EntriesRemove(A: set<Announcement>, a: Announcement)
    requires UniqueKeys(A) && a in A
    ensures Entries(A - {a}) == Entries(A) - {a.Entry()}
  {
    forall x ensures x in Entries(A - {a}) <==> x in Entries(A) - {a.Entry()} {
      if x in Entries(A) - {a.Entry()} {
        var c :| c in A && x == c.Entry();
        assert c in A - {a};
      }
      if x in Entries(A - {a}) {
        var c :| c in A - {a} && x == c.Entry();
      }
    }
  }

  ghost function Dropping(A: set<Announcement>, invid: InvId): set<Announcement> {
    set a | a in A && a.invid != invid
  }

  lemma DroppingReplaced(A: set<Announcement>, a: Announcement, b: Announcement)
    requires a.invid == b.invid
    ensures Dropping(A - {a} + {b}, a.invid) == Dropping(A, a.invid)
  {
  }

  lemma DroppingTwice(A: set<Announcement>, invid: InvId)
    ensures Dropping(Dropping(A, invid), invid) == Dropping(A, invid)
  {
  }

  lemma EntriesForget(A: set<Announcement>, invid: InvId)
    ensures Entries(Dropping(A, invid)) == Spec.Forget(Entries(A), invid)
  {
    var A' := Dropping(A, invid);
    forall x ensures x in Entries(A') <==> x in Spec.Forget(Entries(A), invid) {
      if x in Spec.Forget(Entries(A), invid) {
        var c :| c in A && x == c.Entry();
        assert c in A';
      }
    }
  }

  // ---------- the choice among the candidates of one invid ----------

  ghost predicate OneSelected(A: set<Announcement>) {
    forall a, b :: a in A && b in A && a.invid == b.invid && a.IsSelected() && b.IsSelected() ==> a == b
  }

  ghost predicate HasSelected(A: set<Announcement>, invid: InvId) {
    exists a :: a in A && a.invid == invid && a.IsSelected()
  }

  ghost predicate ReadyHasSelected(A: set<Announcement>) {
    forall a :: a in A && a.state.CandidateReady? ==> HasSelected(A, a.invid)
  }

  ghost predicate BestIsBest(salt: Salt, A: set<Announcement>) {
    forall a, b :: a in A && b in A && a.invid == b.invid && a.state.CandidateBest? && b.state.CandidateReady?
      ==> b.Priority(salt) <= a.Priority(salt)
  }

  ghost predicate Choice(salt: Salt, A: set<Announcement>) {
    OneSelected(A) && ReadyHasSelected(A) && BestIsBest(salt, A)
  }

  /** p's priority is at least that of every ready announcement of its invid. */
  ghost predicate TopReady(salt: Salt, A: set<Announcement>, p: Announcement) {
    forall b :: b in A && b.invid == p.invid && b.state.CandidateReady? ==> b.Priority(salt) <= p.Priority(salt)
  }

  ghost predicate NoReady(A: set<Announcement>, invid: InvId) {
    forall b :: b in A && b.invid == invid ==> !b.state.CandidateReady?
  }

  // ---------- what the neighbours tell ----------

  /** The best ready announcement, if any, immediately precedes the selected one. */
  lemma PrevIsTopReady(salt: Salt, s: seq<Announcement>, i: nat)
    requires Sorted(salt, s) && OneSelected(Contents(s)) && Distinct(s)
    requires i < |s| && s[i].IsSelected()
    ensures if i > 0 && s[i - 1].invid == s[i].invid && s[i - 1].state.CandidateReady?
            then TopReady(salt, Contents(s), s[i - 1])
            else NoReady(Contents(s), s[i].invid)
  {
    forall b | b in Contents(s) && b.invid == s[i].invid && b.state.CandidateReady?
      ensures i > 0 && s[i - 1].invid == s[i].invid && s[i - 1].state.CandidateReady?
      ensures b.Priority(salt) <= s[i - 1].Priority(salt)
    {
      var k :| 0 <= k < |s| && s[k] == b;
      assert k < i;
      assert s[i - 1] in Contents(s) && s[i] in Contents(s);
    }
  }

  /** A selected announcement of the invid, if any, comes after a ready one; if the successor is not of the
    * invid or is completed there is none, and the ready one is the best.
    */
  lemma NextTells(salt: Salt, s: seq<Announcement>, i: nat)
    requires Sorted(salt, s)
    requires i < |s| && s[i].state.CandidateReady?
    ensures (i + 1 == |s| || s[i + 1].invid != s[i].invid || s[i + 1].state.Completed?) ==>
              !HasSelected(Contents(s), s[i].invid)
    ensures (i + 1 < |s| && s[i + 1].invid == s[i].invid) ==>
              !s[i + 1].state.CandidateDelayed?
              && (s[i + 1].state.CandidateReady? ==> s[i].Priority(salt) <= s[i + 1].Priority(salt))
    ensures (i + 1 == |s| || s[i + 1].invid != s[i].invid || !s[i + 1].state.CandidateReady?) ==>
              TopReady(salt, Contents(s), s[i])
  {
    if i + 1 < |s| { assert !Before(salt, s[i + 1], s[i]); }
    if i + 1 == |s| || s[i + 1].invid != s[i].invid || s[i + 1].state.Completed? {
      forall b | b in Contents(s) && b.invid == s[i].invid ensures !b.IsSelected() {
        var k :| 0 <= k < |s| && s[k] == b;
      }
    }
    if i + 1 == |s| || s[i + 1].invid != s[i].invid || !s[i + 1].state.CandidateReady? {
      forall b | b in Contents(s) && b.invid == s[i].invid && b.state.CandidateReady?
        ensures b.Priority(salt) <= s[i].Priority(salt)
      {
        var k :| 0 <= k < |s| && s[k] == b;
      }
    }
  }

  predicate NeighboursSayOnly(s: seq<Announcement>, i: nat)
    requires i < |s|
  {
    && !(i > 0 && s[i - 1].invid == s[i].invid)
    && !(i + 1 < |s| && s[i + 1].invid == s[i].invid && !s[i + 1].state.Completed?)
  }

  ghost predicate OnlyNonCompleted(A: set<Announcement>, a: Announcement) {
    forall b :: b in A && b.invid == a.invid && b != a ==> b.state.Completed?
  }

  /** The two neighbours decide whether any other announcement of the invid is not completed. */
  lemma NeighboursTellOnly(salt: Salt, s: seq<Announcement>, i: nat)
    requires Sorted(salt, s) && Distinct(s)
    requires i < |s| && !s[i].state.Completed?
    ensures NeighboursSayOnly(s, i) <==> OnlyNonCompleted(Contents(s), s[i])
    ensures NeighboursSayOnly(s, i) ==> forall k :: 0 <= k < i ==> s[k].invid != s[i].invid
  {
    if i > 0 {
      assert !Before(salt, s[i], s[i - 1]);
      assert s[i - 1] in Contents(s);
    }
    if i + 1 < |s| { assert s[i + 1] in Contents(s); }
    if NeighboursSayOnly(s, i) {
      forall k | 0 <= k < |s| && s[k].invid == s[i].invid && k != i ensures k > i && s[k].state.Completed? {
      }
    }
  }

  // ---------- changes that keep the choice ----------

  /** A candidate becomes ready while nothing of its invid is selected. */
  lemma BecomesOnlyBest(salt: Salt, A: set<Announcement>, d: Announcement)
    requires Choice(salt, A) && d in A && d.state.CandidateDelayed? && !HasSelected(A, d.invid)
    ensures Choice(salt, A - {d} + {d.(state := CandidateBest)})
  {
    var A' := A - {d} + {d.(state := CandidateBest)};
    forall a | a in A' && a.state.CandidateReady? ensures HasSelected(A', a.invid) {
      var b :| b in A && b.invid == a.invid && b.IsSelected();
      assert b in A';
    }
  }

  /** A candidate becomes ready and beats the best one. */
  lemma BecomesNewBest(salt: Salt, A: set<Announcement>, d: Announcement, o: Announcement)
    requires Choice(salt, A) && UniqueKeys(A)
    requires d in A && d.state.CandidateDelayed? && o in A && o.invid == d.invid && o.state.CandidateBest?
    requires o.Priority(salt) < d.Priority(salt) && TopReady(salt, A, d)
    ensures Choice(salt, A - {d} + {d.(state := CandidateBest)} - {o} + {o.(state := CandidateReady)})
  {
    var d', o' := d.(state := CandidateBest), o.(state := CandidateReady);
    var A' := A - {d} + {d'} - {o} + {o'};
    assert d' in A' && d' != o;
    assert forall x :: x in A' ==> x == d' || x == o' || (x in A && x != d && x != o);
    assert forall x :: x in A' && x.invid == d.invid && x.IsSelected() ==> x == d';
    forall a | a in A' && a.state.CandidateReady? ensures HasSelected(A', a.invid) {
      if a.invid != d.invid {
        var b :| b in A && b.invid == a.invid && b.IsSelected();
        assert b in A';
      }
    }
  }

  /** A candidate becomes ready beside a request or a best one of at least its priority. */
  lemma BecomesReady(salt: Salt, A: set<Announcement>, d: Announcement, b: Announcement)
    requires Choice(salt, A) && d in A && d.state.CandidateDelayed?
    requires b in A && b.invid == d.invid && b.IsSelected()
    requires b.state.CandidateBest? ==> d.Priority(salt) <= b.Priority(salt)
    ensures Choice(salt, A - {d} + {d.(state := CandidateReady)})
  {
    var A' := A - {d} + {d.(state := CandidateReady)};
    assert b in A';
    forall a | a in A' && a.state.CandidateReady? ensures HasSelected(A', a.invid) {
      if a.invid != d.invid {
        var c :| c in A && c.invid == a.invid && c.IsSelected();
        assert c in A';
      }
    }
  }

  /** The selected announcement goes and the best ready one takes its place. */
  lemma Reselects(salt: Salt, A: set<Announcement>, a: Announcement, p: Announcement, state: State)
    requires Choice(salt, A) && UniqueKeys(A)
    requires a in A && a.IsSelected() && p in A && p.invid == a.invid && p.state.CandidateReady? && TopReady(salt, A, p)
    requires state.Completed? || state.CandidateDelayed?
    ensures Choice(salt, A - {p} + {p.(state := CandidateBest)} - {a} + {a.(state := state)})
  {
    var A' := A - {p} + {p.(state := CandidateBest)} - {a} + {a.(state := state)};
    assert p.(state := CandidateBest) in A';
    forall b | b in A' && b.state.CandidateReady? ensures HasSelected(A', b.invid) {
      if b.invid != a.invid {
        var c :| c in A && c.invid == b.invid && c.IsSelected();
        assert c in A';
      }
    }
  }

  /** An announcement that no ready one depends on stops being a choice. */
  lemma StepsBack(salt: Salt, A: set<Announcement>, a: Announcement, state: State)
    requires Choice(salt, A) && a in A && (a.IsSelected() ==> NoReady(A, a.invid))
    requires state.Completed? || state.CandidateDelayed?
    ensures Choice(salt, A - {a} + {a.(state := state)})
  {
    var A' := A - {a} + {a.(state := state)};
    forall b | b in A' && b.state.CandidateReady? ensures HasSelected(A', b.invid) {
      var c :| c in A && c.invid == b.invid && c.IsSelected();
      assert c in A';
    }
  }

  lemma Subsets(salt: Salt, A: set<Announcement>, A': set<Announcement>)
    requires Choice(salt, A) && A' <= A
    requires forall a, b :: a in A && b in A && a.invid == b.invid && b in A' && a !in A' ==> a.state.Completed?
    ensures Choice(salt, A')
  {
    forall b | b in A' && b.state.CandidateReady? ensures HasSelected(A', b.invid) {
      var c :| c in A && c.invid == b.invid && c.IsSelected();
      assert c in A';
    }
  }

  // ---------- promotion and reselection, from the neighbours to the choice ----------

  /** Nothing new waits for the clock, and a does not any more. */
  ghost predicate NoLongerWaits(A: set<Announcement>, A': set<Announcement>, a: Announcement) {
    forall b :: b in A' && b.IsWaiting() ==> b in A && b != a
  }

  lemma PromotedAlone(salt: Salt, A: set<Announcement>, d: Announcement)
    requires Choice(salt, A) && UniqueKeys(A) && d in A && d.state.CandidateDelayed?
    requires !HasSelected(A - {d} + {d.(state := CandidateReady)}, d.invid)
    ensures var A' := A - {d} + {d.(state := CandidateReady)} - {d.(state := CandidateReady)}
            + {d.(state := CandidateBest)};
            Choice(salt, A') && Entries(A') == Entries(A) && NoLongerWaits(A, A', d)
  {
    var r, b := d.(state := CandidateReady), d.(state := CandidateBest);
    var A1 := A - {d} + {r};
    assert forall x :: x in A && x.invid == d.invid && x.IsSelected() ==> x in A1;
    BecomesOnlyBest(salt, A, d);
    assert r !in A && A1 - {r} + {b} == A - {d} + {b};
    EntriesSame(A, d, b);
  }

  lemma PromotedOver(salt: Salt, A: set<Announcement>, d: Announcement, o: Announcement)
    requires Choice(salt, A) && UniqueKeys(A) && d in A && d.state.CandidateDelayed?
    requires o in A - {d} + {d.(state := CandidateReady)} && o.invid == d.invid && o.state.CandidateBest?
    requires o.Priority(salt) < d.Priority(salt)
    requires TopReady(salt, A - {d} + {d.(state := CandidateReady)}, d.(state := CandidateReady))
    ensures var r, b := d.(state := CandidateReady), d.(state := CandidateBest);
            var A' := A - {d} + {r} - {o} + {o.(state := CandidateReady)} - {r} + {b};
            Choice(salt, A') && Entries(A') == Entries(A) && NoLongerWaits(A, A', d)
  {
    var r, b, o' := d.(state := CandidateReady), d.(state := CandidateBest), o.(state := CandidateReady);
    assert o in A && o != d && r !in A && o' != r;
    BecomesNewBest(salt, A, d, o);
    EntriesSame(A, d, b);
    EntriesSame(A - {d} + {b}, o, o');
    assert A - {d} + {r} - {o} + {o'} - {r} + {b} == A - {d} + {b} - {o} + {o'};
  }

  lemma PromotedBelow(salt: Salt, A: set<Announcement>, d: Announcement, n: Announcement)
    requires Choice(salt, A) && UniqueKeys(A) && d in A && d.state.CandidateDelayed?
    requires n in A - {d} + {d.(state := CandidateReady)} && n.invid == d.invid && n != d.(state := CandidateReady)
    requires n.state.Requested? || (n.IsSelectable() && d.Priority(salt) <= n.Priority(salt))
    ensures var A' := A - {d} + {d.(state := CandidateReady)};
            Choice(salt, A') && Entries(A') == Entries(A) && NoLongerWaits(A, A', d)
  {
    var r := d.(state := CandidateReady);
    assert n in A && r !in A;
    var b := n;
    if n.state.CandidateReady? {
      b :| b in A && b.invid == n.invid && b.IsSelected();
    }
    BecomesReady(salt, A, d, b);
    EntriesSame(A, d, r);
  }

  /** What is left selectable was selectable before, and a is not among it. */
  ghost predicate NoLongerSelectable(A: set<Announcement>, A': set<Announcement>, a: Announcement) {
    forall b :: b in A' && b.IsSelectable() ==>
      !b.SameKey(a) && exists c :: c in A && c.SameKey(b) && c.IsSelectable() && c.time == b.time
  }

  lemma LeavesAndReselects(salt: Salt, A: set<Announcement>, a: Announcement, p: Announcement, state: State)
    requires Choice(salt, A) && UniqueKeys(A)
    requires a in A && a.IsSelected() && p in A && p.invid == a.invid && p.state.CandidateReady? && TopReady(salt, A, p)
    requires state.Completed? || (state.CandidateDelayed? && a.state.CandidateBest?)
    ensures var A' := A - {p} + {p.(state := CandidateBest)} - {a} + {a.(state := state)};
            && Choice(salt, A') && Entries(A') == Entries(A) - {a.Entry()} + {a.(state := state).Entry()}
            && UniqueKeys(A')
  {
    var p' := p.(state := CandidateBest);
    var a' := a.(state := state);
    Reselects(salt, A, a, p, state);
    EntriesSame(A, p, p');
    EntriesReplace(A - {p} + {p'}, a, a');
    KeysKept(A - {p} + {p'}, a, a');
  }

  lemma ReselectLeavesRest(A: set<Announcement>, a: Announcement, p: Announcement, state: State)
    requires UniqueKeys(A) && a in A && a.IsSelected() && p in A && p.invid == a.invid && p.state.CandidateReady?
    requires state.Completed? || (state.CandidateDelayed? && a.state.CandidateBest?)
    ensures var A' := A - {p} + {p.(state := CandidateBest)} - {a} + {a.(state := state)};
            && NoLongerSelectable(A, A', a) && Dropping(A', a.invid) == Dropping(A, a.invid)
            && (if state.Completed? then NoLongerWaits(A, A', a) else NoLongerWaits(A, A' - {a.(state := state)}, a))
  {
    var p' := p.(state := CandidateBest);
    DroppingReplaced(A, p, p');
    DroppingReplaced(A - {p} + {p'}, a, a.(state := state));
    var A' := A - {p} + {p'} - {a} + {a.(state := state)};
    forall b | b in A' && b.IsSelectable()
      ensures !b.SameKey(a) && exists c :: c in A && c.SameKey(b) && c.IsSelectable() && c.time == b.time
    {
      var c := if b == p' then p else b;
      assert c in A && c.SameKey(b);
    }
  }

  lemma Leaves(salt: Salt, A: set<Announcement>, a: Announcement, state: State)
    requires Choice(salt, A) && UniqueKeys(A)
    requires a in A && (a.IsSelected() ==> NoReady(A, a.invid))
    requires state.Completed? || (state.CandidateDelayed? && a.IsSelectable())
    ensures var A' := A - {a} + {a.(state := state)};
            && Choice(salt, A') && Entries(A') == Entries(A) - {a.Entry()} + {a.(state := state).Entry()}
  {
    StepsBack(salt, A, a, state);
    EntriesReplace(A, a, a.(state := state));
  }

  lemma LeavesRest(A: set<Announcement>, a: Announcement, state: State)
    requires UniqueKeys(A) && a in A && (state.Completed? || (state.CandidateDelayed? && a.IsSelectable()))
    ensures var A' := A - {a} + {a.(state := state)};
            && NoLongerSelectable(A, A', a) && Dropping(A', a.invid) == Dropping(A, a.invid)
            && (if state.Completed? then NoLongerWaits(A, A', a) else NoLongerWaits(A, A' - {a.(state := state)}, a))
  {
    var A' := A - {a} + {a.(state := state)};
    DroppingReplaced(A, a, a.(state := state));
    forall b | b in A' && b.IsSelectable()
      ensures !b.SameKey(a) && exists c :: c in A && c.SameKey(b) && c.IsSelectable() && c.time == b.time
    {
      assert b in A && b.SameKey(b);
    }
  }

  // ---------- completing an announcement is the table's response ----------

  lemma CompletedStays(A: set<Announcement>, a: Announcement)
    requires a in A && a.state.Completed? && Spec.UniqueKeys(Entries(A)) && Spec.NoDeadInv(Entries(A))
    ensures Spec.Respond(Entries(A), a.peer, a.invid) == Entries(A)
  {
    assert a.Entry() in Entries(A);
    Spec.RespondToDone(Entries(A), a.Entry());
  }

  lemma LastOneForgets(salt: Salt, A: set<Announcement>, a: Announcement)
    requires Choice(salt, A) && Spec.UniqueKeys(Entries(A)) && Spec.NoDeadInv(Entries(A))
    requires a in A && OnlyNonCompleted(A, a)
    ensures var A' := Dropping(A, a.invid);
            Choice(salt, A') && Entries(A') == Spec.Respond(Entries(A), a.peer, a.invid)
  {
    var A' := Dropping(A, a.invid);
    Subsets(salt, A, A');
    EntriesForget(A, a.invid);
    assert a.Entry() in Entries(A);
    Spec.RespondForgets(Entries(A), a.Entry());
  }

  lemma OthersKeep(A: set<Announcement>, a: Announcement)
    requires UniqueKeys(A) && Spec.UniqueKeys(Entries(A)) && Spec.NoDeadInv(Entries(A))
    requires a in A && !OnlyNonCompleted(A, a)
    ensures Spec.Respond(Entries(A), a.peer, a.invid) == Entries(A) - {a.Entry()} + {a.(state := Completed).Entry()}
  {
    var b :| b in A && b.invid == a.invid && b != a && !b.state.Completed?;
    assert a.Entry() in Entries(A) && b.Entry() in Entries(A);
    Spec.RespondKeeps(Entries(A), a.Entry(), b.Entry());
  }

  // ---------- announcing and requesting ----------

  lemma AddedDelayed(salt: Salt, A: set<Announcement>, a: Announcement)
    requires Choice(salt, A) && UniqueKeys(A) && a.state.CandidateDelayed? && forall b :: b in A ==> !b.SameKey(a)
    ensures Choice(salt, A + {a}) && UniqueKeys(A + {a}) && Entries(A + {a}) == Entries(A) + {a.Entry()}
  {
    forall b | b in A + {a} && b.state.CandidateReady? ensures HasSelected(A + {a}, b.invid) {
      var c :| c in A && c.invid == b.invid && c.IsSelected();
      assert c in A + {a};
    }
    forall x ensures x in Entries(A + {a}) <==> x in Entries(A) + {a.Entry()} {
      if x in Entries(A) { var b :| b in A && x == b.Entry(); assert b in A + {a}; }
      assert a in A + {a};
    }
  }

  /** The choice is in order except that the invid of a has nothing selected besides, possibly, a. */
  ghost predicate Vacant(salt: Salt, A: set<Announcement>, a: Announcement) {
    && OneSelected(A)
    && BestIsBest(salt, A)
    && (forall b :: b in A && b.state.CandidateReady? && b.invid != a.invid ==> HasSelected(A, b.invid))
    && (forall b :: b in A && b.invid == a.invid && b.IsSelected() ==> b == a)
  }

  /** The announcement that a request goes to becomes the selected one of its invid. */
  lemma Requesting(salt: Salt, A: set<Announcement>, a: Announcement, expiry: Time)
    requires UniqueKeys(A) && a in A && Vacant(salt, A, a)
    ensures Choice(salt, A - {a} + {a.(state := Requested, time := expiry)})
  {
    var a' := a.(state := Requested, time := expiry);
    var A' := A - {a} + {a'};
    assert a' in A';
    forall b | b in A' && b.state.CandidateReady? ensures HasSelected(A', b.invid) {
      if b.invid != a.invid {
        var c :| c in A && c.invid == b.invid && c.IsSelected();
        assert c in A';
      }
    }
  }

  lemma GivesWay(salt: Salt, A: set<Announcement>, a: Announcement, o: Announcement, state: State)
    requires Choice(salt, A) && UniqueKeys(A) && a in A && !a.IsSelected()
    requires o in A && o.invid == a.invid && o.IsSelected() && (state.CandidateReady? || state.Completed?)
    ensures var B := A - {o} + {o.(state := state)};
            UniqueKeys(B) && Vacant(salt, B, a) && a in B
  {
    var B := A - {o} + {o.(state := state)};
    forall b | b in B && b.state.CandidateReady? && b.invid != a.invid ensures HasSelected(B, b.invid) {
      var c :| c in A && c.invid == b.invid && c.IsSelected();
      assert c in B;
    }
  }

  /** No other selected announcement is in the way. */
  lemma RequestedAlone(salt: Salt, A: set<Announcement>, a: Announcement, expiry: Time)
    requires Choice(salt, A) && UniqueKeys(A) && a in A && (a.state.CandidateDelayed? || a.IsSelectable())
    requires forall b :: b in A && b.invid == a.invid && b.IsSelected() ==> b == a
    requires Spec.UniqueKeys(Entries(A))
    ensures var A' := A - {a} + {a.(state := Requested, time := expiry)};
            Choice(salt, A') && Entries(A') == Spec.Request(Entries(A), a.peer, a.invid, expiry)
  {
    var a' := a.(state := Requested, time := expiry);
    Requesting(salt, A, a, expiry);
    EntriesReplace(A, a, a');
    assert a.Entry() in Entries(A);
    Spec.RequestAlone(Entries(A), a.Entry(), expiry);
  }

  /** The best announcement gives way and is ready again. */
  lemma RequestedOverBest(salt: Salt, A: set<Announcement>, a: Announcement, o: Announcement, expiry: Time)
    requires Choice(salt, A) && UniqueKeys(A) && a in A && (a.state.CandidateDelayed? || a.state.CandidateReady?)
    requires o in A && o.invid == a.invid && o.state.CandidateBest? && Spec.UniqueKeys(Entries(A))
    ensures var A' := A - {o} + {o.(state := CandidateReady)} - {a} + {a.(state := Requested, time := expiry)};
            Choice(salt, A') && Entries(A') == Spec.Request(Entries(A), a.peer, a.invid, expiry)
  {
    var B := A - {o} + {o.(state := CandidateReady)};
    GivesWay(salt, A, a, o, CandidateReady);
    Requesting(salt, B, a, expiry);
    EntriesOverBest(A, a, o, expiry);
  }

  lemma EntriesOverBest(A: set<Announcement>, a: Announcement, o: Announcement, expiry: Time)
    requires OneSelected(A) && UniqueKeys(A) && a in A && (a.state.CandidateDelayed? || a.state.CandidateReady?)
    requires o in A && o.invid == a.invid && o.state.CandidateBest? && Spec.UniqueKeys(Entries(A))
    ensures Entries(A - {o} + {o.(state := CandidateReady)} - {a} + {a.(state := Requested, time := expiry)})
            == Spec.Request(Entries(A), a.peer, a.invid, expiry)
  {
    EntriesSame(A, o, o.(state := CandidateReady));
    EntriesReplace(A - {o} + {o.(state := CandidateReady)}, a, a.(state := Requested, time := expiry));
    assert a.Entry() in Entries(A);
    forall f | f in Entries(A) && f.invid == a.invid ensures !f.phase.InFlight? {
      var b :| b in A && f == b.Entry();
    }
    Spec.RequestAlone(Entries(A), a.Entry(), expiry);
  }

  /** The outstanding request is given up. */
  lemma RequestedOverRequest(salt: Salt, A: set<Announcement>, a: Announcement, o: Announcement, expiry: Time)
    requires Choice(salt, A) && UniqueKeys(A) && a in A && (a.state.CandidateDelayed? || a.state.CandidateReady?)
    requires o in A && o.invid == a.invid && o.state.Requested?
    requires Spec.UniqueKeys(Entries(A)) && Spec.OneInFlight(Entries(A))
    ensures var A' := A - {o} + {o.(state := Completed)} - {a} + {a.(state := Requested, time := expiry)};
            Choice(salt, A') && Entries(A') == Spec.Request(Entries(A), a.peer, a.invid, expiry)
  {
    var B := A - {o} + {o.(state := Completed)};
    GivesWay(salt, A, a, o, Completed);
    Requesting(salt, B, a, expiry);
    EntriesOverRequest(A, a, o, expiry);
  }

  lemma EntriesOverRequest(A: set<Announcement>, a: Announcement, o: Announcement, expiry: Time)
    requires UniqueKeys(A) && a in A && (a.state.CandidateDelayed? || a.state.CandidateReady?)
    requires o in A && o.invid == a.invid && o.state.Requested?
    requires Spec.UniqueKeys(Entries(A)) && Spec.OneInFlight(Entries(A))
    ensures Entries(A - {o} + {o.(state := Completed)} - {a} + {a.(state := Requested, time := expiry)})
            == Spec.Request(Entries(A), a.peer, a.invid, expiry)
  {
    var B := A - {o} + {o.(state := Completed)};
    EntriesReplace(A, o, o.(state := Completed));
    assert a in B && UniqueKeys(B);
    EntriesReplace(B, a, a.(state := Requested, time := expiry));
    assert a.Entry() in Entries(A) && o.Entry() in Entries(A);
    Spec.RequestReplaces(Entries(A), a.Entry(), o.Entry(), expiry);
  }

  /** Position of the first announcement of the invid whose state is at least the given one. */
  ghost predicate IsLowerBound(s: seq<Announcement>, invid: InvId, rank: nat, k: nat) {
    && k <= |s|
    && (forall i :: 0 <= i < k ==> s[i].invid < invid || (s[i].invid == invid && Rank(s[i].state) < rank))
    && (forall i :: k <= i < |s| ==> invid < s[i].invid || (s[i].invid == invid && rank <= Rank(s[i].state)))
  }

  /** Looking up (invid, best) finds the selected announcement of the invid if there is one. */
  lemma LowerBoundFindsSelected(salt: Salt, s: seq<Announcement>, invid: InvId, k: nat)
    requires Sorted(salt, s) && Distinct(s) && OneSelected(Contents(s))
             && IsLowerBound(s, invid, Rank(CandidateBest), k)
    ensures if k < |s| && s[k].invid == invid && s[k].IsSelected()
            then forall b :: b in Contents(s) && b.invid == invid && b.IsSelected() ==> b == s[k]
            else forall b :: b in Contents(s) && b.invid == invid ==> !b.IsSelected()
  {
    if k < |s| { assert s[k] in Contents(s); }
    forall b | b in Contents(s) && b.invid == invid && b.IsSelected()
      ensures k < |s| && s[k].invid == invid && s[k].IsSelected()
    {
      var i :| 0 <= i < |s| && s[i] == b;
      assert i >= k;
    }
  }

  // ---------- per-peer counters ----------

  datatype PeerInfo = PeerInfo(total: nat, completed: nat, requested: nat)

  ghost function OfPeer(A: set<Announcement>, p: NodeId): set<Announcement> {
    set a | a in A && a.peer == p
  }

  ghost function Completes(A: set<Announcement>, p: NodeId): set<Announcement> {
    set a | a in A && a.peer == p && a.state.Completed?
  }

  ghost function Requests(A: set<Announcement>, p: NodeId): set<Announcement> {
    set a | a in A && a.peer == p && a.state.Requested?
  }

  ghost function Info(A: set<Announcement>, p: NodeId): PeerInfo {
    PeerInfo(|OfPeer(A, p)|, |Completes(A, p)|, |Requests(A, p)|)
  }

  /** The counters equal a recount, and only peers with announcements have counters. */
  ghost predicate Counted(info: map<NodeId, PeerInfo>, A: set<Announcement>) {
    && (forall p :: p in info <==> Info(A, p).total > 0)
    && (forall p :: p in info ==> info[p] == Info(A, p))
  }

  function Bit(b: bool): nat { if b then 1 else 0 }

  lemma InfoWith(A: set<Announcement>, a: Announcement, p: NodeId)
    requires a !in A
    ensures var i := Info(A, p);
            Info(A + {a}, p) == if p != a.peer then i
                                else PeerInfo(i.total + 1, i.completed + Bit(a.state.Completed?),
                                              i.requested + Bit(a.state.Requested?))
  {
    if p == a.peer {
      OwnWith(A, a);
    } else {
      var A' := A + {a};
      assert OfPeer(A', p) == OfPeer(A, p) && Completes(A', p) == Completes(A, p) && Requests(A', p) == Requests(A, p);
    }
  }

  lemma OwnWith(A: set<Announcement>, a: Announcement)
    requires a !in A
    ensures |OfPeer(A + {a}, a.peer)| == |OfPeer(A, a.peer)| + 1
    ensures |Completes(A + {a}, a.peer)| == |Completes(A, a.peer)| + Bit(a.state.Completed?)
    ensures |Requests(A + {a}, a.peer)| == |Requests(A, a.peer)| + Bit(a.state.Requested?)
  {
    var A', p := A + {a}, a.peer;
    assert OfPeer(A', p) == OfPeer(A, p) + {a};
    assert Completes(A', p) == if a.state.Completed? then Completes(A, p) + {a} else Completes(A, p);
    assert Requests(A', p) == if a.state.Requested? then Requests(A, p) + {a} else Requests(A, p);
  }

  lemma InfoNone(A: set<Announcement>, p: NodeId)
    requires Info(A, p).total == 0
    ensures Info(A, p) == PeerInfo(0, 0, 0)
  {
    assert OfPeer(A, p) == {};
    assert Completes(A, p) == {} && Requests(A, p) == {};
  }

  predicate HasCounts(info: map<NodeId, PeerInfo>, a: Announcement) {
    && a.peer in info
    && info[a.peer].total >= 1
    && info[a.peer].completed >= Bit(a.state.Completed?)
    && info[a.peer].requested >= Bit(a.state.Requested?)
  }

  function Uncount(info: PeerInfo, a: Announcement): PeerInfo
    requires info.completed >= Bit(a.state.Completed?) && info.requested >= Bit(a.state.Requested?)
  {
    info.(completed := info.completed - Bit(a.state.Completed?), requested := info.requested - Bit(a.state.Requested?))
  }

  function Count(info: PeerInfo, a: Announcement): PeerInfo {
    info.(completed := info.completed + Bit(a.state.Completed?), requested := info.requested + Bit(a.state.Requested?))
  }

  function CountErased(info: map<NodeId, PeerInfo>, a: Announcement): map<NodeId, PeerInfo>
    requires HasCounts(info, a)
  {
    var i := Uncount(info[a.peer], a);
    if i.total == 1 then info - {a.peer} else info[a.peer := i.(total := i.total - 1)]
  }

  function CountModified(info: map<NodeId, PeerInfo>, a: Announcement, b: Announcement): map<NodeId, PeerInfo>
    requires HasCounts(info, a)
  {
    info[a.peer := Count(Uncount(info[a.peer], a), b)]
  }

  function CountAdded(info: map<NodeId, PeerInfo>, a: Announcement): map<NodeId, PeerInfo> {
    var i := if a.peer in info then info[a.peer] else PeerInfo(0, 0, 0);
    info[a.peer := i.(total := i.total + 1)]
  }

  lemma ErasedIsCounted(info: map<NodeId, PeerInfo>, A: set<Announcement>, a: Announcement)
    requires Counted(info, A) && a in A
    ensures HasCounts(info, a) && Counted(CountErased(info, a), A - {a})
  {
    assert A - {a} + {a} == A;
    forall p { InfoWith(A - {a}, a, p); }
  }

  lemma ModifiedIsCounted(info: map<NodeId, PeerInfo>, A: set<Announcement>, a: Announcement, b: Announcement)
    requires Counted(info, A) && a in A && b.peer == a.peer && b !in A - {a}
    ensures HasCounts(info, a) && Counted(CountModified(info, a, b), A - {a} + {b})
  {
    assert A - {a} + {a} == A;
    forall p { InfoWith(A - {a}, a, p); }
    forall p { InfoWith(A - {a}, b, p); }
  }

  lemma AddedIsCounted(info: map<NodeId, PeerInfo>, A: set<Announcement>, a: Announcement)
    requires Counted(info, A) && a !in A && a.state.CandidateDelayed?
    ensures Counted(CountAdded(info, a), A + {a})
  {
    forall p { InfoWith(A, a, p); }
    if a.peer !in info { InfoNone(A, a.peer); }
  }
}

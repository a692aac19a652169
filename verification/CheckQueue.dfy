/** The master/worker check queue (src/checkqueue.h) as a state machine: every critical section is one
  * atomic step, checks run one at a time outside the lock, and the steps of any number of threads
  * interleave arbitrarily. Thread 0 is the master. No stop is requested.
  */
module CheckQueue {
  type Check = nat

  datatype Thread =
    /** Not inside Loop: a worker that has not started, or the master between two calls of Wait. */
    | Outside
    /** Holds a batch: the first next checks are dealt with, ok is the local fOk. */
    | Working(batch: seq<Check>, next: nat, ok: bool)
    /** Blocked on its condition variable. */
    | Asleep(notified: bool)
    /** Inside the critical section; no thread stays there between two steps. */
    | Locked

  /** What has happened to the checks of the current round. */
  datatype Round = Round(added: multiset<Check>, ran: multiset<Check>, failed: multiset<Check>,
                         finished: multiset<Check>)

  datatype Queue = Queue(
    queue: seq<Check>, nIdle: int, nTotal: int, fAllOk: bool, nTodo: int, threads: seq<Thread>, round: Round)

  datatype Event =
    | Add(checks: seq<Check>, woken: set<nat>)
    | Enter(t: nat)
    | Execute(t: nat, result: bool)
    | Finish(t: nat)
    | Wake(t: nat)

  const NEW_ROUND: Round := Round(multiset{}, multiset{}, multiset{}, multiset{})

  ghost predicate Init(s: Queue) {
    && s.queue == [] && s.nIdle == 0 && s.nTotal == 0 && s.fAllOk && s.nTodo == 0
    && |s.threads| >= 1 && (forall t :: 0 <= t < |s.threads| ==> s.threads[t].Outside?)
    && s.round == NEW_ROUND
  }

  // ---------- steps ----------

  /** Sleeping workers that have not been notified yet. */
  ghost function Sleepers(s: Queue): set<nat> {
    set t: nat | 1 <= t < |s.threads| && s.threads[t] == Asleep(false)
  }

  /** notify_one for a single check, notify_all for more. */
  ghost predicate MayWake(s: Queue, count: nat, woken: set<nat>) {
    if count == 0 then woken == {}
    else if count > 1 then woken == Sleepers(s)
    else woken <= Sleepers(s) && |woken| <= 1 && (Sleepers(s) != {} ==> woken != {})
  }

  ghost predicate Enabled(s: Queue, e: Event) {
    match e
    case Add(checks, woken) => |s.threads| > 0 && s.threads[0].Outside? && MayWake(s, |checks|, woken)
    case Enter(t) => t < |s.threads| && s.threads[t].Outside?
    case Execute(t, _) => t < |s.threads| && s.threads[t].Working? && s.threads[t].next < |s.threads[t].batch|
    case Finish(t) => t < |s.threads| && s.threads[t].Working? && s.threads[t].next == |s.threads[t].batch|
    case Wake(t) => t < |s.threads| && s.threads[t].Asleep?
  }

  function Min(a: int, b: int): int { if a < b then a else b }

  function Max(a: int, b: int): int { if a < b then b else a }

  function BatchSize(limit: nat, queued: nat, nTotal: int, nIdle: int): int
    requires nTotal + nIdle + 1 > 0
  {
    Max(1, Min(limit, queued / (nTotal + nIdle + 1)))
  }

  predicate Returns(s: Queue, t: nat) {
    s.queue == [] && t == 0 && s.nTodo == 0
  }

  /** From the inner while to the end of the critical section. */
  function Decide(s: Queue, t: nat, limit: nat): Queue
    requires t < |s.threads| && s.nTotal + s.nIdle + 1 > 0
    requires s.queue != [] ==> BatchSize(limit, |s.queue|, s.nTotal, s.nIdle) <= |s.queue|
  {
    if Returns(s, t) then
      s.(nTotal := s.nTotal - 1, fAllOk := true, threads := s.threads[t := Outside], round := NEW_ROUND)
    else if s.queue == [] then
      s.(nIdle := s.nIdle + 1, threads := s.threads[t := Asleep(false)])
    else
      var k := |s.queue| - BatchSize(limit, |s.queue|, s.nTotal, s.nIdle);
      s.(queue := s.queue[..k], threads := s.threads[t := Working(s.queue[k..], 0, s.fAllOk)])
  }

  function Entered(s: Queue, t: nat): Queue
    requires t < |s.threads|
  {
    s.(nTotal := s.nTotal + 1, threads := s.threads[t := Locked])
  }

  function Woken(s: Queue, t: nat): Queue
    requires t < |s.threads|
  {
    s.(nIdle := s.nIdle - 1, threads := s.threads[t := Locked])
  }

  function NotifyMaster(s: Queue): Queue
    requires |s.threads| > 0
  {
    if s.threads[0].Asleep? then s.(threads := s.threads[0 := Asleep(true)]) else s
  }

  /** The clean-up of the previous batch. */
  function Cleaned(s: Queue, t: nat): Queue
    requires t < |s.threads| && s.threads[t].Working?
  {
    var w := s.threads[t];
    var s1 := s.(fAllOk := s.fAllOk && w.ok, nTodo := s.nTodo - |w.batch|, threads := s.threads[t := Locked],
                 round := s.round.(finished := s.round.finished + multiset(w.batch)));
    if s1.nTodo == 0 && t != 0 then NotifyMaster(s1) else s1
  }

  function Executed(s: Queue, t: nat, result: bool): Queue
    requires t < |s.threads| && s.threads[t].Working? && s.threads[t].next < |s.threads[t].batch|
  {
    var w := s.threads[t];
    s.(threads := s.threads[t := Dealt(w, result)], round := if w.ok then Ran(s.round, w.batch[w.next], result)
       else s.round)
  }

  /** The thread after its next check; a check is skipped once fOk is false. */
  function Dealt(w: Thread, result: bool): Thread
    requires w.Working?
  {
    w.(next := w.next + 1, ok := w.ok && result)
  }

  function Ran(r: Round, check: Check, result: bool): Round {
    r.(ran := r.ran + multiset{check}, failed := if result then r.failed else r.failed + multiset{check})
  }

  ghost function Added(s: Queue, checks: seq<Check>, woken: set<nat>): Queue {
    s.(queue := s.queue + checks, nTodo := s.nTodo + |checks|,
       threads := seq(|s.threads|, t requires 0 <= t < |s.threads| =>
                        if t in woken && s.threads[t].Asleep? then Asleep(true) else s.threads[t]),
       round := s.round.(added := s.round.added + multiset(checks)))
  }

  /** The state inside the lock when the inner while is reached. */
  ghost function Before(s: Queue, e: Event): Queue
    requires Enabled(s, e) && (e.Enter? || e.Finish? || e.Wake?)
  {
    match e
    case Enter(t) => Entered(s, t)
    case Finish(t) => Cleaned(s, t)
    case Wake(t) => Woken(s, t)
  }

  // ---------- sums over the threads ----------

  datatype Sum = Sum(held: multiset<Check>, dealt: multiset<Check>, inLoop: int, asleep: int, work: int)

  function Weight(t: Thread): Sum {
    match t
    case Outside => Sum(multiset{}, multiset{}, 0, 0, 1)
    case Working(batch, next, _) =>
      Sum(multiset(batch), multiset(batch[..Min(next, |batch|)]), 1, 0, 3 * |batch| - next)
    case Asleep(notified) => Sum(multiset{}, multiset{}, 1, 1, if notified then 1 else 0)
    case Locked => Sum(multiset{}, multiset{}, 1, 0, 0)
  }

  function Plus(a: Sum, b: Sum): Sum {
    Sum(a.held + b.held, a.dealt + b.dealt, a.inLoop + b.inLoop, a.asleep + b.asleep, a.work + b.work)
  }

  lemma PlusSwap(a: Sum, b: Sum, c: Sum)
    ensures Plus(Plus(a, b), c) == Plus(Plus(a, c), b)
  {
  }

  lemma PlusUpdate(a: Sum, a': Sum, w: Sum, n: Sum, o: Sum)
    requires Plus(a, n) == Plus(a', o)
    ensures Plus(Plus(a, w), n) == Plus(Plus(a', w), o)
  {
    PlusSwap(a, w, n);
    PlusSwap(a', w, o);
  }

  ghost function SumOf(ws: seq<Sum>): Sum {
    if ws == [] then Sum(multiset{}, multiset{}, 0, 0, 0)
    else Plus(SumOf(ws[..|ws| - 1]), ws[|ws| - 1])
  }

  lemma {:induction false} SumUpdate(ws: seq<Sum>, i: nat, w: Sum)
    requires i < |ws|
    ensures Plus(SumOf(ws), w) == Plus(SumOf(ws[i := w]), ws[i])
  {
    var m := |ws| - 1;
    var ws' := ws[i := w];
    if i == m {
      assert ws'[..m] == ws[..m];
      PlusSwap(SumOf(ws[..m]), ws[m], w);
    } else {
      SumUpdate(ws[..m], i, w);
      assert ws'[..m] == ws[..m][i := w];
      PlusUpdate(SumOf(ws[..m]), SumOf(ws'[..m]), ws[m], w, ws[i]);
    }
  }

  ghost function Weights(ts: seq<Thread>): (ws: seq<Sum>)
    ensures |ws| == |ts|
  {
    seq(|ts|, i requires 0 <= i < |ts| => Weight(ts[i]))
  }

  ghost function Total(ts: seq<Thread>): Sum { SumOf(Weights(ts)) }

  /** One thread changes: the sums change by the difference. */
  lemma TotalUpdate(ts: seq<Thread>, i: nat, t: Thread)
    requires i < |ts|
    ensures Plus(Total(ts), Weight(t)) == Plus(Total(ts[i := t]), Weight(ts[i]))
  {
    WeightsUpdate(ts, i, t, Weight(t));
    SumUpdate(Weights(ts), i, Weight(t));
  }

  lemma WeightsUpdate(ts: seq<Thread>, i: nat, t: Thread, w: Sum)
    requires i < |ts| && w == Weight(t)
    ensures Weights(ts[i := t]) == Weights(ts)[i := w] && Weights(ts)[i] == Weight(ts[i])
  {
    var ts' := ts[i := t];
    forall j | 0 <= j < |ts| ensures Weights(ts')[j] == Weights(ts)[i := w][j] {
    }
  }

  lemma {:induction false} SumHolds(ws: seq<Sum>, i: nat)
    requires i < |ws|
    ensures ws[i].held <= SumOf(ws).held
  {
    if i < |ws| - 1 { SumHolds(ws[..|ws| - 1], i); }
  }

  lemma {:induction false} SumHolder(ws: seq<Sum>) returns (i: nat)
    requires SumOf(ws).held != multiset{}
    ensures i < |ws| && ws[i].held != multiset{}
  {
    var m := |ws| - 1;
    if ws[m].held != multiset{} { i := m; } else { i := SumHolder(ws[..m]); }
  }

  lemma {:induction false} SumBounds(ws: seq<Sum>)
    requires forall i :: 0 <= i < |ws| ==> ws[i].inLoop >= 0 && ws[i].asleep >= 0
    ensures SumOf(ws).inLoop >= 0 && SumOf(ws).asleep >= 0
  {
    if ws != [] { SumBounds(ws[..|ws| - 1]); }
  }

  lemma {:induction false} SumDealt(ws: seq<Sum>)
    requires forall i :: 0 <= i < |ws| ==> ws[i].dealt <= ws[i].held
    ensures SumOf(ws).dealt <= SumOf(ws).held
  {
    if ws != [] { SumDealt(ws[..|ws| - 1]); }
  }

  lemma {:induction false} SumSame(ws: seq<Sum>, vs: seq<Sum>)
    requires |ws| == |vs| && forall i :: 0 <= i < |ws| ==> ws[i].(work := 0) == vs[i].(work := 0)
    ensures SumOf(ws).(work := 0) == SumOf(vs).(work := 0)
  {
    if ws != [] {
      var m := |ws| - 1;
      SumSame(ws[..m], vs[..m]);
      assert ws[m].(work := 0) == vs[m].(work := 0);
    }
  }

  lemma DealtIsHeld(t: Thread)
    requires t.Working? ==> t.next <= |t.batch|
    ensures Weight(t).dealt <= Weight(t).held
  {
    if t.Working? { assert t.batch == t.batch[..t.next] + t.batch[t.next..]; }
  }

  lemma TotalFacts(ts: seq<Thread>)
    requires forall t :: 0 <= t < |ts| && ts[t].Working? ==> ts[t].next <= |ts[t].batch|
    ensures Total(ts).inLoop >= 0 && Total(ts).asleep >= 0 && Total(ts).dealt <= Total(ts).held
  {
    SumBounds(Weights(ts));
    forall i | 0 <= i < |ts| ensures Weights(ts)[i].dealt <= Weights(ts)[i].held { DealtIsHeld(ts[i]); }
    SumDealt(Weights(ts));
  }

  lemma CancelEmpty(a: multiset<Check>, b: multiset<Check>)
    requires a + multiset{} == b + multiset{}
    ensures a == b
  {
    assert a + multiset{} == a && b + multiset{} == b;
  }

  ghost predicate SameChecks(a: Sum, b: Sum) { a.held == b.held && a.dealt == b.dealt }

  /** Neither state of the thread holds checks. */
  lemma TotalQuiet(ts: seq<Thread>, i: nat, t: Thread)
    requires i < |ts| && !ts[i].Working? && !t.Working?
    ensures SameChecks(Total(ts), Total(ts[i := t]))
    ensures var a, b, o, n := Total(ts), Total(ts[i := t]), Weight(ts[i]), Weight(t);
            b.inLoop == a.inLoop + n.inLoop - o.inLoop && b.asleep == a.asleep + n.asleep - o.asleep
            && b.work == a.work + n.work - o.work
  {
    TotalUpdate(ts, i, t);
    CancelEmpty(Total(ts).held, Total(ts[i := t]).held);
    CancelEmpty(Total(ts).dealt, Total(ts[i := t]).dealt);
  }

  /** The thread takes a batch. */
  lemma TotalTake(ts: seq<Thread>, i: nat, batch: seq<Check>, ok: bool)
    requires i < |ts| && ts[i].Locked?
    ensures var a, b := Total(ts), Total(ts[i := Working(batch, 0, ok)]);
            b == Sum(a.held + multiset(batch), a.dealt, a.inLoop, a.asleep, a.work + 3 * |batch|)
  {
    var t := Working(batch, 0, ok);
    TotalUpdate(ts, i, t);
    var a, b := Total(ts), Total(ts[i := t]);
    assert batch[..0] == [];
    CancelEmpty(a.dealt, b.dealt);
    CancelEmpty(a.held + multiset(batch), b.held);
  }

  /** The thread has dealt with its batch and lets go of it. */
  lemma TotalDrop(ts: seq<Thread>, i: nat)
    requires i < |ts| && ts[i].Working? && ts[i].next == |ts[i].batch|
    ensures var a, b, m := Total(ts), Total(ts[i := Locked]), multiset(ts[i].batch);
            && a.held == b.held + m && a.dealt == b.dealt + m
            && b.inLoop == a.inLoop && b.asleep == a.asleep && b.work == a.work - 2 * |ts[i].batch|
  {
    TotalUpdate(ts, i, Locked);
    var a, b := Total(ts), Total(ts[i := Locked]);
    assert ts[i].batch[..|ts[i].batch|] == ts[i].batch;
    CancelEmpty(a.held, b.held + multiset(ts[i].batch));
    CancelEmpty(a.dealt, b.dealt + multiset(ts[i].batch));
  }

  /** The thread deals with its next check. */
  lemma TotalDeal(ts: seq<Thread>, i: nat, result: bool)
    requires i < |ts| && ts[i].Working? && ts[i].next < |ts[i].batch|
    ensures var a, b := Total(ts), Total(ts[i := Dealt(ts[i], result)]);
            b == Sum(a.held, a.dealt + multiset{ts[i].batch[ts[i].next]}, a.inLoop, a.asleep, a.work - 1)
  {
    var w := ts[i];
    var w' := Dealt(w, result);
    TotalUpdate(ts, i, w');
    WeightDealt(w, result);
    var a, b := Total(ts), Total(ts[i := w']);
    CancelDeal(a.dealt, b.dealt, Weight(w).dealt, w.batch[w.next]);
    CancelSame(a.held, b.held, Weight(w).held);
  }

  lemma WeightDealt(w: Thread, result: bool)
    requires w.Working? && w.next < |w.batch|
    ensures var a, b := Weight(w), Weight(Dealt(w, result));
            b == Sum(a.held, a.dealt + multiset{w.batch[w.next]}, a.inLoop, a.asleep, a.work - 1)
  {
    assert w.batch[..w.next + 1] == w.batch[..w.next] + [w.batch[w.next]];
  }

  lemma CancelDeal(a: multiset<Check>, b: multiset<Check>, m: multiset<Check>, c: Check)
    requires a + (m + multiset{c}) == b + m
    ensures b == a + multiset{c}
  {
    assert a + multiset{c} + m == b + m;
    CancelSame(a + multiset{c}, b, m);
  }

  lemma CancelSame(a: multiset<Check>, b: multiset<Check>, m: multiset<Check>)
    requires a + m == b + m
    ensures a == b
  {
    assert (a + m) - m == a && (b + m) - m == b;
  }

  // ---------- the invariant ----------

  ghost predicate BatchesOk(s: Queue) {
    forall t :: 0 <= t < |s.threads| && s.threads[t].Working? ==>
      s.threads[t].batch != [] && s.threads[t].next <= |s.threads[t].batch|
  }

  /** nTotal and nIdle count threads; nTodo counts what is queued or held. */
  ghost predicate CountsOk(s: Queue) {
    var sum := Total(s.threads);
    s.nTotal == sum.inLoop && s.nIdle == sum.asleep && s.nTodo == |s.queue| + |sum.held|
  }

  /** No check is lost or duplicated, and without a failure every check dealt with has run exactly once. */
  ghost predicate ChecksOk(s: Queue) {
    var sum, r := Total(s.threads), s.round;
    && r.added == multiset(s.queue) + sum.held + r.finished
    && r.ran <= r.finished + sum.dealt
    && (r.failed == multiset{} ==> r.ran == r.finished + sum.dealt)
    && r.failed <= r.ran
  }

  /** A failure is remembered in fAllOk or by a thread that is still working, and nothing else is. */
  ghost predicate VerdictOk(s: Queue) {
    s.round.failed == multiset{} <==> s.fAllOk && AllOk(s.threads)
  }

  predicate ThreadOk(t: Thread) { t.Working? ==> t.ok }

  ghost predicate AllOk(ts: seq<Thread>) {
    forall t :: 0 <= t < |ts| ==> ThreadOk(ts[t])
  }

  lemma AllOkUpdate(ts: seq<Thread>, i: nat, t: Thread)
    requires i < |ts|
    ensures AllOk(ts[i := t]) && ThreadOk(ts[i]) <==> AllOk(ts) && ThreadOk(t)
  {
    if AllOk(ts[i := t]) && ThreadOk(ts[i]) {
      forall j | 0 <= j < |ts| ensures ThreadOk(ts[j]) { assert j != i ==> ts[j] == ts[i := t][j]; }
      assert ts[i := t][i] == t;
    }
  }

  /** The master sleeps only on an empty queue, and is notified exactly when nothing is left to do. */
  ghost predicate MasterOk(s: Queue) {
    |s.threads| >= 1 && (s.threads[0].Asleep? ==> s.queue == [] && (s.threads[0].notified <==> s.nTodo == 0))
  }

  ghost predicate Inv(s: Queue) {
    BatchesOk(s) && CountsOk(s) && ChecksOk(s) && VerdictOk(s) && MasterOk(s)
  }

  // ---------- every half step keeps it ----------

  /** A thread that holds nothing changes to another state that holds nothing. */
  lemma QuietKeeps(s: Queue, i: nat, t: Thread, s': Queue)
    requires i < |s.threads| && !s.threads[i].Working? && !t.Working?
    requires s'.threads == s.threads[i := t] && s'.queue == s.queue && s'.round == s.round && s'.fAllOk == s.fAllOk
    requires BatchesOk(s) && ChecksOk(s) && VerdictOk(s)
    ensures BatchesOk(s') && ChecksOk(s') && VerdictOk(s')
  {
    TotalQuiet(s.threads, i, t);
    AllOkUpdate(s.threads, i, t);
  }

  lemma EnteredInv(s: Queue, t: nat)
    requires Inv(s) && t < |s.threads| && s.threads[t].Outside?
    ensures Inv(Entered(s, t))
  {
    QuietKeeps(s, t, Locked, Entered(s, t));
    TotalQuiet(s.threads, t, Locked);
  }

  lemma WokenInv(s: Queue, t: nat)
    requires Inv(s) && t < |s.threads| && s.threads[t].Asleep?
    ensures Inv(Woken(s, t))
  {
    QuietKeeps(s, t, Locked, Woken(s, t));
    TotalQuiet(s.threads, t, Locked);
  }

  lemma NotifyMasterInv(s: Queue)
    requires BatchesOk(s) && CountsOk(s) && ChecksOk(s) && VerdictOk(s) && |s.threads| >= 1
    requires s.threads[0].Asleep? ==> s.queue == []
    requires s.nTodo == 0
    ensures Inv(NotifyMaster(s))
  {
    if s.threads[0].Asleep? {
      QuietKeeps(s, 0, Asleep(true), NotifyMaster(s));
      TotalQuiet(s.threads, 0, Asleep(true));
    }
  }

  /** Cleaned without the notification. */
  function Settled(s: Queue, t: nat): Queue
    requires t < |s.threads| && s.threads[t].Working?
  {
    var w := s.threads[t];
    s.(fAllOk := s.fAllOk && w.ok, nTodo := s.nTodo - |w.batch|, threads := s.threads[t := Locked],
       round := s.round.(finished := s.round.finished + multiset(w.batch)))
  }

  lemma MoveOver(q: multiset<Check>, h: multiset<Check>, f: multiset<Check>, m: multiset<Check>)
    ensures q + (h + m) + f == q + h + (f + m)
  {
  }

  lemma SettledChecks(s: Queue, t: nat)
    requires ChecksOk(s) && t < |s.threads| && s.threads[t].Working? && s.threads[t].next == |s.threads[t].batch|
    ensures ChecksOk(Settled(s, t))
  {
    var m := multiset(s.threads[t].batch);
    TotalDrop(s.threads, t);
    var b := Total(s.threads[t := Locked]);
    MoveOver(multiset(s.queue), b.held, s.round.finished, m);
    MoveOver(multiset{}, b.dealt, s.round.finished, m);
    assert s.round.finished + (b.dealt + m) == s.round.finished + m + b.dealt;
  }

  lemma CleanedInv(s: Queue, t: nat)
    requires Inv(s) && t < |s.threads| && s.threads[t].Working? && s.threads[t].next == |s.threads[t].batch|
    ensures Inv(Cleaned(s, t))
  {
    var w := s.threads[t];
    var s1 := Settled(s, t);
    SettledChecks(s, t);
    TotalDrop(s.threads, t);
    AllOkUpdate(s.threads, t, Locked);
    assert |multiset(w.batch)| == |w.batch|;
    assert Cleaned(s, t) == if s1.nTodo == 0 && t != 0 then NotifyMaster(s1) else s1;
    if s1.nTodo == 0 && t != 0 { NotifyMasterInv(s1); }
  }

  lemma ExecutedChecks(s: Queue, t: nat, result: bool)
    requires ChecksOk(s) && (s.round.failed == multiset{} ==> AllOk(s.threads))
    requires t < |s.threads| && s.threads[t].Working? && s.threads[t].next < |s.threads[t].batch|
    ensures ChecksOk(Executed(s, t, result))
  {
    var w := s.threads[t];
    TotalDeal(s.threads, t, result);
    RanOneMore(s.round, Total(s.threads).dealt, w.batch[w.next]);
    if !w.ok { assert !ThreadOk(s.threads[t]); }
  }

  lemma RanOneMore(r: Round, dealt: multiset<Check>, c: Check)
    requires r.ran <= r.finished + dealt
    ensures r.ran + multiset{c} <= r.finished + (dealt + multiset{c}) && r.ran <= r.finished + (dealt + multiset{c})
    ensures r.ran == r.finished + dealt ==> r.ran + multiset{c} == r.finished + (dealt + multiset{c})
    ensures r.failed <= r.ran ==> r.failed + multiset{c} <= r.ran + multiset{c} && r.failed <= r.ran + multiset{c}
    ensures r.failed + multiset{c} != multiset{}
  {
    assert c in r.failed + multiset{c};
  }

  lemma ExecutedVerdict(s: Queue, t: nat, result: bool)
    requires VerdictOk(s) && t < |s.threads| && s.threads[t].Working? && s.threads[t].next < |s.threads[t].batch|
    ensures VerdictOk(Executed(s, t, result))
  {
    var w := s.threads[t];
    var w' := Dealt(w, result);
    var s' := Executed(s, t, result);
    assert s'.threads == s.threads[t := w'];
    AllOkUpdate(s.threads, t, w');
    if w.ok && !result {
      assert w.batch[w.next] in s'.round.failed;
      assert !ThreadOk(s'.threads[t]);
    }
    if !w.ok {
      assert !ThreadOk(s.threads[t]) && !ThreadOk(s'.threads[t]);
    }
  }

  lemma ExecutedCounts(s: Queue, t: nat, result: bool)
    requires BatchesOk(s) && CountsOk(s) && MasterOk(s)
    requires t < |s.threads| && s.threads[t].Working? && s.threads[t].next < |s.threads[t].batch|
    ensures BatchesOk(Executed(s, t, result)) && CountsOk(Executed(s, t, result)) && MasterOk(Executed(s, t, result))
  {
    TotalDeal(s.threads, t, result);
  }

  lemma ExecutedInv(s: Queue, t: nat, result: bool)
    requires Inv(s) && t < |s.threads| && s.threads[t].Working? && s.threads[t].next < |s.threads[t].batch|
    ensures Inv(Executed(s, t, result))
  {
    ExecutedChecks(s, t, result);
    ExecutedVerdict(s, t, result);
    ExecutedCounts(s, t, result);
  }

  // ---------- the decision in the critical section ----------

  predicate CanDecide(s: Queue, t: nat, limit: nat) {
    t < |s.threads| && s.nTotal + s.nIdle + 1 > 0
    && (s.queue != [] ==> 1 <= BatchSize(limit, |s.queue|, s.nTotal, s.nIdle) <= |s.queue|)
  }

  /** A batch has at least one check, at most what is queued, and no more than the limit allows. */
  lemma BatchFits(s: Queue, t: nat, limit: nat)
    requires Inv(s) && t < |s.threads|
    ensures CanDecide(s, t, limit)
    ensures s.queue != [] ==> BatchSize(limit, |s.queue|, s.nTotal, s.nIdle) <= Max(1, limit)
  {
    TotalFacts(s.threads);
    if s.queue != [] { BatchSizeFits(limit, |s.queue|, s.nTotal, s.nIdle); }
  }

  /** A batch is the limit if there is as much for every thread, and otherwise an equal share of what is queued, but at
    * least one check.
    */
  lemma BatchIsFair(limit: nat, queued: nat, nTotal: nat, nIdle: nat)
    requires queued > 0
    ensures var n, threads := BatchSize(limit, queued, nTotal, nIdle), nTotal + nIdle + 1;
            if limit > 0 && limit * threads <= queued then n == limit
            else n == 1 || (n * threads <= queued < (n + 1) * threads)
  {
    var threads := nTotal + nIdle + 1;
    var q, r := queued / threads, queued % threads;
    assert queued == q * threads + r && q * threads + threads == (q + 1) * threads;
    if limit > 0 && limit * threads <= queued {
      if q < limit { Grows(q + 1, limit, threads); }
    } else if limit > 0 && q > limit {
      Grows(limit, q, threads);
    }
  }

  lemma Grows(p: nat, q: nat, n: nat)
    requires p <= q
    ensures p * n <= q * n
  {
  }

  lemma BatchSizeFits(limit: nat, queued: nat, nTotal: int, nIdle: int)
    requires queued > 0 && nTotal >= 0 && nIdle >= 0
    ensures 1 <= BatchSize(limit, queued, nTotal, nIdle) <= queued
    ensures BatchSize(limit, queued, nTotal, nIdle) <= Max(1, limit)
  {
    QuotientBelow(queued, nTotal + nIdle + 1);
  }

  lemma QuotientBelow(n: nat, d: int)
    requires d > 0
    ensures n / d <= n
  {
    var q := n / d;
    assert q * d <= n;
    assert q <= q * d;
  }

  lemma NobodyWorks(s: Queue)
    requires Inv(s) && s.queue == [] && s.nTodo == 0
    ensures Total(s.threads).held == multiset{} && Total(s.threads).dealt == multiset{}
    ensures forall t :: 0 <= t < |s.threads| ==> !s.threads[t].Working?
  {
    TotalFacts(s.threads);
    forall t | 0 <= t < |s.threads| ensures !s.threads[t].Working? {
      SumHolds(Weights(s.threads), t);
      WorkerHolds(s.threads[t]);
    }
  }

  lemma WorkerHolds(t: Thread)
    requires t.Working? ==> t.batch != []
    ensures t.Working? <==> Weight(t).held != multiset{}
  {
    if t.Working? { assert t.batch[0] in Weight(t).held; }
  }

  lemma ReturnInv(s: Queue, limit: nat)
    requires Inv(s) && s.threads[0].Locked? && Returns(s, 0) && CanDecide(s, 0, limit)
    ensures Inv(Decide(s, 0, limit))
  {
    NobodyWorks(s);
    TotalQuiet(s.threads, 0, Outside);
  }

  lemma SleepInv(s: Queue, t: nat, limit: nat)
    requires Inv(s) && t < |s.threads| && s.threads[t].Locked? && !Returns(s, t) && s.queue == []
             && CanDecide(s, t, limit)
    ensures Inv(Decide(s, t, limit))
  {
    QuietKeeps(s, t, Asleep(false), Decide(s, t, limit));
    TotalQuiet(s.threads, t, Asleep(false));
  }

  lemma GrabInv(s: Queue, t: nat, limit: nat)
    requires Inv(s) && t < |s.threads| && s.threads[t].Locked? && s.queue != [] && CanDecide(s, t, limit)
    ensures Inv(Decide(s, t, limit))
  {
    var k := |s.queue| - BatchSize(limit, |s.queue|, s.nTotal, s.nIdle);
    var batch := s.queue[k..];
    TotalTake(s.threads, t, batch, s.fAllOk);
    AllOkUpdate(s.threads, t, Working(batch, 0, s.fAllOk));
    var held, q := Total(s.threads).held, multiset(s.queue[..k]);
    assert s.queue == s.queue[..k] + batch;
    assert q + multiset(batch) + held + s.round.finished == q + (held + multiset(batch)) + s.round.finished;
    assert |held + multiset(batch)| == |held| + |multiset(batch)| && |multiset(batch)| == |batch|;
  }

  lemma DecideInv(s: Queue, t: nat, limit: nat)
    requires Inv(s) && t < |s.threads| && s.threads[t].Locked? && CanDecide(s, t, limit)
    ensures Inv(Decide(s, t, limit))
  {
    if Returns(s, t) { ReturnInv(s, limit); } else if s.queue == [] { SleepInv(s, t, limit); }
    else { GrabInv(s, t, limit); }
  }

  lemma AddedInv(s: Queue, checks: seq<Check>, woken: set<nat>)
    requires Inv(s) && s.threads[0].Outside?
    ensures Inv(Added(s, checks, woken))
  {
    WakingKeeps(s, checks, woken);
    var held, q, f := Total(s.threads).held, multiset(s.queue), s.round.finished;
    assert q + held + f + multiset(checks) == q + multiset(checks) + held + f;
    assert multiset(s.queue + checks) == q + multiset(checks);
  }

  lemma WakingKeeps(s: Queue, checks: seq<Check>, woken: set<nat>)
    ensures var ts := Added(s, checks, woken).threads;
            Total(ts).(work := 0) == Total(s.threads).(work := 0) && (AllOk(ts) <==> AllOk(s.threads))
  {
    var ts, ts' := s.threads, Added(s, checks, woken).threads;
    forall t | 0 <= t < |ts|
      ensures Weights(ts)[t].(work := 0) == Weights(ts')[t].(work := 0) && ThreadOk(ts[t]) == ThreadOk(ts'[t])
    {
      assert ts'[t] == ts[t] || (ts[t].Asleep? && ts'[t].Asleep?);
    }
    SumSame(Weights(ts), Weights(ts'));
  }

  // ---------- steps and runs ----------

  ghost predicate Step(s: Queue, e: Event, limit: nat, s': Queue) {
    Enabled(s, e) &&
    match e
    case Add(checks, woken) => s' == Added(s, checks, woken)
    case Execute(t, result) => s' == Executed(s, t, result)
    case _ => CanDecide(Before(s, e), e.t, limit) && s' == Decide(Before(s, e), e.t, limit)
  }

  lemma BeforeInv(s: Queue, e: Event)
    requires Inv(s) && Enabled(s, e) && (e.Enter? || e.Finish? || e.Wake?)
    ensures Inv(Before(s, e)) && e.t < |Before(s, e).threads| && Before(s, e).threads[e.t].Locked?
  {
    match e
    case Enter(t) => EnteredInv(s, t);
    case Finish(t) => CleanedInv(s, t);
    case Wake(t) => WokenInv(s, t);
  }

  lemma StepInv(s: Queue, e: Event, limit: nat, s': Queue)
    requires Inv(s) && Step(s, e, limit, s')
    ensures Inv(s')
  {
    match e
    case Add(checks, woken) => AddedInv(s, checks, woken);
    case Execute(t, result) => ExecutedInv(s, t, result);
    case _ =>
      BeforeInv(s, e);
      DecideInv(Before(s, e), e.t, limit);
  }

  /** Whatever is enabled can be done. */
  lemma StepExists(s: Queue, e: Event, limit: nat)
    requires Inv(s) && Enabled(s, e)
    ensures exists s' :: Step(s, e, limit, s')
  {
    match e
    case Add(checks, woken) => assert Step(s, e, limit, Added(s, checks, woken));
    case Execute(t, result) => assert Step(s, e, limit, Executed(s, t, result));
    case _ =>
      BeforeInv(s, e);
      BatchFits(Before(s, e), e.t, limit);
      assert Step(s, e, limit, Decide(Before(s, e), e.t, limit));
  }

  ghost predicate IsRun(ss: seq<Queue>, es: seq<Event>, limit: nat) {
    && |ss| == |es| + 1
    && Init(ss[0])
    && (forall i :: 0 <= i < |es| ==> StepAt(ss, es, limit, i))
  }

  ghost predicate StepAt(ss: seq<Queue>, es: seq<Event>, limit: nat, i: nat)
    requires |ss| == |es| + 1 && i < |es|
  {
    Step(ss[i], es[i], limit, ss[i + 1])
  }

  lemma {:induction false} AllOutside(ts: seq<Thread>)
    requires forall t :: 0 <= t < |ts| ==> ts[t].Outside?
    ensures Total(ts).(work := 0) == Sum(multiset{}, multiset{}, 0, 0, 0)
  {
    if ts == [] {
    } else {
      var m := |ts| - 1;
      AllOutside(ts[..m]);
      assert Weights(ts)[..m] == Weights(ts[..m]);
    }
  }

  lemma {:induction false} RunInv(ss: seq<Queue>, es: seq<Event>, limit: nat, n: nat)
    requires IsRun(ss, es, limit) && n < |ss|
    ensures Inv(ss[n])
  {
    if n == 0 {
      AllOutside(ss[0].threads);
    } else {
      RunInv(ss, es, limit, n - 1);
      assert StepAt(ss, es, limit, n - 1);
      StepInv(ss[n - 1], es[n - 1], limit, ss[n]);
    }
  }

  // ---------- what Wait returns ----------

  /** Wait returns in this step; its result is fAllOk as found in the critical section. */
  ghost predicate WaitReturns(s: Queue, e: Event) {
    Enabled(s, e) && (e.Enter? || e.Finish? || e.Wake?) && e.t == 0 && Returns(Before(s, e), 0)
  }

  ghost function Result(s: Queue, e: Event): bool
    requires WaitReturns(s, e)
  {
    Before(s, e).fAllOk
  }

  /** In every run Wait returns true exactly when every check added in the round was executed once and
    * returned true; and it leaves nothing behind that the next round could see.
    */
  lemma WaitIsRight(ss: seq<Queue>, es: seq<Event>, limit: nat, n: nat)
    requires IsRun(ss, es, limit) && n < |es| && WaitReturns(ss[n], es[n])
    ensures var r := ss[n].round; Result(ss[n], es[n]) <==> r.ran == r.added && r.failed == multiset{}
    ensures var s := ss[n + 1];
            && s.queue == [] && s.nTodo == 0 && s.fAllOk && s.round == NEW_ROUND && |s.threads| > 0
            && s.threads[0].Outside?
            && forall t :: 0 <= t < |s.threads| ==> !s.threads[t].Working?
  {
    var s, e := ss[n], es[n];
    RunInv(ss, es, limit, n);
    assert StepAt(ss, es, limit, n);
    BeforeInv(s, e);
    var b := Before(s, e);
    ReturnIsRight(b);
    assert s.round.(finished := b.round.finished) == b.round;
  }

  lemma ReturnIsRight(b: Queue)
    requires Inv(b) && Returns(b, 0)
    ensures b.fAllOk <==> b.round.ran == b.round.added && b.round.failed == multiset{}
    ensures forall t :: 0 <= t < |b.threads| ==> !b.threads[t].Working?
  {
    NobodyWorks(b);
    assert AllOk(b.threads);
    var empty: multiset<Check> := multiset{};
    assert multiset(b.queue) + empty + b.round.finished == b.round.finished;
    assert b.round.finished + empty == b.round.finished;
  }

  lemma RanWasAdded(queued: multiset<Check>, sum: Sum, r: Round)
    requires r.added == queued + sum.held + r.finished && r.ran <= r.finished + sum.dealt && sum.dealt <= sum.held
    ensures r.ran <= r.added
  {
    assert r.added == queued + (r.finished + sum.held);
  }

  /** At every moment of every run: no check runs more often than it was added, nTodo is what is queued or held,
    * and while the master sleeps unnotified some worker holds a batch whose completion will wake it.
    */
  lemma NoLostWakeUp(ss: seq<Queue>, es: seq<Event>, limit: nat, n: nat) returns (worker: nat)
    requires IsRun(ss, es, limit) && n < |ss|
    ensures ss[n].round.ran <= ss[n].round.added
    ensures ss[n].nTodo == |ss[n].queue| + |Total(ss[n].threads).held|
    ensures |ss[n].threads| > 0 && (ss[n].threads[0] == Asleep(false) ==>
              0 < worker < |ss[n].threads| && ss[n].threads[worker].Working? && ss[n].threads[worker].batch != [])
  {
    RunInv(ss, es, limit, n);
    TotalFacts(ss[n].threads);
    RanWasAdded(multiset(ss[n].queue), Total(ss[n].threads), ss[n].round);
    worker := SomeWorker(ss[n]);
  }

  lemma SomeWorker(s: Queue) returns (worker: nat)
    requires BatchesOk(s) && CountsOk(s) && MasterOk(s)
    ensures |s.threads| > 0 && (s.threads[0] == Asleep(false) ==>
              0 < worker < |s.threads| && s.threads[worker].Working? && s.threads[worker].batch != [])
  {
    worker := 0;
    if s.threads[0] == Asleep(false) {
      SomethingHeld(s);
      worker := SumHolder(Weights(s.threads));
      WorkerHolds(s.threads[worker]);
    }
  }

  lemma SomethingHeld(s: Queue)
    requires CountsOk(s) && MasterOk(s) && s.threads[0] == Asleep(false)
    ensures SumOf(Weights(s.threads)).held != multiset{}
  {
    assert s.queue == [] && s.nTodo != 0;
  }

  // ---------- Wait comes to an end ----------

  /** Work still to be done, in small steps. */
  ghost function Potential(s: Queue): int { 4 * |s.queue| + Total(s.threads).work }

  predicate Spurious(s: Queue, e: Event) {
    e.Wake? && e.t < |s.threads| && s.threads[e.t] == Asleep(false)
  }

  ghost predicate MasterInside(s: Queue) { |s.threads| > 0 && !s.threads[0].Outside? }

  ghost predicate AtRest(s: Queue) { forall t :: 0 <= t < |s.threads| ==> !s.threads[t].Locked? }

  /** As long as Wait has not returned some thread can go on without relying on a spurious wake-up. */
  lemma NeverStuck(s: Queue) returns (e: Event)
    requires Inv(s) && AtRest(s) && MasterInside(s)
    ensures Enabled(s, e) && !e.Add? && !Spurious(s, e)
  {
    var worker := SomeWorker(s);
    var t := if s.threads[0] == Asleep(false) then worker else 0;
    match s.threads[t]
    case Working(batch, next, _) => e := if next < |batch| then Execute(t, true) else Finish(t);
    case Asleep(_) => e := Wake(t);
  }

  lemma StepAtRest(s: Queue, e: Event, limit: nat, s': Queue)
    requires AtRest(s) && Step(s, e, limit, s')
    ensures AtRest(s')
  {
  }

  lemma {:induction false} SumWork(ws: seq<Sum>)
    requires forall i :: 0 <= i < |ws| ==> ws[i].work >= 0
    ensures SumOf(ws).work >= 0
  {
    if ws != [] { SumWork(ws[..|ws| - 1]); }
  }

  lemma PotentialBound(s: Queue)
    requires BatchesOk(s)
    ensures Potential(s) >= 0
  {
    SumWork(Weights(s.threads));
  }

  /** The decision does not create work, except that the returning master could come back. */
  lemma DecidePotential(s: Queue, t: nat, limit: nat)
    requires CanDecide(s, t, limit) && s.threads[t].Locked? && !Returns(s, t)
    ensures Potential(Decide(s, t, limit)) <= Potential(s)
  {
    if s.queue == [] {
      TotalQuiet(s.threads, t, Asleep(false));
    } else {
      var k := |s.queue| - BatchSize(limit, |s.queue|, s.nTotal, s.nIdle);
      TotalTake(s.threads, t, s.queue[k..], s.fAllOk);
    }
  }

  lemma CleanedPotential(s: Queue, t: nat)
    requires BatchesOk(s) && t < |s.threads| && s.threads[t].Working? && s.threads[t].next == |s.threads[t].batch|
    ensures Potential(Cleaned(s, t)) < Potential(s)
  {
    TotalDrop(s.threads, t);
    var s1 := Settled(s, t);
    if s1.nTodo == 0 && t != 0 && s1.threads[0].Asleep? { TotalQuiet(s1.threads, 0, Asleep(true)); }
  }

  /** While the master is inside Wait every step that is not a spurious wake-up uses up some potential. */
  lemma StepPotential(s: Queue, e: Event, limit: nat, s': Queue)
    requires Inv(s) && Step(s, e, limit, s') && MasterInside(s) && MasterInside(s')
    ensures Potential(s') <= Potential(s)
    ensures !Spurious(s, e) ==> Potential(s') < Potential(s)
  {
    match e
    case Execute(t, result) => TotalDeal(s.threads, t, result);
    case Enter(t) =>
      TotalQuiet(s.threads, t, Locked);
      DecidePotential(Before(s, e), t, limit);
    case Wake(t) =>
      TotalQuiet(s.threads, t, Locked);
      DecidePotential(Before(s, e), t, limit);
    case Finish(t) =>
      CleanedPotential(s, t);
      BeforeInv(s, e);
      DecidePotential(Before(s, e), t, limit);
  }

  ghost function Useful(ss: seq<Queue>, es: seq<Event>, i: nat, n: nat): nat
    requires i <= n <= |es| <= |ss|
    decreases n
  {
    if i == n then 0 else Useful(ss, es, i, n - 1) + Bit(!Spurious(ss[n - 1], es[n - 1]))
  }

  function Bit(b: bool): nat { if b then 1 else 0 }

  lemma PotentialInRun(ss: seq<Queue>, es: seq<Event>, limit: nat, n: nat)
    requires IsRun(ss, es, limit) && n < |es| && MasterInside(ss[n]) && MasterInside(ss[n + 1])
    ensures 0 <= Potential(ss[n + 1]) <= Potential(ss[n]) - Bit(!Spurious(ss[n], es[n]))
  {
    RunInv(ss, es, limit, n);
    assert StepAt(ss, es, limit, n);
    StepPotential(ss[n], es[n], limit, ss[n + 1]);
    StepInv(ss[n], es[n], limit, ss[n + 1]);
    PotentialBound(ss[n + 1]);
  }

  /** From any moment on, Wait returns after at most Potential further steps that are not spurious wake-ups. */
  lemma {:induction false} WaitEnds(ss: seq<Queue>, es: seq<Event>, limit: nat, i: nat, n: nat)
    requires IsRun(ss, es, limit) && i <= n <= |es|
    requires forall k :: i <= k <= n ==> MasterInside(ss[k])
    ensures Useful(ss, es, i, n) <= Potential(ss[i]) - Potential(ss[n]) <= Potential(ss[i])
    decreases n
  {
    if i == n {
      RunInv(ss, es, limit, n);
      PotentialBound(ss[n]);
    } else {
      WaitEnds(ss, es, limit, i, n - 1);
      PotentialInRun(ss, es, limit, n - 1);
    }
  }

  lemma {:induction false} RunAtRest(ss: seq<Queue>, es: seq<Event>, limit: nat, n: nat)
    requires IsRun(ss, es, limit) && n < |ss|
    ensures AtRest(ss[n])
  {
    if n > 0 {
      RunAtRest(ss, es, limit, n - 1);
      assert StepAt(ss, es, limit, n - 1);
      StepAtRest(ss[n - 1], es[n - 1], limit, ss[n]);
    }
  }

  /** In no run, however its threads interleave, does a deadlock keep the master inside Wait: the run goes on
    * with a step that is neither a spurious wake-up nor work from outside.
    */
  lemma NoDeadlock(ss: seq<Queue>, es: seq<Event>, limit: nat) returns (e: Event, s': Queue)
    requires IsRun(ss, es, limit) && MasterInside(ss[|es|])
    ensures IsRun(ss + [s'], es + [e], limit) && !e.Add? && !Spurious(ss[|es|], e)
  {
    var s := ss[|es|];
    RunInv(ss, es, limit, |es|);
    RunAtRest(ss, es, limit, |es|);
    e := NeverStuck(s);
    StepExists(s, e, limit);
    s' :| Step(s, e, limit, s');
    OneMoreStep(ss, es, limit, e, s');
  }

  lemma OneMoreStep(ss: seq<Queue>, es: seq<Event>, limit: nat, e: Event, s': Queue)
    requires IsRun(ss, es, limit) && Step(ss[|es|], e, limit, s')
    ensures IsRun(ss + [s'], es + [e], limit)
  {
    forall i | 0 <= i < |es + [e]| ensures StepAt(ss + [s'], es + [e], limit, i) {
      if i < |es| { assert StepAt(ss, es, limit, i); }
    }
  }

  /** The master leaves by no other way. */
  lemma LeavesByReturning(s: Queue, e: Event, limit: nat, s': Queue)
    requires Step(s, e, limit, s') && MasterInside(s) && !MasterInside(s')
    ensures WaitReturns(s, e)
  {
  }

  /** Every run that has the master inside Wait can be continued until Wait returns, within Potential many steps. */
  lemma {:induction false} WaitCanReturn(ss: seq<Queue>, es: seq<Event>, limit: nat)
    returns (ss': seq<Queue>, es': seq<Event>)
    requires IsRun(ss, es, limit) && MasterInside(ss[|es|])
    ensures IsRun(ss', es', limit) && ss <= ss' && es <= es' && es' != []
    ensures WaitReturns(ss'[|es'| - 1], es'[|es'| - 1])
    ensures |es'| - |es| <= Potential(ss[|es|]) + 1
    decreases Potential(ss[|es|])
  {
    ss', es' := OneStepNearer(ss, es, limit);
    if MasterInside(ss'[|es'|]) {
      ss', es' := WaitCanReturn(ss', es', limit);
    }
  }

  /** One step more, after which Wait has returned or the potential is smaller. */
  lemma OneStepNearer(ss: seq<Queue>, es: seq<Event>, limit: nat) returns (ss': seq<Queue>, es': seq<Event>)
    requires IsRun(ss, es, limit) && MasterInside(ss[|es|])
    ensures IsRun(ss', es', limit) && ss <= ss' && es <= es' && |es'| == |es| + 1 && Potential(ss[|es|]) >= 0
    ensures if MasterInside(ss'[|es'|]) then 0 <= Potential(ss'[|es'|]) < Potential(ss[|es|])
            else WaitReturns(ss'[|es|], es'[|es|])
  {
    var n := |es|;
    var e, s' := NoDeadlock(ss, es, limit);
    ss', es' := ss + [s'], es + [e];
    RunInv(ss, es, limit, n);
    PotentialBound(ss[n]);
    assert StepAt(ss', es', limit, n);
    if MasterInside(s') {
      PotentialInRun(ss', es', limit, n);
    } else {
      LeavesByReturning(ss[n], e, limit, s');
    }
  }
}

/** The two generations of the cuckoo cache (src/cuckoocache.h:190-215, 295-338) without slots: a set of young elements,
  * a set of old ones, and the number of insertions until the next scan. An ageing collects the old ones and makes the
  * young ones old.
  */
module CuckooGenerations {
  datatype Call<E, K> = Insert(e: E, replace: bool) | Contains(k: K, erase: bool) | Get(probe: E, drop: bool)

  datatype Gens<E> = Gens(young: set<E>, old_: set<E>, counter: nat)

  /** What an insertion came upon: elements of the same key that it replaced, the element of that key that is there
    * afterwards, and an element lost at the end of the walk.
    */
  datatype Event<E> = Event(replaced: set<E>, kept: E, lost: set<E>)

  ghost predicate Ages<E>(s: Gens<E>, epochSize: nat) { s.counter == 0 && |s.young| >= epochSize }

  /** The check that begins every insertion. */
  ghost function AfterCheck<E>(s: Gens<E>, epochSize: nat): Gens<E> {
    if s.counter != 0 then s.(counter := s.counter - 1)
    else if |s.young| >= epochSize then Gens({}, s.young, epochSize)
    else
      var missing := epochSize - |s.young|;
      s.(counter := if epochSize / 16 > missing then epochSize / 16 else missing)
  }

  ghost predicate InsertStep<E, K(!new)>(key: E -> K, epochSize: nat, s: Gens<E>, s': Gens<E>, e: E, replace: bool,
                                         ev: Event<E>)
  {
    var s1 := AfterCheck(s, epochSize);
    && s' == Gens(s1.young - ev.replaced + {ev.kept} - ev.lost, s1.old_ - ev.replaced - ev.lost, s1.counter)
    && key(ev.kept) == key(e) && (replace || ev.replaced == {} ==> ev.kept == e)
    && (forall x :: x in ev.replaced ==> key(x) == key(e))
    && |ev.lost| <= 1 && ev.lost <= s1.young + s1.old_ + {e} && (ev.replaced != {} ==> ev.lost == {})
  }

  ghost predicate LookupStep<E, K(!new)>(key: E -> K, s: Gens<E>, s': Gens<E>, k: K, erase: bool) {
    s' == if erase then Gens(Except(key, s.young, k), Except(key, s.old_, k), s.counter) else s
  }

  /** Without the elements of one key. */
  ghost function Except<E, K(!new)>(key: E -> K, s: set<E>, k: K): set<E> { set x | x in s && key(x) != k }

  ghost predicate Step<E, K(!new)>(key: E -> K, epochSize: nat, s: Gens<E>, s': Gens<E>, call: Call<E, K>,
                                   ev: Event<E>)
  {
    match call
    case Insert(e, replace) => InsertStep(key, epochSize, s, s', e, replace, ev)
    case Contains(k, erase) => LookupStep(key, s, s', k, erase)
    case Get(probe, drop) => LookupStep(key, s, s', key(probe), drop)
  }

  ghost predicate Trace<E, K(!new)>(key: E -> K, epochSize: nat, states: seq<Gens<E>>, calls: seq<Call<E, K>>,
                                    events: seq<Event<E>>)
  {
    && |states| == |calls| + 1 && |events| == |calls|
    && forall i :: 0 <= i < |calls| ==> Step(key, epochSize, states[i], states[i + 1], calls[i], events[i])
  }

  lemma TraceSnoc<E, K(!new)>(key: E -> K, epochSize: nat, states: seq<Gens<E>>, calls: seq<Call<E, K>>, n: nat,
                              events: seq<Event<E>>, s: Gens<E>, ev: Event<E>)
    requires n < |calls| && Trace(key, epochSize, states, calls[..n], events)
    requires Step(key, epochSize, states[n], s, calls[n], ev)
    ensures Trace(key, epochSize, states + [s], calls[..n + 1], events + [ev])
  {
    var states', events' := states + [s], events + [ev];
    forall i | 0 <= i <= n ensures Step(key, epochSize, states'[i], states'[i + 1], calls[i], events'[i]) {
      if i < n { assert calls[..n][i] == calls[i]; }
    }
  }

  // ---------- the laws ----------

  /** How many of the calls from i up to j began with an ageing. */
  ghost function Ageings<E, K>(epochSize: nat, states: seq<Gens<E>>, calls: seq<Call<E, K>>, i: nat, j: nat): nat
    requires i <= j <= |calls| < |states|
    decreases j
  {
    if i == j then 0
    else
      Ageings(epochSize, states, calls, i, j - 1)
      + if calls[j - 1].Insert? && Ages(states[j - 1], epochSize) then 1 else 0
  }

  /** The call inserts the key. */
  ghost predicate Inserts<E, K>(key: E -> K, call: Call<E, K>, k: K) { call.Insert? && key(call.e) == k }

  /** The call erases the key. */
  ghost predicate Erases<E, K>(key: E -> K, call: Call<E, K>, k: K) {
    match call
    case Insert(_, _) => false
    case Contains(k', erase) => erase && k' == k
    case Get(probe, drop) => drop && key(probe) == k
  }

  /** The call neither inserts nor erases the element's key, and does not lose the element. */
  ghost predicate Spares<E, K>(key: E -> K, call: Call<E, K>, ev: Event<E>, x: E) {
    !Inserts(key, call, key(x)) && !Erases(key, call, key(x)) && (call.Insert? ==> x !in ev.lost)
  }

  ghost predicate LeftAlone<E, K(!new)>(key: E -> K, calls: seq<Call<E, K>>, events: seq<Event<E>>, x: E, i: nat,
                                        j: nat)
    requires i <= j <= |calls| == |events|
  {
    forall m :: i <= m < j ==> Spares(key, calls[m], events[m], x)
  }

  /** An element that is inserted and not lost at once is young. */
  lemma InsertedIsYoung<E, K(!new)>(key: E -> K, epochSize: nat, s: Gens<E>, s': Gens<E>, e: E, replace: bool,
                                    ev: Event<E>)
    requires InsertStep(key, epochSize, s, s', e, replace, ev) && ev.kept !in ev.lost
    ensures ev.kept in s'.young
  {
  }

  lemma OneStep<E, K(!new)>(key: E -> K, epochSize: nat, s: Gens<E>, s': Gens<E>, call: Call<E, K>, ev: Event<E>, x: E)
    requires Step(key, epochSize, s, s', call, ev) && Spares(key, call, ev, x)
    ensures var aged := call.Insert? && Ages(s, epochSize);
            && (x in s'.young <==> x in s.young && !aged)
            && (x in s'.old_ <==> if aged then x in s.young else x in s.old_)
  {
  }

  /** The same with a count of ageings since the element was young. */
  lemma OneStepOn<E, K(!new)>(key: E -> K, epochSize: nat, s: Gens<E>, s': Gens<E>, call: Call<E, K>, ev: Event<E>,
                              x: E, n: nat)
    requires Step(key, epochSize, s, s', call, ev) && Spares(key, call, ev, x)
    requires (x in s.young <==> n == 0) && (x in s.old_ <==> n == 1)
    ensures var n' := n + if call.Insert? && Ages(s, epochSize) then 1 else 0;
            (x in s'.young <==> n' == 0) && (x in s'.old_ <==> n' == 1)
  {
    OneStep(key, epochSize, s, s', call, ev, x);
  }

  /** Between two ageings a young element that nobody touches stays young, and through one ageing it stays live. */
  lemma {:induction false} SurvivesOneAgeing<E, K(!new)>(
    key: E -> K, epochSize: nat, states: seq<Gens<E>>, calls: seq<Call<E, K>>, events: seq<Event<E>>, x: E, i: nat,
    j: nat)
    requires Trace(key, epochSize, states, calls, events) && i <= j <= |calls|
    requires x in states[i].young && x !in states[i].old_ && LeftAlone(key, calls, events, x, i, j)
    ensures var n := Ageings(epochSize, states, calls, i, j);
            (x in states[j].young <==> n == 0) && (x in states[j].old_ <==> n == 1)
    decreases j
  {
    if i < j {
      SurvivesOneAgeing(key, epochSize, states, calls, events, x, i, j - 1);
      var n := Ageings(epochSize, states, calls, i, j - 1);
      OneStepOn(key, epochSize, states[j - 1], states[j], calls[j - 1], events[j - 1], x, n);
    }
  }

  lemma OneStepAway<E, K(!new)>(key: E -> K, epochSize: nat, s: Gens<E>, s': Gens<E>, call: Call<E, K>, ev: Event<E>,
                                x: E)
    requires Step(key, epochSize, s, s', call, ev) && !Inserts(key, call, key(x))
    ensures var aged := call.Insert? && Ages(s, epochSize);
            && (x in s'.young ==> x in s.young && !aged)
            && (x in s'.old_ ==> if aged then x in s.young else x in s.old_)
  {
  }

  /** An element that is not inserted again is no longer young after one ageing and is collected by the second. */
  lemma {:induction false} CollectedByTheSecond<E, K(!new)>(
    key: E -> K, epochSize: nat, states: seq<Gens<E>>, calls: seq<Call<E, K>>, events: seq<Event<E>>, x: E, i: nat,
    j: nat)
    requires Trace(key, epochSize, states, calls, events) && i <= j <= |calls|
    requires forall m :: i <= m < j ==> !Inserts(key, calls[m], key(x))
    ensures Ageings(epochSize, states, calls, i, j) >= 1 ==> x !in states[j].young
    ensures Ageings(epochSize, states, calls, i, j) >= 2 ==> x !in states[j].young && x !in states[j].old_
    decreases j
  {
    if i < j {
      CollectedByTheSecond(key, epochSize, states, calls, events, x, i, j - 1);
      OneStepAway(key, epochSize, states[j - 1], states[j], calls[j - 1], events[j - 1], x);
    }
  }
}

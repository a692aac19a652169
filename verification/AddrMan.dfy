/** The address manager (src/addrman.cpp, src/addrman_impl.h): every operation keeps the tables consistent. */
module AddrMan {
  import opened Wrappers
  import opened AddrManModel
  import opened AddrManSpec

  const SET_TRIED_COLLISION_SIZE: nat := 10
  const REPLACEMENT := 4 * HOUR
  const TEST_WINDOW := 40 * MINUTE

  /** Ids are never used twice, and a remembered collision is with a filled slot. */
  ghost predicate Remembered(pl: Placement, s: State, collisions: set<int>, idCount: int) {
    && |collisions| <= SET_TRIED_COLLISION_SIZE
    && (forall id :: id in s.infos || id in collisions ==> id < idCount)
    && (forall id :: id in collisions && id in s.infos ==> pl.triedSlot(s.infos[id].service) in s.tried)
  }

  lemma RememberedKeeps(pl: Placement, s: State, t: State, collisions: set<int>, idCount: int)
    requires Remembered(pl, s, collisions, idCount) && Inherits(s, t) && s.tried.Keys <= t.tried.Keys
    ensures Remembered(pl, t, collisions, idCount)
  {
    forall id | id in t.infos
      ensures id < idCount && (id in collisions ==> pl.triedSlot(t.infos[id].service) in t.tried)
    {
      assert InheritsAt(s, t, id);
    }
  }

  /** Between and inside operations: everything but the absence of loose entries. */
  ghost predicate Sound(pl: Placement, s: State, nNew: int, nTried: int, collisions: set<int>, idCount: int) {
    Core(pl, s) && nNew == |NewIds(s)| && nTried == |TriedIds(s)| && Remembered(pl, s, collisions, idCount)
  }

  lemma TouchKeepsSound(pl: Placement, s: State, id: int, i: Info, nNew: int, nTried: int, collisions: set<int>,
                        idCount: int)
    requires Sound(pl, s, nNew, nTried, collisions, idCount) && id in s.infos && TimeOk(i)
    requires SamePlace(s.infos[id], i) && s.infos[id].randomPos == i.randomPos
    ensures Sound(pl, WithInfo(s, id, i), nNew, nTried, collisions, idCount) && Loose(WithInfo(s, id, i)) == Loose(s)
  {
    TouchKeeps(pl, s, id, i);
  }

  lemma CreateKeepsSound(pl: Placement, s: State, i: Info, nNew: int, nTried: int, collisions: set<int>, idCount: int)
    requires Sound(pl, s, nNew, nTried, collisions, idCount)
    requires i.service !in s.addrs && !i.inTried && i.refCount == 0 && TimeOk(i)
    ensures Sound(pl, Created(s, idCount, i), nNew + 1, nTried, collisions, idCount + 1)
    ensures Loose(Created(s, idCount, i)) == Loose(s) + {idCount} && Created(s, idCount, i).tried == s.tried
  {
    CreateKeeps(pl, s, idCount, i);
    OneFewer(NewIds(Created(s, idCount, i)), NewIds(s), idCount);
    CreatedRemembered(pl, s, i, collisions, idCount);
  }

  lemma CreatedRemembered(pl: Placement, s: State, i: Info, collisions: set<int>, idCount: int)
    requires Remembered(pl, s, collisions, idCount)
    ensures Remembered(pl, Created(s, idCount, i), collisions, idCount + 1)
  {
  }

  lemma RemoveKeepsSound(pl: Placement, s: State, id: int, nNew: int, nTried: int, collisions: set<int>, idCount: int)
    requires Sound(pl, s, nNew, nTried, collisions, idCount) && id in Loose(s)
    ensures Sound(pl, Removed(s, id), nNew - 1, nTried, collisions, idCount) && Loose(Removed(s, id)) == Loose(s) - {id}
    ensures Removed(s, id).tried == s.tried && Removed(s, id).news == s.news
  {
    RemoveKeeps(pl, s, id);
    RemovedTables(s, id);
    RemovedRemembered(pl, s, id, collisions, idCount);
    OneFewer(NewIds(s), NewIds(Removed(s, id)), id);
  }

  lemma RemovedTables(s: State, id: int)
    requires RandomOk(s) && id in s.infos
    ensures Removed(s, id).tried == s.tried && Removed(s, id).news == s.news
  {
    assert HasPosition(s, id) && RandomAt(s, |s.random| - 1);
  }

  lemma RemovedRemembered(pl: Placement, s: State, id: int, collisions: set<int>, idCount: int)
    requires Remembered(pl, s, collisions, idCount) && RandomOk(s) && id in s.infos
    ensures Remembered(pl, Removed(s, id), collisions, idCount)
  {
    RemovedTables(s, id);
    RemovedInherits(s, id);
    RememberedKeeps(pl, s, Removed(s, id), collisions, idCount);
  }

  lemma OneFewer(a: set<int>, b: set<int>, id: int)
    requires id in a && b == a - {id}
    ensures |b| == |a| - 1
  {
  }

  lemma NamedBy(pl: Placement, s: State, id: int)
    requires Core(pl, s) && id in s.infos
    ensures s.infos[id].service in s.addrs && s.addrs[s.infos[id].service] == id
  {
    assert Named(s, id);
  }

  lemma KnownBy(pl: Placement, s: State, svc: Service)
    requires Core(pl, s) && svc in s.addrs
    ensures s.addrs[svc] in s.infos && s.infos[s.addrs[svc]].service == svc
  {
    assert Known(s, svc);
  }

  lemma RemovedAddrs(s: State, id: int)
    requires RandomOk(s) && id in s.infos
    ensures Removed(s, id).addrs == s.addrs - {s.infos[id].service}
  {
    assert HasPosition(s, id) && RandomAt(s, |s.random| - 1);
  }

  lemma TakeKeepsSound(pl: Placement, s: State, slot: Slot, id: int, nNew: int, nTried: int, collisions: set<int>,
                       idCount: int)
    requires Sound(pl, s, nNew, nTried, collisions, idCount)
    requires id in NewIds(s) && !IsRef(s, slot, id) && s.infos[id].refCount < NEW_BUCKETS_PER_ADDRESS
    requires slot.bucket < NEW_BUCKET_COUNT && slot == pl.newSlot(s.infos[id].service, slot.bucket)
    ensures Sound(pl, Taken(pl, s, slot, id), nNew - |Lost(s, slot)|, nTried, collisions, idCount)
    ensures Loose(Taken(pl, s, slot, id)) == Loose(s) - {id} && Taken(pl, s, slot, id).tried == s.tried
    ensures Taken(pl, s, slot, id).news == s.news[slot := id]
  {
    TakeKeeps(pl, s, slot, id);
    TakenInherits(pl, s, slot, id);
    RememberedKeeps(pl, s, Taken(pl, s, slot, id), collisions, idCount);
    LostAreFewer(NewIds(s), NewIds(Taken(pl, s, slot, id)), Lost(s, slot));
  }

  lemma LostAreFewer(a: set<int>, b: set<int>, lost: set<int>)
    requires lost <= a && b == a - lost
    ensures |b| == |a| - |lost|
  {
    assert a == b + lost;
  }

  lemma MakeTriedKeepsSound(pl: Placement, s: State, id: int, nNew: int, nTried: int, collisions: set<int>,
                            idCount: int)
    requires Sound(pl, s, nNew, nTried, collisions, idCount) && Loose(s) == {}
    requires id in NewIds(s) && s.infos[id].refCount > 0 && s.infos[id].lastSuccess > 0
    ensures var t := MadeTried(pl, s, id);
            && Sound(pl, t, nNew - |NewIds(s)| + |NewIds(t)|, nTried - |TriedIds(s)| + |TriedIds(t)|, collisions,
                     idCount)
            && Loose(t) == {} && id in TriedIds(t) && s.tried.Keys <= t.tried.Keys
  {
    MakeTriedKeeps(pl, s, id);
    MadeTriedInherits(pl, s, id);
    RememberedKeeps(pl, s, MadeTried(pl, s, id), collisions, idCount);
  }

  lemma MadeTriedStaysNamed(pl: Placement, s: State, id: int)
    requires Core(pl, s) && Loose(s) == {}
    requires id in NewIds(s) && s.infos[id].refCount > 0 && s.infos[id].lastSuccess > 0
    ensures var t := MadeTried(pl, s, id);
            id in t.infos && s.infos[id].service in t.addrs && t.addrs[s.infos[id].service] == id
  {
    MakeTriedKeeps(pl, s, id);
    MadeTriedInherits(pl, s, id);
    assert InheritsAt(s, MadeTried(pl, s, id), id);
    NamedBy(pl, MadeTried(pl, s, id), id);
  }

  lemma MovedIsRight(pl: Placement, s: State, id: int, nNew: int, nTried: int, collisions: set<int>, idCount: int,
                     nNew': int, nTried': int)
    requires Sound(pl, s, nNew, nTried, collisions, idCount) && Loose(s) == {}
    requires id in NewIds(s) && s.infos[id].refCount > 0 && s.infos[id].lastSuccess > 0
    requires nNew' - |NewIds(MadeTried(pl, s, id))| == nNew - |NewIds(s)|
    requires nTried' - |TriedIds(MadeTried(pl, s, id))| == nTried - |TriedIds(s)|
    ensures var t := MadeTried(pl, s, id);
            && Sound(pl, t, nNew', nTried', collisions, idCount) && Loose(t) == {} && id in TriedIds(t)
            && s.tried.Keys <= t.tried.Keys && s.infos[id].service in t.addrs && t.addrs[s.infos[id].service] == id
  {
    MakeTriedKeepsSound(pl, s, id, nNew, nTried, collisions, idCount);
    MadeTriedStaysNamed(pl, s, id);
  }

  /** The collisions after one more was to be remembered. */
  function OneMore(collisions: set<int>, id: int): set<int> {
    collisions + if |collisions| < SET_TRIED_COLLISION_SIZE then {id} else {}
  }

  lemma OneMoreKeepsSound(pl: Placement, s: State, nNew: int, nTried: int, collisions: set<int>, idCount: int, id: int)
    requires Sound(pl, s, nNew, nTried, collisions, idCount)
    requires id in s.infos && pl.triedSlot(s.infos[id].service) in s.tried
    ensures Sound(pl, s, nNew, nTried, OneMore(collisions, id), idCount)
  {
  }

  lemma Contested(pl: Placement, s: State, nNew: int, nTried: int, collisions: set<int>, idCount: int, id: int)
    requires Sound(pl, s, nNew, nTried, collisions, idCount) && id in collisions && id in s.infos
    ensures var slot := pl.triedSlot(s.infos[id].service); slot in s.tried && s.tried[slot] in s.infos
    ensures s.infos[id].service in s.addrs && s.addrs[s.infos[id].service] == id
  {
    assert TriedAt(pl, s, pl.triedSlot(s.infos[id].service)) && Named(s, id);
  }

  lemma OneLessKeepsSound(pl: Placement, s: State, nNew: int, nTried: int, collisions: set<int>, idCount: int, id: int)
    requires Sound(pl, s, nNew, nTried, collisions, idCount) && id in collisions
    ensures Sound(pl, s, nNew, nTried, collisions - {id}, idCount)
  {
  }

  /** An operation and the time or clock reading it is given. */
  datatype Call =
    | Announce(list: seq<Address>, source: Net, penalty: int, now: int)
    | Good(svc: Service, testBeforeEvict: bool, time: int)
    | Attempt(svc: Service, countFailure: bool, time: int)
    | Connected(svc: Service, time: int)
    | SetServices(svc: Service, services: set<nat>)
    | GetAddr(maxAddresses: nat, maxPct: nat, network: Option<nat>, now: int)
    | ResolveCollisions(now: int)
    | SelectTriedCollision

  lemma {:induction false} OddsPositive(n: nat)
    ensures Odds(n) >= 1
  {
    if n > 0 { OddsPositive(n - 1); }
  }

  lemma RefCountOk(pl: Placement, s: State, id: int)
    requires Core(pl, s) && id in s.infos
    ensures 0 <= s.infos[id].refCount <= NEW_BUCKETS_PER_ADDRESS && TimeOk(s.infos[id])
  {
    if s.infos[id].inTried { assert InTried(pl, s, id); } else { assert RefCounted(s, id); }
  }

  lemma NoDraw(pl: Placement, s: State, svc: Service)
    requires Core(pl, s)
    ensures DrawnFrom(s, svc, 0)
  {
    if svc in s.addrs {
      KnownBy(pl, s, svc);
      RefCountOk(pl, s, s.addrs[svc]);
      OddsPositive(s.infos[s.addrs[svc]].refCount);
    }
  }

  /** What is known about an entry after a success. */
  function Fresh(i: Info, time: int): Info { i.(lastSuccess := time, lastTry := time, attempts := 0) }

  /** A success at a known address, when nothing stands in its way: its entry is or becomes a tried one. */
  ghost predicate Succeeds(pl: Placement, s: State, t: State, id: int, time: int) {
    && id in s.infos
    && var u := WithInfo(s, id, Fresh(s.infos[id], time));
       if s.infos[id].inTried then t == u
       else Core(pl, u) && s.infos[id].refCount > 0 && t == MadeTried(pl, u, id)
  }

  /** The tried slot of an entry is taken, and what is there has to be tested first. */
  ghost predicate Blocked(pl: Placement, s: State, id: int, testBeforeEvict: bool) {
    testBeforeEvict && id in s.infos && !s.infos[id].inTried && pl.triedSlot(s.infos[id].service) in s.tried
  }

  ghost predicate GoodStep(pl: Placement, s: State, t: State, collisions: set<int>, collisions': set<int>, id: int,
                           testBeforeEvict: bool, time: int)
  {
    if Blocked(pl, s, id, testBeforeEvict) then
      && t == WithInfo(s, id, Fresh(s.infos[id], time))
      && collisions' == OneMore(collisions, id)
    else Succeeds(pl, s, t, id, time) && collisions' == collisions
  }

  lemma GoodPraises(pl: Placement, s: State, t: State, collisions: set<int>, collisions': set<int>, svc: Service,
                    testBeforeEvict: bool, time: int)
    requires Core(pl, s) && Loose(s) == {} && svc in s.addrs && time > 0
    requires GoodStep(pl, s, t, collisions, collisions', s.addrs[svc], testBeforeEvict, time)
    ensures Praised(s, t, svc, time)
  {
    var id := s.addrs[svc];
    KnownBy(pl, s, svc);
    var i := Fresh(s.infos[id], time);
    if s.infos[id].inTried || Blocked(pl, s, id, testBeforeEvict) {
      PraiseInPlace(s, id, i, svc, time);
    } else {
      TouchSets(s, id, i);
      PraiseAndMove(pl, s, id, i, svc, time);
    }
  }

  lemma GoodMoves(pl: Placement, s: State, t: State, collisions: set<int>, collisions': set<int>, svc: Service,
                  testBeforeEvict: bool, time: int)
    requires Core(pl, s) && svc in s.addrs && s.addrs[svc] in s.infos && !s.infos[s.addrs[svc]].inTried
    requires !(testBeforeEvict && pl.triedSlot(svc) in s.tried)
    requires GoodStep(pl, s, t, collisions, collisions', s.addrs[svc], testBeforeEvict, time)
    ensures TablesMoved(pl, s, t, s.addrs[svc])
  {
    var id := s.addrs[svc];
    KnownBy(pl, s, svc);
    TouchSets(s, id, Fresh(s.infos[id], time));
    TouchedAndMoved(pl, s, id, Fresh(s.infos[id], time));
  }

  lemma TouchSets(s: State, id: int, i: Info)
    requires id in s.infos && SamePlace(s.infos[id], i)
    ensures Loose(WithInfo(s, id, i)) == Loose(s) && NewIds(WithInfo(s, id, i)) == NewIds(s)
  {
  }

  predicate Replaceable(there: Info, now: int) { now - there.lastSuccess >= REPLACEMENT }

  predicate Settled(there: Info, newcomer: Info, now: int) {
    if !Replaceable(there, now) then true
    else if now - there.lastTry < REPLACEMENT then now - there.lastTry > MINUTE
    else now - newcomer.lastSuccess > TEST_WINDOW
  }

  /** Who keeps a slot that two entries want: the one there if it was reached within four hours; otherwise the newcomer
    * once the one there has been tried in that time for more than a minute, or could not be tested for forty minutes
    * after the newcomer was reached.
    */
  lemma SettledWhen(there: Info, newcomer: Info, now: int)
    ensures Replaceable(there, now) <==> there.lastSuccess <= now - 14400
    ensures Settled(there, newcomer, now) <==>
              || there.lastSuccess > now - 14400
              || now - 14400 < there.lastTry < now - 60
              || (there.lastTry <= now - 14400 && newcomer.lastSuccess < now - 2400)
  {
  }

  /** A remembered collision is dropped: its newcomer is gone or not valid, or it is settled who has the slot. */
  ghost predicate Drops(pl: Placement, net: Network, s: State, id: int, now: int) {
    id in s.infos && net.valid(s.infos[id].service) ==>
      && var slot := pl.triedSlot(s.infos[id].service);
         slot in s.tried && s.tried[slot] in s.infos && Settled(s.infos[s.tried[slot]], s.infos[id], now)
  }

  /** The newcomer takes the slot. */
  ghost predicate Evicts(pl: Placement, net: Network, s: State, id: int, now: int) {
    && Drops(pl, net, s, id, now) && id in s.infos && net.valid(s.infos[id].service)
    && Replaceable(s.infos[s.tried[pl.triedSlot(s.infos[id].service)]], now)
  }

  ghost predicate Resolves(pl: Placement, net: Network, s: State, t: State, id: int, now: int) {
    if Evicts(pl, net, s, id, now) then Succeeds(pl, s, t, id, now) else t == s
  }

  /** Collisions resolved one after the other, in the order of their ids: the states in between, and which are left. */
  ghost predicate ResolvedInOrder(pl: Placement, net: Network, states: seq<State>, order: seq<int>, left: set<int>,
                                  now: int)
    decreases |order|
  {
    && |states| == |order| + 1
    && if order == [] then left == {}
       else
         var n := |order| - 1;
         var id := order[n];
         && ResolvedInOrder(pl, net, states[..n + 1], order[..n], left - {id}, now)
         && (forall k :: k in order[..n] ==> k < id)
         && Resolves(pl, net, states[n], states[n + 1], id, now)
         && (id in left <==> !Drops(pl, net, states[n], id, now))
  }

  lemma {:induction false} LeftInOrder(pl: Placement, net: Network, states: seq<State>, order: seq<int>, left: set<int>,
                                       now: int)
    requires ResolvedInOrder(pl, net, states, order, left, now)
    ensures forall id :: id in left ==> id in order
    decreases |order|
  {
    if order != [] {
      var n := |order| - 1;
      LeftInOrder(pl, net, states[..n + 1], order[..n], left - {order[n]}, now);
      assert forall id :: id in left ==> id in left - {order[n]} || id == order[n];
    }
  }

  lemma OneMoreResolved(pl: Placement, net: Network, states: seq<State>, order: seq<int>, left: set<int>, now: int,
                        id: int, t: State)
    requires ResolvedInOrder(pl, net, states, order, left, now) && (forall k :: k in order ==> k < id)
    requires Resolves(pl, net, states[|order|], t, id, now)
    ensures ResolvedInOrder(pl, net, states + [t], order + [id],
                            left + if Drops(pl, net, states[|order|], id, now) then {} else {id}, now)
  {
    var left' := left + if Drops(pl, net, states[|order|], id, now) then {} else {id};
    LeftInOrder(pl, net, states, order, left, now);
    assert left' - {id} == left;
    assert (states + [t])[..|order| + 1] == states && (order + [id])[..|order|] == order;
  }

  lemma Smallest(s: set<int>) returns (x: int)
    requires s != {}
    ensures x in s && forall k :: k in s ==> x <= k
    decreases |s|
  {
    SomeMember(s);
    var y :| y in s;
    x := y;
    if s != {y} {
      var z := Smallest(s - {y});
      x := if z < y then z else y;
      assert forall k :: k in s ==> k in s - {y} || k == y;
    }
  }

  /** In the middle of resolving all collisions, those in todo still to come. */
  ghost predicate HalfWay(pl: Placement, net: Network, all: set<int>, states: seq<State>, order: seq<int>,
                          collisions: set<int>, todo: set<int>, now: int)
  {
    && todo <= collisions <= all
    && (forall id :: id in order <==> id in all && id !in todo)
    && (forall id, k :: id in order && k in todo ==> id < k)
    && ResolvedInOrder(pl, net, states, order, collisions - todo, now)
  }

  lemma NothingResolved(pl: Placement, net: Network, all: set<int>, s: State, now: int)
    ensures HalfWay(pl, net, all, [s], [], all, all, now)
  {
  }

  lemma AllResolved(pl: Placement, net: Network, all: set<int>, states: seq<State>, order: seq<int>,
                    collisions: set<int>, now: int)
    requires HalfWay(pl, net, all, states, order, collisions, {}, now)
    ensures ResolvedInOrder(pl, net, states, order, collisions, now)
    ensures (forall id :: id in order <==> id in all) && collisions <= all
  {
    assert collisions - {} == collisions;
  }

  lemma OneStepFurther(pl: Placement, net: Network, all: set<int>, states: seq<State>, order: seq<int>,
                       collisions: set<int>, todo: set<int>, now: int, id: int, t: State)
    requires HalfWay(pl, net, all, states, order, collisions, todo, now)
    requires id in todo && (forall k :: k in todo ==> id <= k) && Resolves(pl, net, states[|order|], t, id, now)
    ensures HalfWay(pl, net, all, states + [t], order + [id],
                    collisions - if Drops(pl, net, states[|order|], id, now) then {id} else {}, todo - {id}, now)
  {
    var gone := if Drops(pl, net, states[|order|], id, now) then {id} else {};
    OneMoreResolved(pl, net, states, order, collisions - todo, now, id, t);
    assert collisions - gone - (todo - {id}) == collisions - todo + ({id} - gone);
    assert {id} - gone == if Drops(pl, net, states[|order|], id, now) then {} else {id};
  }

  predicate PositiveTime(c: Call) {
    match c
    case Good(_, _, time) => time > 0
    case Attempt(_, _, time) => time >= 0
    case ResolveCollisions(now) => now > 0
    case _ => true
  }

  function AddressOf(i: Info): Address { Address(i.service, i.time, i.services) }

  predicate Eligible(net: Network, i: Info, network: Option<nat>, now: int) {
    (network.Some? ==> net.class_(i.service) == network.value) && !IsTerrible(i, now)
  }

  lemma SomeMember(s: set<int>)
    requires s != {}
    ensures exists x :: x in s
  {
    assert (forall x: int :: x !in s) ==> s == {};
  }

  /** The same entries, but for their places in the random vector. */
  ghost predicate SameButOrder(a: map<int, Info>, b: map<int, Info>) {
    a.Keys == b.Keys && forall id :: id in a ==> b[id] == a[id].(randomPos := b[id].randomPos)
  }

  lemma ShuffleIsUnseen(s: State, p: nat, q: nat)
    requires RandomOk(s) && p <= q < |s.random|
    ensures RandomAt(s, p) && RandomAt(s, q) && SameButOrder(s.infos, Swapped(s, p, q).infos)
    ensures Swapped(s, p, q).random[..p] == s.random[..p] && Inherits(s, Swapped(s, p, q))
  {
    assert RandomAt(s, p) && RandomAt(s, q);
  }

  lemma ShuffleKeepsSound(pl: Placement, s: State, p: nat, q: nat, nNew: int, nTried: int, collisions: set<int>,
                          idCount: int)
    requires Sound(pl, s, nNew, nTried, collisions, idCount) && p <= q < |s.random|
    ensures RandomAt(s, p) && RandomAt(s, q)
    ensures Sound(pl, Swapped(s, p, q), nNew, nTried, collisions, idCount) && Loose(Swapped(s, p, q)) == Loose(s)
  {
    SwapKeeps(pl, s, p, q);
    ShuffleIsUnseen(s, p, q);
    SwapIsAlike(s, p, q);
    RememberedKeeps(pl, s, Swapped(s, p, q), collisions, idCount);
  }

  /** How many addresses may be handed out. */
  function Limit(size: nat, maxAddresses: nat, maxPct: nat): (n: nat)
    ensures (maxAddresses != 0 ==> n <= maxAddresses) && (if maxPct == 0 then n <= size else 100 * n <= maxPct * size)
    ensures n == maxAddresses || if maxPct == 0 then n == size else 100 * (n + 1) > maxPct * size
  {
    var n := if maxPct != 0 then maxPct * size / 100 else size;
    if maxAddresses != 0 && maxAddresses < n then maxAddresses else n
  }

  ghost predicate PickedFrom(net: Network, base: map<int, Info>, ids: seq<int>, r: seq<Address>, network: Option<nat>,
                             now: int)
  {
    && |ids| == |r|
    && (forall k :: 0 <= k < |r| ==>
          ids[k] in base && Eligible(net, base[ids[k]], network, now) && r[k] == AddressOf(base[ids[k]]))
    && (forall j, k :: 0 <= j < k < |ids| ==> ids[j] != ids[k])
  }

  ghost predicate AllPicked(net: Network, base: map<int, Info>, ids: seq<int>, network: Option<nat>, now: int) {
    forall id :: id in base && Eligible(net, base[id], network, now) ==> id in ids
  }

  /** The picks are the eligible entries of a list. */
  ghost predicate Picks(net: Network, base: map<int, Info>, list: seq<int>, ids: seq<int>, r: seq<Address>,
                        network: Option<nat>, now: int)
  {
    && PickedFrom(net, base, ids, r, network, now)
    && (forall id :: id in ids ==> id in list)
    && (forall id :: id in list && id in base && Eligible(net, base[id], network, now) ==> id in ids)
  }

  /** The next entry of the list is looked at. */
  lemma PicksNext(net: Network, base: map<int, Info>, list: seq<int>, ids: seq<int>, r: seq<Address>,
                  network: Option<nat>, now: int,
                  id: int, i: Info)
    requires Picks(net, base, list, ids, r, network, now) && id in base && id !in list
    requires i == base[id].(randomPos := i.randomPos)
    ensures var ids', r' := if Eligible(net, i, network, now) then ids + [id] else ids,
                            if Eligible(net, i, network, now) then r + [AddressOf(i)] else r;
            Picks(net, base, list + [id], ids', r', network, now)
  {
    assert Eligible(net, i, network, now) == Eligible(net, base[id], network, now);
    assert AddressOf(i) == AddressOf(base[id]);
  }

  lemma PlaceIsNew(pl: Placement, s: State, n: nat)
    requires Core(pl, s) && n < |s.random|
    ensures s.random[n] in s.infos && s.random[n] !in s.random[..n]
  {
    assert RandomAt(s, n);
    forall p | 0 <= p < n ensures s.random[p] != s.random[n] { assert RandomAt(s, p); }
  }

  lemma EveryonePlaced(pl: Placement, s: State)
    requires Core(pl, s)
    ensures forall id :: id in s.infos ==> id in s.random
  {
    forall id | id in s.infos ensures id in s.random { assert HasPosition(s, id); }
  }

  class AddrMan {
    const place: nat -> Placement
    const net: Network

    var key: nat
    var infos: map<int, Info>
    var addrs: map<Service, int>
    var random: seq<int>
    var tried: map<Slot, int>
    var news: map<Slot, int>
    var nTried: int
    var nNew: int
    var idCount: int
    var lastGood: int
    var collisions: set<int>

    function Pl(): Placement
      reads this
    {
      place(key)
    }

    ghost function S(): State
      reads this
    {
      State(infos, addrs, random, tried, news)
    }

    ghost predicate Valid()
      reads this
    {
      Sound(Pl(), S(), nNew, nTried, collisions, idCount) && Loose(S()) == {}
    }

    constructor (place: nat -> Placement, net: Network, key: nat)
      requires forall k :: place(k).Ok()
      ensures Valid() && S() == State(map[], map[], [], map[], map[]) && this.key == key && this.place == place
    {
      this.place, this.net, this.key := place, net, key;
      infos, addrs, random, tried, news := map[], map[], [], map[], map[];
      nTried, nNew, idCount, lastGood, collisions := 0, 0, 0, 1, {};
    }

    // ---------- small steps ----------

    method Find(svc: Service) returns (r: Option<int>)
      ensures AddrsOk(S()) ==> r == if svc in addrs then Some(addrs[svc]) else None
      ensures r.Some? ==> r.value in infos && svc in addrs && r.value == addrs[svc]
    {
      if svc !in addrs || addrs[svc] !in infos {
        assert AddrsOk(S()) && svc in addrs ==> Known(S(), svc);
        return None;
      }
      r := Some(addrs[svc]);
    }

    method Create(addr: Address, source: Net) returns (id: int)
      modifies `infos, `addrs, `random, `idCount
      ensures id == old(idCount) && idCount == id + 1
      ensures S() ==
                Created(old(S()), id, Info(addr.service, addr.time, addr.services, source, 0, 0, 0, 0, 0, false, -1))
    {
      id := idCount;
      idCount := idCount + 1;
      infos := infos[id := Info(addr.service, addr.time, addr.services, source, 0, 0, 0, 0, 0, false, -1)];
      addrs := addrs[addr.service := id];
      infos := infos[id := infos[id].(randomPos := |random|)];
      random := random + [id];
    }

    method SwapRandom(p: nat, q: nat)
      requires p < |random| && q < |random| && random[p] in infos && random[q] in infos
      modifies `infos, `random
      ensures S() == Swapped(old(S()), p, q)
    {
      if p == q {
        return;
      }
      var i, j := random[p], random[q];
      infos := infos[i := infos[i].(randomPos := q)];
      infos := infos[j := infos[j].(randomPos := p)];
      random := random[p := j];
      random := random[q := i];
    }

    method Delete(id: int)
      requires RandomOk(S()) && id in infos && !infos[id].inTried && infos[id].refCount == 0
      modifies `infos, `addrs, `random, `nNew
      ensures S() == Removed(old(S()), id) && nNew == old(nNew) - 1
    {
      assert HasPosition(S(), id) && RandomAt(S(), |random| - 1);
      SwapRandom(infos[id].randomPos, |random| - 1);
      random := random[..|random| - 1];
      addrs := addrs - {infos[id].service};
      infos := infos - {id};
      nNew := nNew - 1;
    }

    method ClearNew(slot: Slot)
      requires Core(Pl(), S())
      modifies `infos, `addrs, `random, `news, `nNew
      ensures S() == Cleared(Pl(), old(S()), slot) && nNew == old(nNew) - |Lost(old(S()), slot)|
    {
      if slot in news {
        var id := news[slot];
        DropRefKeeps(Pl(), S(), slot);
        infos := infos[id := infos[id].(refCount := infos[id].refCount - 1)];
        news := news - {slot};
        if infos[id].refCount == 0 {
          Delete(id);
        }
      }
    }

    /** Removes the entry from all new buckets. */
    method LeaveNew(id: int)
      requires id in infos
      modifies `infos, `news
      ensures S() == Unlisted(Pl(), old(S()), id, Pl().newBucket(old(infos)[id].service, old(infos)[id].source), 0)
    {
      var pl, svc := Pl(), infos[id].service;
      var start := pl.newBucket(svc, infos[id].source);
      ghost var goal := Unlisted(pl, S(), id, start, 0);
      var n := 0;
      while n < NEW_BUCKET_COUNT
        invariant n <= NEW_BUCKET_COUNT && id in infos && infos[id].service == svc
        invariant Unlisted(pl, S(), id, start, n) == goal
      {
        var done := LeaveBucket(id, start, n, goal);
        if done {
          return;
        }
        n := n + 1;
      }
    }

    method LeaveBucket(id: int, start: nat, n: nat, ghost goal: State) returns (done: bool)
      requires id in infos && n < NEW_BUCKET_COUNT && Unlisted(Pl(), S(), id, start, n) == goal
      modifies `infos, `news
      ensures done ==> S() == goal
      ensures !done ==> && id in infos && infos[id].service == old(infos)[id].service
                        && Unlisted(Pl(), S(), id, start, n + 1) == goal
    {
      UnlistedStep(Pl(), S(), id, start, n);
      done := DropIfRef(Pl().newSlot(infos[id].service, (start + n) % NEW_BUCKET_COUNT), id);
    }

    method DropIfRef(slot: Slot, id: int) returns (last: bool)
      requires id in infos
      modifies `infos, `news
      ensures S() == if IsRef(old(S()), slot, id) then DroppedRef(old(S()), slot) else old(S())
      ensures last <==> IsRef(old(S()), slot, id) && infos[id].refCount == 0
    {
      if slot in news && news[slot] == id {
        news := news - {slot};
        infos := infos[id := infos[id].(refCount := infos[id].refCount - 1)];
        return infos[id].refCount == 0;
      }
      last := false;
    }

    /** Moves an entry from the new table to the tried table. */
    method MakeTried(id: int)
      requires Core(Pl(), S()) && Loose(S()) == {} && id in NewIds(S()) && infos[id].lastSuccess > 0
               && infos[id].refCount > 0
      modifies `infos, `addrs, `random, `news, `tried, `nNew, `nTried
      ensures S() == MadeTried(Pl(), old(S()), id)
      ensures nNew - |NewIds(S())| == old(nNew) - |NewIds(old(S()))|
      ensures nTried - |TriedIds(S())| == old(nTried) - |TriedIds(old(S()))|
    {
      MakeTriedCounts(Pl(), S(), id);
      ghost var unlisted := AfterUnlisting(Pl(), S(), id);
      LeaveNew(id);
      assert S() == unlisted;
      nNew := nNew - 1;
      Promote(id);
    }

    method Promote(id: int)
      requires Core(Pl(), S()) && id in Loose(S())
      modifies `infos, `addrs, `random, `news, `tried, `nNew, `nTried
      ensures S() == Promoted(Pl(), old(S()), id)
      ensures var slot := Pl().triedSlot(old(infos)[id].service);
              if slot in old(tried) then nNew == old(nNew) - |LostTo(Pl(), old(S()), id)| + 1 && nTried == old(nTried)
              else nNew == old(nNew) && nTried == old(nTried) + 1
    {
      var slot := Pl().triedSlot(infos[id].service);
      if slot in tried {
        assert TriedAt(Pl(), S(), slot);
        DisplaceSpares(Pl(), S(), tried[slot], id);
        MoveBack(slot);
      }
      tried := tried[slot := id];
      nTried := nTried + 1;
      infos := infos[id := infos[id].(inTried := true)];
    }

    /** The entry in a slot of the tried table goes back to the new table. */
    method MoveBack(slot: Slot)
      requires Core(Pl(), S()) && slot in tried && tried[slot] in TriedIds(S())
      modifies `infos, `addrs, `random, `news, `tried, `nNew, `nTried
      ensures S() == Displaced(Pl(), old(S()), old(tried)[slot]) && nTried == old(nTried) - 1
      ensures nNew == old(nNew) + 1 -
                |Lost(LeftTried(Pl(), old(S()), old(tried)[slot]), HomeSlot(Pl(), old(infos)[old(tried)[slot]]))|
    {
      var id := tried[slot];
      LeaveKeeps(Pl(), S(), id);
      LeaveTried(slot);
      var target := Pl().newSlot(infos[id].service, Pl().newBucket(infos[id].service, infos[id].source));
      LooseNoRef(Pl(), S(), target, id);
      ClearLoose(Pl(), S(), target, id);
      ClearNew(target);
      PlaceNew(target, id);
    }

    method LeaveTried(slot: Slot)
      requires Core(Pl(), S()) && slot in tried && tried[slot] in TriedIds(S())
      modifies `infos, `tried, `nTried
      ensures S() == LeftTried(Pl(), old(S()), old(tried)[slot]) && nTried == old(nTried) - 1
    {
      var id := tried[slot];
      assert TriedAt(Pl(), S(), slot);
      infos := infos[id := infos[id].(inTried := false)];
      tried := tried - {slot};
      nTried := nTried - 1;
    }

    method PlaceNew(slot: Slot, id: int)
      requires id in infos && infos[id].refCount == 0
      modifies `infos, `news, `nNew
      ensures S() == AddedRef(old(S()), slot, id) && nNew == old(nNew) + 1
    {
      infos := infos[id := infos[id].(refCount := 1)];
      news := news[slot := id];
      nNew := nNew + 1;
    }

    // ---------- operations ----------

    /** New statistics about a known address. */
    method Touch(id: int, i: Info)
      requires Valid() && id in infos && SamePlace(infos[id], i) && infos[id].randomPos == i.randomPos && TimeOk(i)
      modifies `infos
      ensures Valid() && infos == old(infos)[id := i]
    {
      TouchKeepsSound(Pl(), S(), id, i, nNew, nTried, collisions, idCount);
      infos := infos[id := i];
    }

    /** What an announcement says about a known address. */
    method Renew(id: int, addr: Address, penalty: int, now: int)
      requires Valid() && id in infos
      modifies `infos
      ensures Valid()
      ensures infos ==
                old(infos)[id := old(infos)[id].(time := Renewed(old(infos)[id].time, addr.time, penalty, now),
                                                 services := old(infos)[id].services + addr.services)]
    {
      var i := infos[id];
      assert TimeOk(i);
      var interval := if now - addr.time < 24 * HOUR then HOUR else 24 * HOUR;
      if i.time < addr.time - interval - penalty {
        i := i.(time := if addr.time - penalty > 0 then addr.time - penalty else 0);
      }
      Touch(id, i.(services := i.services + addr.services));
    }

    /** An announcement of a known address; says whether it should get one more reference. */
    method Refresh(id: int, addr: Address, penalty: int, now: int) returns (more: bool, ghost draw: nat)
      requires Valid() && id in infos
      modifies `infos
      ensures Valid() && id in infos
      ensures infos ==
                old(infos)[id := old(infos)[id].(time := Renewed(old(infos)[id].time, addr.time, penalty, now),
                                                 services := old(infos)[id].services + addr.services)]
      ensures 0 <= infos[id].refCount <= NEW_BUCKETS_PER_ADDRESS && draw < Odds(infos[id].refCount)
      ensures more <==> && addr.time > infos[id].time && !infos[id].inTried
                        && infos[id].refCount < NEW_BUCKETS_PER_ADDRESS && draw == 0
    {
      Renew(id, addr, penalty, now);
      RefCountOk(Pl(), S(), id);
      OddsPositive(infos[id].refCount);
      if addr.time <= infos[id].time || infos[id].inTried || infos[id].refCount == NEW_BUCKETS_PER_ADDRESS {
        return false, 0;
      }
      more, draw := Drawn(infos[id].refCount);
    }

    /** The more references there are, the less likely is one more. */
    method Drawn(refCount: nat) returns (lucky: bool, ghost draw: nat)
      ensures draw < Odds(refCount) && (lucky <==> draw == 0)
    {
      var factor := 1;
      for n := 0 to refCount
        invariant factor == Odds(n) >= 1
      {
        factor := factor * 2;
      }
      var drawn := 0;
      if factor > 1 {
        drawn :| 0 <= drawn < factor;
      }
      lucky, draw := drawn == 0, drawn;
    }

    /** An entry for an address that is not known yet, without references so far. */
    method Introduce(addr: Address, source: Net, penalty: int) returns (id: int)
      requires Valid() && addr.service !in addrs
      modifies `infos, `addrs, `random, `idCount, `nNew
      ensures Sound(Pl(), S(), nNew, nTried, collisions, idCount) && Loose(S()) == {id}
      ensures id == old(idCount) == idCount - 1 && id in infos && infos[id].service == addr.service
      ensures S() == Created(old(S()), id, Info(addr.service, Discounted(addr.time, penalty), addr.services, source,
                                                0, 0, 0, 0, 0, false, -1))
    {
      CreateKeepsSound(Pl(), S(), Info(addr.service, Discounted(addr.time, penalty), addr.services, source,
                                       0, 0, 0, 0, 0, false, -1), nNew, nTried, collisions, idCount);
      id := Make(addr, source, penalty);
      nNew := nNew + 1;
    }

    method Make(addr: Address, source: Net, penalty: int) returns (id: int)
      modifies `infos, `addrs, `random, `idCount
      ensures id == old(idCount) == idCount - 1
      ensures S() == Created(old(S()), id, Info(addr.service, Discounted(addr.time, penalty), addr.services, source,
                                                0, 0, 0, 0, 0, false, -1))
    {
      id := Create(addr, source);
      var time := if infos[id].time - penalty > 0 then infos[id].time - penalty else 0;
      UpdateTwice(old(infos), id, infos[id], infos[id].(time := time));
      infos := infos[id := infos[id].(time := time)];
    }

    /** Whether the entry should get the slot: it is free, or what is there is worth less. */
    method Deserves(id: int, slot: Slot, now: int) returns (r: bool)
      requires Core(Pl(), S()) && id in infos
      ensures r <==> Deserving(S(), slot, id, now)
    {
      if slot !in news {
        return true;
      }
      if news[slot] == id {
        return false;
      }
      assert NewAt(Pl(), S(), slot);
      var there := infos[news[slot]];
      r := IsTerrible(there, now) || (there.refCount > 1 && infos[id].refCount == 0);
    }

    /** Tries to give the entry a slot of the new table; an entry that is left without any is deleted. */
    method Reference(id: int, slot: Slot, now: int) returns (inserted: bool)
      requires Sound(Pl(), S(), nNew, nTried, collisions, idCount) && Loose(S()) <= {id}
      requires id in NewIds(S()) && infos[id].refCount < NEW_BUCKETS_PER_ADDRESS
      requires slot.bucket < NEW_BUCKET_COUNT && slot == Pl().newSlot(infos[id].service, slot.bucket)
      modifies `infos, `addrs, `random, `news, `nNew
      ensures Valid() && Placed(Pl(), old(S()), S(), id, slot, now, inserted)
    {
      inserted := Deserves(id, slot, now);
      if inserted {
        TakeSlot(slot, id);
      } else if infos[id].refCount == 0 {
        DeleteLoose(id);
      }
    }

    method DeleteLoose(id: int)
      requires Sound(Pl(), S(), nNew, nTried, collisions, idCount) && Loose(S()) == {id}
      modifies `infos, `addrs, `random, `nNew
      ensures Valid() && S() == Removed(old(S()), id)
    {
      assert id in Loose(S());
      RemoveKeepsSound(Pl(), S(), id, nNew, nTried, collisions, idCount);
      Delete(id);
    }

    method TakeSlot(slot: Slot, id: int)
      requires Sound(Pl(), S(), nNew, nTried, collisions, idCount) && Loose(S()) <= {id} && !IsRef(S(), slot, id)
      requires id in NewIds(S()) && infos[id].refCount < NEW_BUCKETS_PER_ADDRESS
      requires slot.bucket < NEW_BUCKET_COUNT && slot == Pl().newSlot(infos[id].service, slot.bucket)
      modifies `infos, `addrs, `random, `news, `nNew
      ensures Valid() && S() == Taken(Pl(), old(S()), slot, id)
    {
      TakeKeepsSound(Pl(), S(), slot, id, nNew, nTried, collisions, idCount);
      Replace(slot, id);
    }

    method Replace(slot: Slot, id: int)
      requires Core(Pl(), S()) && id in infos && !IsRef(S(), slot, id)
      modifies `infos, `addrs, `random, `news, `nNew
      ensures S() == Taken(Pl(), old(S()), slot, id) && nNew == old(nNew) - |Lost(old(S()), slot)|
      ensures id in infos && infos[id].service == old(infos)[id].service
    {
      ClearSpares(Pl(), S(), slot, id);
      ClearNew(slot);
      infos := infos[id := infos[id].(refCount := infos[id].refCount + 1)];
      news := news[slot := id];
    }

    /** Finds or makes the entry for an announced address, and says whether it should be given a slot. */
    method Enlist(addr: Address, source: Net, penalty: int, now: int)
      returns (id: int, goOn: bool, ghost draw: nat)
      requires Valid() && net.routable(addr.service)
      modifies `infos, `addrs, `random, `nNew, `idCount
      ensures Sound(Pl(), S(), nNew, nTried, collisions, idCount)
      ensures Enlisted(Pl(), net, old(S()), S(), id, addr, source, penalty, now, draw, goOn)
    {
      var found := Find(addr.service);
      if found.Some? {
        id := found.value;
        assert Known(S(), addr.service);
        goOn, draw := Refresh(id, addr, penalty, now);
      } else {
        id := Introduce(addr, source, penalty);
        assert id in Loose(S());
        goOn, draw := true, 0;
      }
    }

    /** One announced address: when it gets a slot of the new table, and what is known of every entry afterwards. */
    method AddSingle(addr: Address, source: Net, timePenalty: int, now: int) returns (inserted: bool, ghost draw: nat)
      requires Valid()
      modifies `infos, `addrs, `random, `news, `nNew, `idCount
      ensures Valid() && AddStep(Pl(), net, old(S()), S(), addr, source, timePenalty, now, draw, inserted)
    {
      if !net.routable(addr.service) {
        NoDraw(Pl(), S(), addr.service);
        Unheard(Pl(), net, S(), addr, source, timePenalty, now, 0);
        return false, 0;
      }
      inserted, draw := AddRoutable(addr, source, timePenalty, now);
    }

    method AddRoutable(addr: Address, source: Net, timePenalty: int, now: int)
      returns (inserted: bool, ghost draw: nat)
      requires Valid() && net.routable(addr.service)
      modifies `infos, `addrs, `random, `news, `nNew, `idCount
      ensures Valid() && AddStep(Pl(), net, old(S()), S(), addr, source, timePenalty, now, draw, inserted)
    {
      ghost var pl, s := Pl(), S();
      var penalty := if net.netOf(addr.service) == source then 0 else timePenalty;
      var id, goOn;
      id, goOn, draw := Enlist(addr, source, penalty, now);
      ghost var u := S();
      inserted := Place(id, goOn, addr.service, source, now);
      Announced(pl, net, s, u, S(), id, addr, source, timePenalty, now, draw, goOn, inserted);
    }

    method Place(id: int, goOn: bool, svc: Service, source: Net, now: int) returns (inserted: bool)
      requires Sound(Pl(), S(), nNew, nTried, collisions, idCount) && Loose(S()) <= {id} && (!goOn ==> Loose(S()) == {})
      requires goOn ==>
                 id in NewIds(S()) && infos[id].refCount < NEW_BUCKETS_PER_ADDRESS && infos[id].service == svc
      modifies `infos, `addrs, `random, `news, `nNew
      ensures Valid()
      ensures if goOn then
                Placed(Pl(), old(S()), S(), id, Pl().newSlot(svc, Pl().newBucket(svc, source)), now, inserted)
              else S() == old(S()) && !inserted
    {
      inserted := false;
      if goOn {
        SlotFits(Pl(), svc, source);
        inserted := Reference(id, Pl().newSlot(svc, Pl().newBucket(svc, source)), now);
      }
    }

    /** Announced addresses, one after the other. */
    method Add(vAddr: seq<Address>, source: Net, timePenalty: int, now: int)
      returns (some: bool, ghost states: seq<State>, ghost draws: seq<nat>, ghost inserted: seq<bool>)
      requires Valid()
      modifies `infos, `addrs, `random, `news, `nNew, `idCount
      ensures Valid() && AddSteps(Pl(), net, states, vAddr, source, timePenalty, now, draws, inserted)
      ensures states[0] == old(S()) && states[|vAddr|] == S()
      ensures some <==> true in inserted
      ensures tried == old(tried) && (!some ==> news == old(news) && addrs == old(addrs))
    {
      var added := 0;
      states, draws, inserted := [S()], [], [];
      for i := 0 to |vAddr|
        invariant Valid() && AddSteps(Pl(), net, states, vAddr[..i], source, timePenalty, now, draws, inserted)
        invariant states[0] == old(S()) && states[i] == S() && added >= 0 && (added > 0 <==> true in inserted)
      {
        var one;
        ghost var draw;
        one, draw := AddSingle(vAddr[i], source, timePenalty, now);
        added := added + if one then 1 else 0;
        OneMoreStep(Pl(), net, states, vAddr, i, source, timePenalty, now, draws, inserted, S(), draw, one);
        states, draws, inserted := states + [S()], draws + [draw], inserted + [one];
      }
      assert vAddr[..|vAddr|] == vAddr;
      StepsKeep(Pl(), net, states, vAddr, source, timePenalty, now, draws, inserted, |vAddr|);
      some := added > 0;
    }

    /** Moves an entry to the tried table; no slot of that table is ever left empty by it. */
    method MoveToTried(id: int)
      requires Valid() && id in NewIds(S()) && infos[id].lastSuccess > 0
      modifies `infos, `addrs, `random, `news, `tried, `nNew, `nTried
      ensures Valid() && id in infos && infos[id].inTried && old(tried).Keys <= tried.Keys
      ensures old(infos)[id].service in addrs && addrs[old(infos)[id].service] == id
      ensures old(infos)[id].refCount > 0 && S() == MadeTried(Pl(), old(S()), id)
    {
      ghost var s, new0, tried0 := S(), nNew, nTried;
      NotLoose(Pl(), s, id);
      MakeTried(id);
      MovedIsRight(Pl(), s, id, new0, tried0, collisions, idCount, nNew, nTried);
    }

    /** A success; the statistics and the tables afterwards, entry by entry and slot by slot. */
    method Good(svc: Service, testBeforeEvict: bool, time: int)
      requires Valid() && time > 0
      modifies `infos, `addrs, `random, `news, `tried, `nNew, `nTried, `lastGood, `collisions
      ensures Valid() && old(tried).Keys <= tried.Keys && lastGood == time
      ensures if svc in old(addrs) then
                GoodStep(Pl(), old(S()), S(), old(collisions), collisions, old(addrs)[svc], testBeforeEvict, time)
              else S() == old(S()) && collisions == old(collisions)
      ensures svc in old(addrs) && !(testBeforeEvict && Pl().triedSlot(svc) in old(tried)) ==>
                svc in addrs && addrs[svc] in infos && infos[addrs[svc]].inTried
      ensures svc in old(addrs) ==> Praised(old(S()), S(), svc, time) && old(addrs)[svc] in old(infos)
      ensures svc in old(addrs) && !old(infos)[old(addrs)[svc]].inTried
              && !(testBeforeEvict && Pl().triedSlot(svc) in old(tried)) ==>
                TablesMoved(Pl(), old(S()), S(), old(addrs)[svc])
    {
      ghost var pl, s, was := Pl(), S(), collisions;
      Reached(svc, testBeforeEvict, time);
      if svc in s.addrs {
        KnownBy(pl, s, svc);
        GoodPraises(pl, s, S(), was, collisions, svc, testBeforeEvict, time);
        if !s.infos[s.addrs[svc]].inTried && !(testBeforeEvict && pl.triedSlot(svc) in s.tried) {
          GoodMoves(pl, s, S(), was, collisions, svc, testBeforeEvict, time);
        }
      }
    }

    method Reached(svc: Service, testBeforeEvict: bool, time: int)
      requires Valid() && time > 0
      modifies `infos, `addrs, `random, `news, `tried, `nNew, `nTried, `lastGood, `collisions
      ensures Valid() && old(tried).Keys <= tried.Keys && lastGood == time
      ensures svc in old(addrs) && !(testBeforeEvict && Pl().triedSlot(svc) in old(tried)) ==>
                svc in addrs && addrs[svc] in infos && infos[addrs[svc]].inTried
      ensures if svc in old(addrs) then
                GoodStep(Pl(), old(S()), S(), old(collisions), collisions, old(addrs)[svc], testBeforeEvict, time)
              else S() == old(S()) && collisions == old(collisions)
    {
      lastGood := time;
      var found := Find(svc);
      if found.Some? {
        KnownBy(Pl(), S(), svc);
        Settle(found.value, testBeforeEvict, time);
      }
    }

    /** What a success means for a known address. */
    method Settle(id: int, testBeforeEvict: bool, time: int)
      requires Valid() && id in infos && time > 0 && infos[id].service in addrs && addrs[infos[id].service] == id
      modifies `infos, `addrs, `random, `news, `tried, `nNew, `nTried, `collisions
      ensures Valid() && old(tried).Keys <= tried.Keys
      ensures var svc := old(infos)[id].service;
              !(testBeforeEvict && Pl().triedSlot(svc) in old(tried)) ==>
                svc in addrs && addrs[svc] in infos && infos[addrs[svc]].inTried
      ensures GoodStep(Pl(), old(S()), S(), old(collisions), collisions, id, testBeforeEvict, time)
    {
      Touch(id, Fresh(infos[id], time));
      if !infos[id].inTried {
        SettleNew(id, testBeforeEvict);
      }
    }

    method SettleNew(id: int, testBeforeEvict: bool)
      requires Valid() && id in NewIds(S()) && infos[id].lastSuccess > 0
      modifies `infos, `addrs, `random, `news, `tried, `nNew, `nTried, `collisions
      ensures Valid() && old(tried).Keys <= tried.Keys
      ensures var svc := old(infos)[id].service;
              !(testBeforeEvict && Pl().triedSlot(svc) in old(tried)) ==>
                svc in addrs && addrs[svc] in infos && infos[addrs[svc]].inTried
      ensures if Blocked(Pl(), old(S()), id, testBeforeEvict) then
                S() == old(S()) && collisions == OneMore(old(collisions), id)
              else
                && old(infos)[id].refCount > 0 && S() == MadeTried(Pl(), old(S()), id)
                && collisions == old(collisions)
    {
      if testBeforeEvict && Pl().triedSlot(infos[id].service) in tried {
        Remember(id);
      } else {
        MoveToTried(id);
      }
    }

    method Remember(id: int)
      requires Valid() && id in infos && Pl().triedSlot(infos[id].service) in tried
      modifies `collisions
      ensures Valid() && S() == old(S()) && collisions == OneMore(old(collisions), id)
    {
      OneMoreKeepsSound(Pl(), S(), nNew, nTried, collisions, idCount, id);
      if |collisions| < SET_TRIED_COLLISION_SIZE {
        collisions := collisions + {id};
      }
    }

    /** A failure counts once between two successes of anyone. */
    method Attempt(svc: Service, countFailure: bool, time: int)
      requires Valid() && time >= 0
      modifies `infos
      ensures Valid() && (svc !in addrs ==> infos == old(infos))
      ensures svc in addrs ==>
                && addrs[svc] in old(infos)
                && var was := old(infos)[addrs[svc]];
                   var counts := countFailure && was.lastCountAttempt < lastGood;
                   infos == old(infos)[addrs[svc] := was.(
                              lastTry := time,
                              lastCountAttempt := if counts then time else was.lastCountAttempt,
                              attempts := was.attempts + if counts then 1 else 0)]
    {
      var found := Find(svc);
      if found.None? {
        return;
      }
      var i := infos[found.value];
      assert TimeOk(i);
      i := i.(lastTry := time);
      if countFailure && i.lastCountAttempt < lastGood {
        i := i.(lastCountAttempt := time, attempts := i.attempts + 1);
      }
      Touch(found.value, i);
    }

    method Connected(svc: Service, time: int)
      requires Valid()
      modifies `infos
      ensures Valid() && (svc !in addrs ==> infos == old(infos))
      ensures svc in addrs ==>
                && addrs[svc] in old(infos)
                && var was := old(infos)[addrs[svc]];
                   infos == old(infos)[addrs[svc] := was.(
                              time := if time - was.time > 20 * MINUTE then time else was.time)]
    {
      var found := Find(svc);
      if found.Some? {
        var i := infos[found.value];
        assert TimeOk(i);
        if time - i.time > 20 * MINUTE {
          Touch(found.value, i.(time := time));
        }
      }
    }

    method SetServices(svc: Service, services: set<nat>)
      requires Valid()
      modifies `infos
      ensures Valid() && (svc !in addrs ==> infos == old(infos))
      ensures svc in addrs ==>
                && addrs[svc] in old(infos)
                && infos == old(infos)[addrs[svc] := old(infos)[addrs[svc]].(services := services)]
    {
      var found := Find(svc);
      if found.Some? {
        assert TimeOk(infos[found.value]);
        Touch(found.value, infos[found.value].(services := services));
      }
    }

    ghost predicate IsTried(svc: Service)
      reads this
    {
      svc in addrs && addrs[svc] in infos && infos[addrs[svc]].inTried
    }

    method Judge(there: Info, newcomer: Info, now: int) returns (erase: bool)
      ensures erase <==> Settled(there, newcomer, now)
    {
      if now - there.lastSuccess < REPLACEMENT {
        erase := true;
      } else if now - there.lastTry < REPLACEMENT {
        erase := now - there.lastTry > MINUTE;
      } else {
        erase := now - newcomer.lastSuccess > TEST_WINDOW;
      }
    }

    /** What is to become of one remembered collision: the newcomer takes the slot unless the entry there had a
      * recent success, and is kept waiting while that entry may still be tested.
      */
    method ResolveOne(id: int, now: int) returns (erase: bool)
      requires Valid() && id in collisions && now > 0
      modifies `infos, `addrs, `random, `news, `tried, `nNew, `nTried, `lastGood, `collisions
      ensures Valid() && collisions == old(collisions) && old(tried).Keys <= tried.Keys
      ensures Resolves(Pl(), net, old(S()), S(), id, now) && (erase <==> Drops(Pl(), net, old(S()), id, now))
      ensures Evicts(Pl(), net, old(S()), id, now) ==> IsTried(old(infos)[id].service)
    {
      if id !in infos {
        return true;
      }
      if !net.valid(infos[id].service) {
        return true;
      }
      Contested(Pl(), S(), nNew, nTried, collisions, idCount, id);
      if Pl().triedSlot(infos[id].service) in tried {
        erase := Contest(id, now);
      } else {
        assert false; // the slot of a remembered collision is never empty
      }
    }

    method Contest(id: int, now: int) returns (erase: bool)
      requires Valid() && now > 0 && id in infos && net.valid(infos[id].service)
      requires infos[id].service in addrs && addrs[infos[id].service] == id
      requires var slot := Pl().triedSlot(infos[id].service); slot in tried && tried[slot] in infos
      modifies `infos, `addrs, `random, `news, `tried, `nNew, `nTried, `lastGood, `collisions
      ensures Valid() && collisions == old(collisions) && old(tried).Keys <= tried.Keys
      ensures Resolves(Pl(), net, old(S()), S(), id, now) && (erase <==> Drops(Pl(), net, old(S()), id, now))
      ensures Evicts(Pl(), net, old(S()), id, now) ==> IsTried(old(infos)[id].service)
    {
      var there := infos[tried[Pl().triedSlot(infos[id].service)]];
      erase := Judge(there, infos[id], now);
      if erase && now - there.lastSuccess >= REPLACEMENT {
        Reached(infos[id].service, false, now);
      }
    }

    /** All remembered collisions, in the order of their ids; what becomes of one depends on those before it. */
    method ResolveCollisions(now: int) returns (ghost order: seq<int>, ghost states: seq<State>)
      requires Valid() && now > 0
      modifies `infos, `addrs, `random, `news, `tried, `nNew, `nTried, `lastGood, `collisions
      ensures Valid() && old(tried).Keys <= tried.Keys
      ensures (forall id :: id in order <==> id in old(collisions)) && collisions <= old(collisions)
      ensures ResolvedInOrder(Pl(), net, states, order, collisions, now)
      ensures states[0] == old(S()) && states[|order|] == S()
    {
      var todo := collisions;
      order, states := [], [S()];
      NothingResolved(Pl(), net, collisions, S(), now);
      while todo != {}
        invariant Valid() && old(tried).Keys <= tried.Keys
        invariant HalfWay(Pl(), net, old(collisions), states, order, collisions, todo, now)
        invariant states[0] == old(S()) && states[|order|] == S()
        decreases |todo|
      {
        ghost var was := collisions;
        var id := ResolveNext(todo, now);
        OneStepFurther(Pl(), net, old(collisions), states, order, was, todo, now, id, S());
        order, states, todo := order + [id], states + [S()], todo - {id};
      }
      AllResolved(Pl(), net, old(collisions), states, order, collisions, now);
    }

    /** One turn of the loop: the collision with the smallest id. */
    method ResolveNext(todo: set<int>, now: int) returns (id: int)
      requires Valid() && now > 0 && todo != {} && todo <= collisions
      modifies `infos, `addrs, `random, `news, `tried, `nNew, `nTried, `lastGood, `collisions
      ensures Valid() && old(tried).Keys <= tried.Keys && id in todo && forall k :: k in todo ==> id <= k
      ensures Resolves(Pl(), net, old(S()), S(), id, now)
      ensures collisions == old(collisions) - if Drops(Pl(), net, old(S()), id, now) then {id} else {}
    {
      ghost var x := Smallest(todo);
      id :| id in todo && forall k :: k in todo ==> id <= k;
      var erase := ResolveOne(id, now);
      if erase {
        OneLessKeepsSound(Pl(), S(), nNew, nTried, collisions, idCount, id);
        collisions := collisions - {id};
      }
    }

    /** The tried entry that a remembered collision, any one of them, is with; the slot looked up is never empty. */
    method SelectTriedCollision() returns (r: Option<Info>, ghost chosen: int)
      requires Valid()
      modifies `collisions
      ensures Valid()
      ensures old(collisions) == {} ==> r == None && collisions == {}
      ensures old(collisions) != {} && chosen !in infos ==>
                chosen in old(collisions) && r == None && collisions == old(collisions) - {chosen}
      ensures old(collisions) != {} && chosen in infos ==>
                && chosen in collisions && collisions == old(collisions)
                && var slot := Pl().triedSlot(infos[chosen].service);
                   slot in tried && tried[slot] in infos && infos[tried[slot]].inTried && r == Some(infos[tried[slot]])
    {
      if collisions == {} {
        return None, 0;
      }
      SomeMember(collisions);
      var id :| id in collisions;
      chosen := id;
      if id !in infos {
        OneLessKeepsSound(Pl(), S(), nNew, nTried, collisions, idCount, id);
        collisions := collisions - {id};
        return None, id;
      }
      var slot := Pl().triedSlot(infos[id].service);
      assert TriedAt(Pl(), S(), slot);
      r := Some(infos[tried[slot]]);
    }

    /** Swaps two places of the random vector, which nobody outside can see. */
    method Shuffle(p: nat, q: nat)
      requires Valid() && p <= q < |random|
      modifies `infos, `random
      ensures Valid() && |random| == |old(random)| && random[..p] == old(random)[..p]
      ensures SameButOrder(old(infos), infos)
    {
      ShuffleKeepsSound(Pl(), S(), p, q, nNew, nTried, collisions, idCount);
      ShuffleIsUnseen(S(), p, q);
      SwapRandom(p, q);
    }

    /** Some addresses of good quality, in random order: none twice, and all there are if that is not too many. */
    method GetAddr(maxAddresses: nat, maxPct: nat, network: Option<nat>, now: int)
      returns (r: seq<Address>, ghost ids: seq<int>)
      requires Valid()
      modifies `infos, `random
      ensures Valid() && SameButOrder(old(infos), infos)
      ensures |r| <= Limit(|old(random)|, maxAddresses, maxPct)
      ensures PickedFrom(net, old(infos), ids, r, network, now)
      ensures |r| < Limit(|old(random)|, maxAddresses, maxPct) ==>
                AllPicked(net, old(infos), ids, network, now)
      ensures forall k :: 0 <= k < |r| ==>
                && ids[k] in old(infos) && !IsTerrible(old(infos)[ids[k]], now)
                && (network.Some? ==> net.class_(r[k].service) == network.value)
                && r[k].service == old(infos)[ids[k]].service && r[k].time == old(infos)[ids[k]].time
                && r[k].services == old(infos)[ids[k]].services
      ensures |r| < Limit(|old(random)|, maxAddresses, maxPct) ==>
                forall id :: id in old(infos) && !IsTerrible(old(infos)[id], now) ==>
                  id in ids || (network.Some? && net.class_(old(infos)[id].service) != network.value)
    {
      var nodes := |random|;
      if maxPct != 0 {
        nodes := maxPct * nodes / 100;
      }
      if maxAddresses != 0 && maxAddresses < nodes {
        nodes := maxAddresses;
      }
      r, ids := Pick(nodes, network, now);
    }

    /** The loop of GetAddr. */
    method Pick(nodes: nat, network: Option<nat>, now: int) returns (r: seq<Address>, ghost ids: seq<int>)
      requires Valid()
      modifies `infos, `random
      ensures Valid() && SameButOrder(old(infos), infos) && |r| <= nodes
      ensures PickedFrom(net, old(infos), ids, r, network, now)
      ensures |r| < nodes ==> AllPicked(net, old(infos), ids, network, now)
    {
      ghost var base, all := infos, random;
      r, ids := [], [];
      var n := 0;
      while n < |random| && |r| < nodes
        invariant Valid() && SameButOrder(base, infos) && n <= |random| == |all| && |r| <= nodes
        invariant Picks(net, base, random[..n], ids, r, network, now)
      {
        r, ids := PickNext(n, base, r, ids, network, now);
        n := n + 1;
      }
      if |r| < nodes {
        assert random[..n] == random;
        EveryonePlaced(Pl(), S());
      }
    }

    method PickNext(n: nat, ghost base: map<int, Info>, r: seq<Address>, ghost ids: seq<int>, network: Option<nat>,
                    now: int)
      returns (r': seq<Address>, ghost ids': seq<int>)
      requires Valid() && n < |random| && SameButOrder(base, infos)
      requires Picks(net, base, random[..n], ids, r, network, now)
      modifies `infos, `random
      ensures Valid() && |random| == |old(random)| && SameButOrder(base, infos) && |r'| <= |r| + 1
      ensures Picks(net, base, random[..n + 1], ids', r', network, now)
    {
      ghost var list := random[..n];
      var id, i := Draw(n, base);
      PicksNext(net, base, list, ids, r, network, now, id, i);
      if network.Some? && net.class_(i.service) != network.value {
        return r, ids;
      }
      if IsTerrible(i, now) {
        return r, ids;
      }
      return r + [Address(i.service, i.time, i.services)], ids + [id];
    }

    /** Moves some entry from behind to place n. */
    method Draw(n: nat, ghost base: map<int, Info>) returns (id: int, i: Info)
      requires Valid() && n < |random| && SameButOrder(base, infos)
      modifies `infos, `random
      ensures Valid() && |random| == |old(random)| && SameButOrder(base, infos)
      ensures random[..n + 1] == old(random)[..n] + [id] && id in base && id !in old(random)[..n]
      ensures i == base[id].(randomPos := i.randomPos)
    {
      var q :| n <= q < |random|;
      Shuffle(n, q);
      PlaceIsNew(Pl(), S(), n);
      id := random[n];
      i := infos[id];
    }

    method Perform(c: Call)
      requires Valid() && PositiveTime(c)
      modifies this
      ensures Valid() && old(tried).Keys <= tried.Keys && key == old(key)
    {
      match c
      case ResolveCollisions(now) => var _, _ := ResolveCollisions(now);
      case SelectTriedCollision => var _, _ := SelectTriedCollision();
      case Good(svc, test, time) => Good(svc, test, time);
      case _ => PerformPlain(c);
    }

    method PerformPlain(c: Call)
      requires Valid() && PositiveTime(c) && !c.ResolveCollisions? && !c.SelectTriedCollision? && !c.Good?
      modifies this
      ensures Valid() && old(tried).Keys <= tried.Keys && key == old(key)
    {
      match c
      case Announce(list, source, penalty, now) => var _, _, _, _ := Add(list, source, penalty, now);
      case Attempt(svc, count, time) => Attempt(svc, count, time);
      case Connected(svc, time) => Connected(svc, time);
      case SetServices(svc, services) => SetServices(svc, services);
      case GetAddr(most, percent, network, now) => var _, _ := GetAddr(most, percent, network, now);
    }

    /** Any run of operations after construction. */
    method Run(calls: seq<Call>)
      requires Valid() && forall i :: 0 <= i < |calls| ==> PositiveTime(calls[i])
      modifies this
      ensures Valid() && old(tried).Keys <= tried.Keys && key == old(key)
    {
      for i := 0 to |calls|
        invariant Valid() && old(tried).Keys <= tried.Keys && key == old(key)
      {
        Perform(calls[i]);
      }
    }
  }
}

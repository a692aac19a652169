/** The tables of the address manager as one value (src/addrman_impl.h), the steps that the operations in
  * src/addrman.cpp are made of, and the invariant that every step keeps.
  */
module AddrManModel {
  const TRIED_BUCKET_COUNT: nat := 256
  const NEW_BUCKET_COUNT: nat := 1024
  const BUCKET_SIZE: nat := 64
  const NEW_BUCKETS_PER_ADDRESS: nat := 8

  type Service = nat
  type Net = nat

  datatype Slot = Slot(bucket: nat, position: nat)

  /** One entry: what is known about an address, and where it is in the tables. */
  datatype Info = Info(
    service: Service, time: int, services: set<nat>, source: Net,
    lastTry: int, lastCountAttempt: int, lastSuccess: int, attempts: int,
    refCount: int, inTried: bool, randomPos: int)

  /** The secret key and the address map decide where an address may go: one slot of the tried table, one new bucket
    * for every source, and one position in every new bucket.
    */
  datatype Placement = Placement(triedSlot: Service -> Slot, newBucket: (Service, Net) -> nat,
                                 newSlot: (Service, nat) -> Slot) {
    ghost predicate Ok() {
      && (forall svc :: triedSlot(svc).bucket < TRIED_BUCKET_COUNT && triedSlot(svc).position < BUCKET_SIZE)
      && (forall svc, src :: newBucket(svc, src) < NEW_BUCKET_COUNT)
      && (forall svc, b :: newSlot(svc, b).bucket == b && newSlot(svc, b).position < BUCKET_SIZE)
    }
  }

  /** The hashes before they are reduced to the table sizes. */
  datatype Hashes = Hashes(tried: Service -> nat, new_: (Service, Net) -> nat, position: (bool, nat, Service) -> nat)

  function Reduce(h: Hashes): (r: Placement)
    ensures r.Ok()
  {
    Placement(
      (svc: Service) => var b := h.tried(svc) % TRIED_BUCKET_COUNT; Slot(b, h.position(false, b, svc) % BUCKET_SIZE),
      (svc: Service, src: Net) => h.new_(svc, src) % NEW_BUCKET_COUNT,
      (svc: Service, b: nat) => Slot(b, h.position(true, b, svc) % BUCKET_SIZE))
  }

  /** The filled slots of the two tables are maps to ids. */
  datatype State = State(
    infos: map<int, Info>, addrs: map<Service, int>, random: seq<int>,
    tried: map<Slot, int>, news: map<Slot, int>)

  // ---------- the invariant ----------

  ghost predicate RandomAt(s: State, p: nat)
    requires p < |s.random|
  {
    s.random[p] in s.infos && s.infos[s.random[p]].randomPos == p
  }

  ghost predicate HasPosition(s: State, id: int)
    requires id in s.infos
  {
    0 <= s.infos[id].randomPos < |s.random| && s.random[s.infos[id].randomPos] == id
  }

  ghost predicate RandomOk(s: State) {
    && (forall id :: id in s.infos ==> HasPosition(s, id))
    && (forall p :: 0 <= p < |s.random| ==> RandomAt(s, p))
  }

  ghost predicate Named(s: State, id: int)
    requires id in s.infos
  {
    s.infos[id].service in s.addrs && s.addrs[s.infos[id].service] == id
  }

  ghost predicate Known(s: State, svc: Service)
    requires svc in s.addrs
  {
    s.addrs[svc] in s.infos && s.infos[s.addrs[svc]].service == svc
  }

  ghost predicate AddrsOk(s: State) {
    && (forall id :: id in s.infos ==> Named(s, id))
    && (forall svc :: svc in s.addrs ==> Known(s, svc))
  }

  ghost predicate TriedAt(pl: Placement, s: State, slot: Slot)
    requires slot in s.tried
  {
    s.tried[slot] in s.infos && s.infos[s.tried[slot]].inTried && pl.triedSlot(s.infos[s.tried[slot]].service) == slot
  }

  ghost predicate InTried(pl: Placement, s: State, id: int)
    requires id in s.infos
  {
    var slot := pl.triedSlot(s.infos[id].service);
    s.infos[id].refCount == 0 && slot in s.tried && s.tried[slot] == id
  }

  ghost predicate TriedOk(pl: Placement, s: State) {
    && (forall slot :: slot in s.tried ==> TriedAt(pl, s, slot))
    && (forall id :: id in s.infos && s.infos[id].inTried ==> InTried(pl, s, id))
  }

  ghost predicate NewAt(pl: Placement, s: State, slot: Slot)
    requires slot in s.news
  {
    && s.news[slot] in s.infos && !s.infos[s.news[slot]].inTried
    && slot.bucket < NEW_BUCKET_COUNT && pl.newSlot(s.infos[s.news[slot]].service, slot.bucket) == slot
  }

  /** The slots of the new table that refer to an entry. */
  ghost function Refs(news: map<Slot, int>, id: int): set<Slot> {
    set slot | slot in news && news[slot] == id
  }

  ghost predicate RefCounted(s: State, id: int)
    requires id in s.infos
  {
    s.infos[id].refCount == |Refs(s.news, id)| <= NEW_BUCKETS_PER_ADDRESS
  }

  ghost predicate NewsOk(pl: Placement, s: State) {
    && (forall slot :: slot in s.news ==> NewAt(pl, s, slot))
    && (forall id :: id in s.infos && !s.infos[id].inTried ==> RefCounted(s, id))
  }

  ghost predicate TimeOk(i: Info) {
    i.lastTry >= 0 && i.lastSuccess >= 0 && (i.inTried ==> i.lastSuccess > 0)
  }

  ghost predicate TimesOk(s: State) {
    forall id :: id in s.infos ==> TimeOk(s.infos[id])
  }

  ghost function NewIds(s: State): set<int> { set id | id in s.infos && !s.infos[id].inTried }

  ghost function TriedIds(s: State): set<int> { set id | id in s.infos && s.infos[id].inTried }

  /** Entries that no table refers to. */
  ghost function Loose(s: State): set<int>
  {
    set id | id in s.infos && !s.infos[id].inTried && s.infos[id].refCount == 0
  }

  /** What holds also in the middle of an operation. */
  ghost predicate Core(pl: Placement, s: State) {
    pl.Ok() && RandomOk(s) && AddrsOk(s) && TriedOk(pl, s) && NewsOk(pl, s) && TimesOk(s)
  }

  /** What holds between operations. */
  ghost predicate Consistent(pl: Placement, s: State, nNew: int, nTried: int) {
    Core(pl, s) && Loose(s) == {} && nNew == |NewIds(s)| && nTried == |TriedIds(s)|
  }

  // ---------- steps that leave the tables alone ----------

  /** Two states that differ at most in the order of the random vector and in statistics about addresses. */
  ghost predicate Alike(s: State, t: State) {
    && s.addrs == t.addrs && s.tried == t.tried && s.news == t.news
    && forall id :: AlikeAt(s, t, id)
  }

  ghost predicate AlikeAt(s: State, t: State, id: int) {
    && (id in s.infos <==> id in t.infos)
    && (id in s.infos ==> SamePlace(s.infos[id], t.infos[id]))
  }

  ghost predicate SamePlace(i: Info, j: Info) {
    i.service == j.service && i.refCount == j.refCount && i.inTried == j.inTried
  }

  lemma AlikeKeepsAddrs(s: State, t: State)
    requires Alike(s, t) && AddrsOk(s)
    ensures AddrsOk(t)
  {
    forall id | id in t.infos ensures Named(t, id) { assert AlikeAt(s, t, id) && Named(s, id); }
    forall svc | svc in t.addrs ensures Known(t, svc) { assert Known(s, svc) && AlikeAt(s, t, s.addrs[svc]); }
  }

  lemma AlikeKeepsTables(pl: Placement, s: State, t: State)
    requires Alike(s, t)
    ensures TriedOk(pl, s) ==> TriedOk(pl, t)
    ensures NewsOk(pl, s) ==> NewsOk(pl, t)
  {
    if TriedOk(pl, s) {
      forall slot | slot in t.tried
        ensures TriedAt(pl, t, slot)
      {
        assert TriedAt(pl, s, slot) && AlikeAt(s, t, s.tried[slot]);
      }
      forall id | id in t.infos && t.infos[id].inTried
        ensures InTried(pl, t, id)
      {
        assert AlikeAt(s, t, id) && InTried(pl, s, id);
      }
    }
    if NewsOk(pl, s) {
      forall slot | slot in t.news
        ensures NewAt(pl, t, slot)
      {
        assert NewAt(pl, s, slot) && AlikeAt(s, t, s.news[slot]);
      }
      forall id | id in t.infos && !t.infos[id].inTried
        ensures RefCounted(t, id)
      {
        assert AlikeAt(s, t, id) && RefCounted(s, id);
      }
    }
  }

  lemma AlikeKeepsSets(s: State, t: State)
    requires Alike(s, t)
    ensures Loose(t) == Loose(s) && NewIds(t) == NewIds(s) && TriedIds(t) == TriedIds(s)
  {
    assert forall id {:trigger id in s.infos} {:trigger id in t.infos} :: AlikeAt(s, t, id);
  }

  lemma AlikeKeeps(pl: Placement, s: State, t: State)
    requires Core(pl, s) && Alike(s, t) && RandomOk(t) && TimesOk(t)
    ensures Core(pl, t) && Loose(t) == Loose(s) && NewIds(t) == NewIds(s) && TriedIds(t) == TriedIds(s)
  {
    AlikeKeepsAddrs(s, t);
    AlikeKeepsTables(pl, s, t);
    AlikeKeepsSets(s, t);
  }

  function WithInfo(s: State, id: int, i: Info): State { s.(infos := s.infos[id := i]) }

  lemma TouchKeepsRandom(s: State, id: int, i: Info)
    requires RandomOk(s) && id in s.infos && s.infos[id].randomPos == i.randomPos
    ensures RandomOk(WithInfo(s, id, i))
  {
    var t := WithInfo(s, id, i);
    forall k | k in t.infos ensures HasPosition(t, k) { assert HasPosition(s, k); }
    forall p | 0 <= p < |t.random| ensures RandomAt(t, p) { assert RandomAt(s, p); }
  }

  /** Changing the statistics about an address. */
  lemma TouchKeeps(pl: Placement, s: State, id: int, i: Info)
    requires Core(pl, s) && id in s.infos && SamePlace(s.infos[id], i) && s.infos[id].randomPos == i.randomPos
             && TimeOk(i)
    ensures Core(pl, WithInfo(s, id, i))
    ensures Loose(WithInfo(s, id, i)) == Loose(s)
    ensures NewIds(WithInfo(s, id, i)) == NewIds(s) && TriedIds(WithInfo(s, id, i)) == TriedIds(s)
  {
    TouchKeepsRandom(s, id, i);
    AlikeKeeps(pl, s, WithInfo(s, id, i));
  }

  /** The random vector with two places exchanged, and the entries told about it. */
  function Swapped(s: State, p: nat, q: nat): State
    requires p < |s.random| && q < |s.random| && s.random[p] in s.infos && s.random[q] in s.infos
  {
    if p == q then s
    else
      var i, j := s.random[p], s.random[q];
      var infos := s.infos[i := s.infos[i].(randomPos := q)];
      s.(infos := infos[j := infos[j].(randomPos := p)], random := s.random[p := j][q := i])
  }

  lemma SwapKeepsRandom(s: State, p: nat, q: nat)
    requires RandomOk(s) && p < |s.random| && q < |s.random|
    ensures RandomAt(s, p) && RandomAt(s, q) && RandomOk(Swapped(s, p, q))
  {
    assert RandomAt(s, p) && RandomAt(s, q);
    var t := Swapped(s, p, q);
    forall k | k in t.infos ensures HasPosition(t, k) { assert HasPosition(s, k); }
    forall r | 0 <= r < |t.random| ensures RandomAt(t, r) { assert RandomAt(s, r); }
  }

  lemma SwapIsAlike(s: State, p: nat, q: nat)
    requires RandomOk(s) && p < |s.random| && q < |s.random|
    ensures RandomAt(s, p) && RandomAt(s, q) && Alike(s, Swapped(s, p, q))
    ensures TimesOk(s) ==> TimesOk(Swapped(s, p, q))
    ensures p != q ==> Swapped(s, p, q).infos[s.random[p]].randomPos == q
    ensures multiset(Swapped(s, p, q).random) == multiset(s.random)
  {
    assert RandomAt(s, p) && RandomAt(s, q);
  }

  lemma SwapKeeps(pl: Placement, s: State, p: nat, q: nat)
    requires Core(pl, s) && p < |s.random| && q < |s.random|
    ensures RandomAt(s, p) && RandomAt(s, q)
    ensures var t := Swapped(s, p, q);
            Core(pl, t) && Loose(t) == Loose(s) && NewIds(t) == NewIds(s) && TriedIds(t) == TriedIds(s)
  {
    SwapKeepsRandom(s, p, q);
    SwapIsAlike(s, p, q);
    AlikeKeeps(pl, s, Swapped(s, p, q));
  }

  // ---------- a new entry ----------

  function Created(s: State, id: int, i: Info): State {
    s.(infos := s.infos[id := i.(randomPos := |s.random|)], addrs := s.addrs[i.service := id],
       random := s.random + [id])
  }

  lemma CreateKeepsLists(s: State, id: int, i: Info)
    requires RandomOk(s) && AddrsOk(s) && id !in s.infos && i.service !in s.addrs
    ensures RandomOk(Created(s, id, i)) && AddrsOk(Created(s, id, i))
  {
    var t := Created(s, id, i);
    forall k | k in t.infos ensures HasPosition(t, k) && Named(t, k) {
      if k != id { assert HasPosition(s, k) && Named(s, k); }
    }
    forall p | 0 <= p < |t.random| ensures RandomAt(t, p) {
      if p < |s.random| { assert RandomAt(s, p); }
    }
    forall svc | svc in t.addrs ensures Known(t, svc) {
      if svc in s.addrs { assert Known(s, svc); }
    }
  }

  lemma NoRefs(pl: Placement, s: State, id: int)
    requires forall slot :: slot in s.news ==> NewAt(pl, s, slot)
    requires id in s.infos ==> s.infos[id].inTried
    ensures Refs(s.news, id) == {}
  {
    forall slot | slot in s.news ensures s.news[slot] != id { assert NewAt(pl, s, slot); }
  }

  lemma CreateKeepsTables(pl: Placement, s: State, id: int, i: Info)
    requires TriedOk(pl, s) && NewsOk(pl, s) && id !in s.infos && !i.inTried && i.refCount == 0
    ensures TriedOk(pl, Created(s, id, i)) && NewsOk(pl, Created(s, id, i))
  {
    var t := Created(s, id, i);
    forall slot | slot in t.tried ensures TriedAt(pl, t, slot) { assert TriedAt(pl, s, slot); }
    forall k | k in t.infos && t.infos[k].inTried ensures InTried(pl, t, k) { assert InTried(pl, s, k); }
    forall slot | slot in t.news ensures NewAt(pl, t, slot) { assert NewAt(pl, s, slot); }
    NoRefs(pl, s, id);
    forall k | k in t.infos && !t.infos[k].inTried ensures RefCounted(t, k) {
      if k != id { assert RefCounted(s, k); }
    }
  }

  lemma CreateKeeps(pl: Placement, s: State, id: int, i: Info)
    requires Core(pl, s) && id !in s.infos && i.service !in s.addrs && !i.inTried && i.refCount == 0 && TimeOk(i)
    ensures Core(pl, Created(s, id, i)) && Loose(Created(s, id, i)) == Loose(s) + {id}
    ensures NewIds(Created(s, id, i)) == NewIds(s) + {id} && TriedIds(Created(s, id, i)) == TriedIds(s)
  {
    CreateKeepsLists(s, id, i);
    CreateKeepsTables(pl, s, id, i);
  }

  // ---------- removing an entry ----------

  /** Leaving from the end of the random vector. */
  function Popped(s: State, id: int): State
    requires id in s.infos && s.random != []
  {
    s.(infos := s.infos - {id}, addrs := s.addrs - {s.infos[id].service}, random := s.random[..|s.random| - 1])
  }

  /** The entry goes to the end of the random vector and leaves from there. */
  ghost function Removed(s: State, id: int): State
    requires RandomOk(s) && id in s.infos
  {
    assert HasPosition(s, id) && RandomAt(s, |s.random| - 1);
    Popped(Swapped(s, s.infos[id].randomPos, |s.random| - 1), id)
  }

  lemma PopKeepsLists(s: State, id: int)
    requires RandomOk(s) && AddrsOk(s) && id in s.infos && s.infos[id].randomPos == |s.random| - 1
    ensures RandomOk(Popped(s, id)) && AddrsOk(Popped(s, id))
  {
    var t := Popped(s, id);
    assert HasPosition(s, id) && Named(s, id);
    forall k | k in t.infos ensures HasPosition(t, k) && Named(t, k) {
      assert HasPosition(s, k) && Named(s, k);
    }
    forall p | 0 <= p < |t.random| ensures RandomAt(t, p) { assert RandomAt(s, p); }
    forall svc | svc in t.addrs ensures Known(t, svc) { assert Known(s, svc); }
  }

  lemma PopKeepsTables(pl: Placement, s: State, id: int)
    requires TriedOk(pl, s) && NewsOk(pl, s) && s.random != [] && id in s.infos && !s.infos[id].inTried
             && s.infos[id].refCount == 0
    ensures TriedOk(pl, Popped(s, id)) && NewsOk(pl, Popped(s, id))
  {
    var t := Popped(s, id);
    assert RefCounted(s, id);
    forall slot | slot in t.tried ensures TriedAt(pl, t, slot) { assert TriedAt(pl, s, slot); }
    forall k | k in t.infos && t.infos[k].inTried ensures InTried(pl, t, k) { assert InTried(pl, s, k); }
    forall slot | slot in t.news ensures NewAt(pl, t, slot) {
      assert NewAt(pl, s, slot);
      assert slot !in Refs(s.news, id);
    }
    forall k | k in t.infos && !t.infos[k].inTried ensures RefCounted(t, k) { assert RefCounted(s, k); }
  }

  lemma PopSets(s: State, id: int)
    requires id in s.infos && !s.infos[id].inTried && s.random != []
    ensures Loose(Popped(s, id)) == Loose(s) - {id}
    ensures NewIds(Popped(s, id)) == NewIds(s) - {id} && TriedIds(Popped(s, id)) == TriedIds(s)
  {
  }

  lemma PopKeeps(pl: Placement, s: State, id: int)
    requires Core(pl, s) && id in Loose(s) && s.infos[id].randomPos == |s.random| - 1
    ensures s.random != [] && Core(pl, Popped(s, id))
  {
    assert HasPosition(s, id);
    PopKeepsLists(s, id);
    PopKeepsTables(pl, s, id);
  }

  lemma PopKeepsAll(pl: Placement, s: State, id: int)
    requires Core(pl, s) && id in Loose(s) && s.infos[id].randomPos == |s.random| - 1
    ensures s.random != [] && Core(pl, Popped(s, id)) && Loose(Popped(s, id)) == Loose(s) - {id}
    ensures NewIds(Popped(s, id)) == NewIds(s) - {id} && TriedIds(Popped(s, id)) == TriedIds(s)
  {
    PopKeeps(pl, s, id);
    PopSets(s, id);
  }

  lemma ToTheEnd(pl: Placement, s: State, id: int) returns (t: State)
    requires Core(pl, s) && id in Loose(s)
    ensures Core(pl, t) && Loose(t) == Loose(s) && NewIds(t) == NewIds(s) && TriedIds(t) == TriedIds(s)
    ensures t.random != [] && id in t.infos && t.infos[id].randomPos == |t.random| - 1
    ensures Removed(s, id) == Popped(t, id)
  {
    assert HasPosition(s, id);
    var p, q := s.infos[id].randomPos, |s.random| - 1;
    SwapKeeps(pl, s, p, q);
    t := Swapped(s, p, q);
    assert p != q ==> t.infos[id].randomPos == q;
  }

  lemma RemoveKeeps(pl: Placement, s: State, id: int)
    requires Core(pl, s) && id in Loose(s)
    ensures Core(pl, Removed(s, id)) && Loose(Removed(s, id)) == Loose(s) - {id}
    ensures NewIds(Removed(s, id)) == NewIds(s) - {id} && TriedIds(Removed(s, id)) == TriedIds(s)
  {
    var t := ToTheEnd(pl, s, id);
    PopKeepsAll(pl, t, id);
  }

  // ---------- the new table ----------

  function AddedRef(s: State, slot: Slot, id: int): State
    requires id in s.infos
  {
    s.(news := s.news[slot := id], infos := s.infos[id := s.infos[id].(refCount := s.infos[id].refCount + 1)])
  }

  function DroppedRef(s: State, slot: Slot): State
    requires slot in s.news && s.news[slot] in s.infos
  {
    var id := s.news[slot];
    s.(news := s.news - {slot}, infos := s.infos[id := s.infos[id].(refCount := s.infos[id].refCount - 1)])
  }

  /** A state in which only the references to one entry, and its count, are different. */
  ghost predicate OnlyRefs(s: State, t: State, id: int) {
    && id in s.infos && t.infos.Keys == s.infos.Keys
    && t.infos == s.infos[id := s.infos[id].(refCount := t.infos[id].refCount)]
    && t.addrs == s.addrs && t.random == s.random && t.tried == s.tried
  }

  lemma RefsKeepLists(s: State, t: State, id: int)
    requires OnlyRefs(s, t, id)
    ensures RandomOk(s) ==> RandomOk(t)
    ensures AddrsOk(s) ==> AddrsOk(t)
  {
    if RandomOk(s) {
      forall k | k in t.infos ensures HasPosition(t, k) { assert HasPosition(s, k); }
      forall p | 0 <= p < |t.random| ensures RandomAt(t, p) { assert RandomAt(s, p); }
    }
    if AddrsOk(s) {
      forall k | k in t.infos ensures Named(t, k) { assert Named(s, k); }
      forall svc | svc in t.addrs ensures Known(t, svc) { assert Known(s, svc); }
    }
  }

  lemma RefsKeepTried(pl: Placement, s: State, t: State, id: int)
    requires OnlyRefs(s, t, id) && TriedOk(pl, s) && !s.infos[id].inTried
    ensures TriedOk(pl, t)
  {
    forall slot | slot in t.tried ensures TriedAt(pl, t, slot) { assert TriedAt(pl, s, slot); }
    forall k | k in t.infos && t.infos[k].inTried ensures InTried(pl, t, k) { assert InTried(pl, s, k); }
  }

  lemma AddRefRefs(news: map<Slot, int>, slot: Slot, id: int, k: int)
    requires slot !in news
    ensures Refs(news[slot := id], k) == Refs(news, k) + (if k == id then {slot} else {})
    ensures |Refs(news[slot := id], k)| == |Refs(news, k)| + (if k == id then 1 else 0)
  {
  }

  lemma DropRefRefs(news: map<Slot, int>, slot: Slot, k: int)
    requires slot in news
    ensures Refs(news - {slot}, k) == Refs(news, k) - {slot}
    ensures |Refs(news - {slot}, k)| == |Refs(news, k)| - (if k == news[slot] then 1 else 0)
  {
    assert k == news[slot] <==> slot in Refs(news, k);
    assert k != news[slot] ==> Refs(news, k) - {slot} == Refs(news, k);
  }

  lemma AddRefKeepsNews(pl: Placement, s: State, slot: Slot, id: int)
    requires NewsOk(pl, s) && id in s.infos && !s.infos[id].inTried && s.infos[id].refCount < NEW_BUCKETS_PER_ADDRESS
    requires slot !in s.news && slot.bucket < NEW_BUCKET_COUNT && slot == pl.newSlot(s.infos[id].service, slot.bucket)
    ensures NewsOk(pl, AddedRef(s, slot, id))
  {
    var t := AddedRef(s, slot, id);
    forall x | x in t.news ensures NewAt(pl, t, x) { if x != slot { assert NewAt(pl, s, x); } }
    forall k | k in t.infos && !t.infos[k].inTried ensures RefCounted(t, k) {
      assert RefCounted(s, k);
      AddRefRefs(s.news, slot, id, k);
    }
  }

  lemma AddRefKeeps(pl: Placement, s: State, slot: Slot, id: int)
    requires Core(pl, s) && id in s.infos && !s.infos[id].inTried && s.infos[id].refCount < NEW_BUCKETS_PER_ADDRESS
    requires slot !in s.news && slot.bucket < NEW_BUCKET_COUNT && slot == pl.newSlot(s.infos[id].service, slot.bucket)
    ensures Core(pl, AddedRef(s, slot, id)) && Loose(AddedRef(s, slot, id)) == Loose(s) - {id}
    ensures NewIds(AddedRef(s, slot, id)) == NewIds(s) && TriedIds(AddedRef(s, slot, id)) == TriedIds(s)
  {
    var t := AddedRef(s, slot, id);
    RefsKeepLists(s, t, id);
    RefsKeepTried(pl, s, t, id);
    AddRefKeepsNews(pl, s, slot, id);
    assert RefCounted(s, id);
  }

  lemma DropRefKeepsNews(pl: Placement, s: State, slot: Slot)
    requires NewsOk(pl, s) && slot in s.news && s.news[slot] in s.infos
    ensures NewsOk(pl, DroppedRef(s, slot))
  {
    var t := DroppedRef(s, slot);
    forall x | x in t.news ensures NewAt(pl, t, x) { assert NewAt(pl, s, x); }
    forall k | k in t.infos && !t.infos[k].inTried ensures RefCounted(t, k) {
      assert RefCounted(s, k);
      DropRefRefs(s.news, slot, k);
    }
  }

  lemma DropRefKeeps(pl: Placement, s: State, slot: Slot)
    requires Core(pl, s) && slot in s.news
    ensures NewAt(pl, s, slot) && s.infos[s.news[slot]].refCount > 0
    ensures Core(pl, DroppedRef(s, slot))
    ensures Loose(DroppedRef(s, slot)) ==
              if s.infos[s.news[slot]].refCount == 1 then Loose(s) + {s.news[slot]} else Loose(s)
    ensures NewIds(DroppedRef(s, slot)) == NewIds(s) && TriedIds(DroppedRef(s, slot)) == TriedIds(s)
  {
    assert NewAt(pl, s, slot);
    var id, t := s.news[slot], DroppedRef(s, slot);
    assert RefCounted(s, id) && slot in Refs(s.news, id);
    RefsKeepLists(s, t, id);
    RefsKeepTried(pl, s, t, id);
    DropRefKeepsNews(pl, s, slot);
  }

  // ---------- the tried table ----------

  function LeftTried(pl: Placement, s: State, id: int): State
    requires id in s.infos
  {
    s.(infos := s.infos[id := s.infos[id].(inTried := false)], tried := s.tried - {pl.triedSlot(s.infos[id].service)})
  }

  function EnteredTried(pl: Placement, s: State, id: int): State
    requires id in s.infos
  {
    s.(infos := s.infos[id := s.infos[id].(inTried := true)], tried := s.tried[pl.triedSlot(s.infos[id].service) := id])
  }

  /** A state in which only one entry's mark, and the tried table, are different. */
  ghost predicate OnlyMark(s: State, t: State, id: int) {
    && id in s.infos && t.infos.Keys == s.infos.Keys
    && t.infos == s.infos[id := s.infos[id].(inTried := t.infos[id].inTried)]
    && t.addrs == s.addrs && t.random == s.random && t.news == s.news
  }

  lemma MarkKeepsLists(s: State, t: State, id: int)
    requires OnlyMark(s, t, id)
    ensures RandomOk(s) ==> RandomOk(t)
    ensures AddrsOk(s) ==> AddrsOk(t)
  {
    if RandomOk(s) {
      forall k | k in t.infos ensures HasPosition(t, k) { assert HasPosition(s, k); }
      forall p | 0 <= p < |t.random| ensures RandomAt(t, p) { assert RandomAt(s, p); }
    }
    if AddrsOk(s) {
      forall k | k in t.infos ensures Named(t, k) { assert Named(s, k); }
      forall svc | svc in t.addrs ensures Known(t, svc) { assert Known(s, svc); }
    }
  }

  lemma MarkKeepsNews(pl: Placement, s: State, t: State, id: int)
    requires OnlyMark(s, t, id) && NewsOk(pl, s) && s.infos[id].refCount == 0
    ensures NewsOk(pl, t)
  {
    if s.infos[id].inTried { NoRefs(pl, s, id); } else { assert RefCounted(s, id); }
    forall slot | slot in t.news ensures NewAt(pl, t, slot) {
      assert NewAt(pl, s, slot);
      assert slot !in Refs(s.news, id);
    }
    forall k | k in t.infos && !t.infos[k].inTried ensures RefCounted(t, k) {
      if k != id { assert RefCounted(s, k); }
    }
  }

  lemma LeaveKeepsTried(pl: Placement, s: State, id: int)
    requires TriedOk(pl, s) && id in s.infos && s.infos[id].inTried
    ensures TriedOk(pl, LeftTried(pl, s, id))
  {
    var t := LeftTried(pl, s, id);
    assert InTried(pl, s, id);
    forall slot | slot in t.tried ensures TriedAt(pl, t, slot) { assert TriedAt(pl, s, slot); }
    forall k | k in t.infos && t.infos[k].inTried ensures InTried(pl, t, k) { assert InTried(pl, s, k); }
  }

  lemma EnterKeepsTried(pl: Placement, s: State, id: int)
    requires TriedOk(pl, s) && id in s.infos && !s.infos[id].inTried && s.infos[id].refCount == 0
    requires pl.triedSlot(s.infos[id].service) !in s.tried
    ensures TriedOk(pl, EnteredTried(pl, s, id))
  {
    var t := EnteredTried(pl, s, id);
    forall slot | slot in t.tried ensures TriedAt(pl, t, slot) { if slot in s.tried { assert TriedAt(pl, s, slot); } }
    forall k | k in t.infos && t.infos[k].inTried ensures InTried(pl, t, k) { if k != id { assert InTried(pl, s, k); } }
  }

  lemma LeaveKeeps(pl: Placement, s: State, id: int)
    requires Core(pl, s) && id in TriedIds(s)
    ensures Core(pl, LeftTried(pl, s, id)) && Loose(LeftTried(pl, s, id)) == Loose(s) + {id}
    ensures NewIds(LeftTried(pl, s, id)) == NewIds(s) + {id} && TriedIds(LeftTried(pl, s, id)) == TriedIds(s) - {id}
  {
    var t := LeftTried(pl, s, id);
    assert InTried(pl, s, id);
    MarkKeepsLists(s, t, id);
    MarkKeepsNews(pl, s, t, id);
    LeaveKeepsTried(pl, s, id);
  }

  lemma EnterKeeps(pl: Placement, s: State, id: int)
    requires Core(pl, s) && id in Loose(s) && s.infos[id].lastSuccess > 0
    requires pl.triedSlot(s.infos[id].service) !in s.tried
    ensures Core(pl, EnteredTried(pl, s, id)) && Loose(EnteredTried(pl, s, id)) == Loose(s) - {id}
    ensures NewIds(EnteredTried(pl, s, id)) == NewIds(s) - {id}
            && TriedIds(EnteredTried(pl, s, id)) == TriedIds(s) + {id}
  {
    var t := EnteredTried(pl, s, id);
    MarkKeepsLists(s, t, id);
    MarkKeepsNews(pl, s, t, id);
    EnterKeepsTried(pl, s, id);
  }

  // ---------- clearing a slot of the new table ----------

  /** The entry that clearing a slot deletes: the one whose last reference it is. */
  ghost function Lost(s: State, slot: Slot): set<int> {
    if slot in s.news && s.news[slot] in s.infos && s.infos[s.news[slot]].refCount == 1 then {s.news[slot]} else {}
  }

  ghost function Cleared(pl: Placement, s: State, slot: Slot): State
    requires Core(pl, s)
  {
    if slot !in s.news then s
    else
      DropRefKeeps(pl, s, slot);
      if s.infos[s.news[slot]].refCount == 1 then Removed(DroppedRef(s, slot), s.news[slot]) else DroppedRef(s, slot)
  }

  /** The entry is still there, and only its place in the random vector or its references may have changed. */
  ghost predicate Survives(s: State, t: State, id: int) {
    id in s.infos ==>
      && id in t.infos
      && t.infos[id] == s.infos[id].(randomPos := t.infos[id].randomPos, refCount := t.infos[id].refCount)
  }

  lemma RemoveSpares(s: State, id: int, k: int)
    requires RandomOk(s) && id in s.infos && k != id
    ensures Survives(s, Removed(s, id), k) && Survives(Removed(s, id), s, k)
    ensures k in s.infos ==> Removed(s, id).infos[k].refCount == s.infos[k].refCount
    ensures Removed(s, id).news == s.news && Removed(s, id).tried == s.tried
  {
    assert HasPosition(s, id) && RandomAt(s, |s.random| - 1);
  }

  lemma ClearKeeps(pl: Placement, s: State, slot: Slot)
    requires Core(pl, s)
    ensures var t := Cleared(pl, s, slot);
            && Core(pl, t) && Loose(t) == Loose(s) && t.news == s.news - {slot} && t.tried == s.tried
            && NewIds(t) == NewIds(s) - Lost(s, slot) && TriedIds(t) == TriedIds(s) && Lost(s, slot) <= NewIds(s)
  {
    if slot in s.news {
      DropRefKeeps(pl, s, slot);
      var id, t := s.news[slot], DroppedRef(s, slot);
      assert id !in Loose(s);
      if s.infos[id].refCount == 1 {
        RemoveKeeps(pl, t, id);
        RemoveSpares(t, id, id + 1);
      }
    } else {
      assert s.news - {slot} == s.news;
    }
  }

  /** Clearing a slot spares every other entry. */
  lemma ClearSpares(pl: Placement, s: State, slot: Slot, k: int)
    requires Core(pl, s) && k !in Lost(s, slot)
    ensures Survives(s, Cleared(pl, s, slot), k) && Survives(Cleared(pl, s, slot), s, k)
    ensures k in s.infos && !(slot in s.news && s.news[slot] == k) ==>
              Cleared(pl, s, slot).infos[k].refCount == s.infos[k].refCount
  {
    if slot in s.news {
      DropRefKeeps(pl, s, slot);
      var id, t := s.news[slot], DroppedRef(s, slot);
      if s.infos[id].refCount == 1 {
        RemoveSpares(t, id, k);
      }
    }
  }

  lemma ClearLoose(pl: Placement, s: State, slot: Slot, k: int)
    requires Core(pl, s) && k in Loose(s)
    ensures k in Cleared(pl, s, slot).infos && Cleared(pl, s, slot).infos[k].refCount == 0
  {
    ClearKeeps(pl, s, slot);
    assert k in Loose(Cleared(pl, s, slot));
  }

  // ---------- taking a slot of the new table ----------

  ghost predicate IsRef(s: State, slot: Slot, id: int) { slot in s.news && s.news[slot] == id }

  lemma LooseNoRef(pl: Placement, s: State, slot: Slot, id: int)
    requires Core(pl, s) && id in Loose(s)
    ensures !IsRef(s, slot, id)
  {
    assert RefCounted(s, id);
    assert IsRef(s, slot, id) ==> slot in Refs(s.news, id);
  }

  /** The entry takes a slot of the new table from whatever is there. */
  ghost function Taken(pl: Placement, s: State, slot: Slot, id: int): State
    requires Core(pl, s) && id in s.infos && !IsRef(s, slot, id)
  {
    ClearSpares(pl, s, slot, id);
    AddedRef(Cleared(pl, s, slot), slot, id)
  }

  lemma TakeKeeps(pl: Placement, s: State, slot: Slot, id: int)
    requires Core(pl, s) && id in NewIds(s) && !IsRef(s, slot, id) && s.infos[id].refCount < NEW_BUCKETS_PER_ADDRESS
    requires slot.bucket < NEW_BUCKET_COUNT && slot == pl.newSlot(s.infos[id].service, slot.bucket)
    ensures var t := Taken(pl, s, slot, id);
            && Core(pl, t) && Loose(t) == Loose(s) - {id} && t.tried == s.tried && t.news == s.news[slot := id]
            && NewIds(t) == NewIds(s) - Lost(s, slot) && TriedIds(t) == TriedIds(s) && Lost(s, slot) <= NewIds(s) - {id}
  {
    ClearSpares(pl, s, slot, id);
    ClearKeeps(pl, s, slot);
    AddRefKeeps(pl, Cleared(pl, s, slot), slot, id);
    PutBack(s.news, slot, id);
  }

  lemma PutBack<K, V>(m: map<K, V>, k: K, v: V)
    ensures (m - {k})[k := v] == m[k := v]
  {
  }

  // ---------- leaving the new table ----------

  ghost function SlotFrom(pl: Placement, svc: Service, start: nat, n: nat): Slot {
    pl.newSlot(svc, (start + n) % NEW_BUCKET_COUNT)
  }

  /** Going around all new buckets from the given one, dropping references until the last one is gone. */
  ghost function Unlisted(pl: Placement, s: State, id: int, start: nat, n: nat): State
    requires id in s.infos && n <= NEW_BUCKET_COUNT
    decreases NEW_BUCKET_COUNT - n, start
  {
    if n == NEW_BUCKET_COUNT then s
    else
      var slot := SlotFrom(pl, s.infos[id].service, start, n);
      if !IsRef(s, slot, id) then Unlisted(pl, s, id, start, n + 1)
      else
        var t := DroppedRef(s, slot);
        if t.infos[id].refCount == 0 then t else Unlisted(pl, t, id, start, n + 1)
  }

  lemma UnlistedStep(pl: Placement, s: State, id: int, start: nat, n: nat)
    requires id in s.infos && n < NEW_BUCKET_COUNT
    ensures var slot := pl.newSlot(s.infos[id].service, (start + n) % NEW_BUCKET_COUNT);
            var t := if IsRef(s, slot, id) then DroppedRef(s, slot) else s;
            && id in t.infos && t.infos[id].service == s.infos[id].service
            && Unlisted(pl, s, id, start, n) ==
               if IsRef(s, slot, id) && t.infos[id].refCount == 0 then t else Unlisted(pl, t, id, start, n + 1)
  {
  }

  /** No reference in the buckets already visited. */
  ghost predicate CleanBefore(pl: Placement, s: State, id: int, start: nat, n: nat)
    requires id in s.infos
  {
    forall m :: 0 <= m < n ==> !IsRef(s, SlotFrom(pl, s.infos[id].service, start, m), id)
  }

  /** Going all the way around visits every slot the entry could be in. */
  lemma AllVisited(pl: Placement, s: State, id: int, start: nat)
    requires NewsOk(pl, s) && id in s.infos && start < NEW_BUCKET_COUNT
             && CleanBefore(pl, s, id, start, NEW_BUCKET_COUNT)
    ensures Refs(s.news, id) == {}
  {
    forall slot | slot in s.news ensures s.news[slot] != id {
      assert NewAt(pl, s, slot);
      var m := if slot.bucket >= start then slot.bucket - start else slot.bucket + NEW_BUCKET_COUNT - start;
      assert (start + m) % NEW_BUCKET_COUNT == slot.bucket;
      assert !IsRef(s, SlotFrom(pl, s.infos[id].service, start, m), id);
    }
  }

  lemma CleanAfterDrop(pl: Placement, s: State, id: int, start: nat, n: nat)
    requires id in s.infos && CleanBefore(pl, s, id, start, n)
             && IsRef(s, SlotFrom(pl, s.infos[id].service, start, n), id)
    ensures CleanBefore(pl, DroppedRef(s, SlotFrom(pl, s.infos[id].service, start, n)), id, start, n + 1)
  {
  }

  lemma UpdateTwice<K, V>(m: map<K, V>, k: K, v: V, w: V)
    ensures m[k := v][k := w] == m[k := w]
  {
  }

  lemma OneUnlisted(pl: Placement, s: State, id: int, start: nat, n: nat) returns (t: State)
    requires Core(pl, s) && id in s.infos && CleanBefore(pl, s, id, start, n)
    requires IsRef(s, SlotFrom(pl, s.infos[id].service, start, n), id)
    ensures t == DroppedRef(s, SlotFrom(pl, s.infos[id].service, start, n)) && Core(pl, t) && t.tried == s.tried
    ensures t.infos == s.infos[id := s.infos[id].(refCount := s.infos[id].refCount - 1)]
    ensures CleanBefore(pl, t, id, start, n + 1) && t.infos[id].refCount >= 0
  {
    var slot := SlotFrom(pl, s.infos[id].service, start, n);
    DropRefKeeps(pl, s, slot);
    CleanAfterDrop(pl, s, id, start, n);
    t := DroppedRef(s, slot);
  }

  lemma {:induction false} UnlistKeeps(pl: Placement, s: State, id: int, start: nat, n: nat)
    requires Core(pl, s) && id in s.infos && !s.infos[id].inTried && s.infos[id].refCount > 0
    requires start < NEW_BUCKET_COUNT && n <= NEW_BUCKET_COUNT && CleanBefore(pl, s, id, start, n)
    ensures var t := Unlisted(pl, s, id, start, n);
            Core(pl, t) && t.infos == s.infos[id := s.infos[id].(refCount := 0)] && t.tried == s.tried
    decreases NEW_BUCKET_COUNT - n
  {
    assert RefCounted(s, id);
    if n == NEW_BUCKET_COUNT {
      AllVisited(pl, s, id, start);
    } else {
      var slot := SlotFrom(pl, s.infos[id].service, start, n);
      if !IsRef(s, slot, id) {
        UnlistKeeps(pl, s, id, start, n + 1);
      } else {
        var t := OneUnlisted(pl, s, id, start, n);
        UpdateTwice(s.infos, id, t.infos[id], s.infos[id].(refCount := 0));
        if t.infos[id].refCount != 0 { UnlistKeeps(pl, t, id, start, n + 1); }
      }
    }
  }

  lemma UnlistSets(s: State, t: State, id: int)
    requires id in s.infos && !s.infos[id].inTried && t.infos == s.infos[id := s.infos[id].(refCount := 0)]
    ensures Loose(t) == Loose(s) + {id} && NewIds(t) == NewIds(s) && TriedIds(t) == TriedIds(s)
  {
  }

  // ---------- moving to the tried table ----------

  /** The slot of the new table that an entry goes to for its own source. */
  function HomeSlot(pl: Placement, i: Info): Slot { pl.newSlot(i.service, pl.newBucket(i.service, i.source)) }

  /** A tried entry goes back to the new table, replacing what is there. */
  ghost function Displaced(pl: Placement, s: State, id: int): State
    requires Core(pl, s) && id in TriedIds(s)
  {
    LeaveKeeps(pl, s, id);
    var t := LeftTried(pl, s, id);
    LooseNoRef(pl, t, HomeSlot(pl, s.infos[id]), id);
    Taken(pl, t, HomeSlot(pl, s.infos[id]), id)
  }

  lemma DisplaceKeeps(pl: Placement, s: State, id: int)
    requires Core(pl, s) && id in TriedIds(s)
    ensures var t, lost := Displaced(pl, s, id), Lost(LeftTried(pl, s, id), HomeSlot(pl, s.infos[id]));
            && Core(pl, t) && Loose(t) == Loose(s) && t.tried == s.tried - {pl.triedSlot(s.infos[id].service)}
            && TriedIds(t) == TriedIds(s) - {id} && NewIds(t) == NewIds(s) - lost + {id} && lost <= NewIds(s)
  {
    LeaveKeeps(pl, s, id);
    var t := LeftTried(pl, s, id);
    LooseNoRef(pl, t, HomeSlot(pl, s.infos[id]), id);
    TakeKeeps(pl, t, HomeSlot(pl, s.infos[id]), id);
  }

  /** An entry without references of its own is not touched. */
  lemma DisplaceSpares(pl: Placement, s: State, id: int, k: int)
    requires Core(pl, s) && id in TriedIds(s) && k in Loose(s)
    ensures k in Displaced(pl, s, id).infos
    ensures Displaced(pl, s, id).infos[k] == s.infos[k].(randomPos := Displaced(pl, s, id).infos[k].randomPos)
  {
    LeaveKeeps(pl, s, id);
    var t := LeftTried(pl, s, id);
    var slot := HomeSlot(pl, s.infos[id]);
    LooseNoRef(pl, t, slot, id);
    LooseNoRef(pl, t, slot, k);
    ClearSpares(pl, t, slot, k);
  }

  /** Room is made in the entry's slot of the tried table, and it takes that slot. */
  ghost function Promoted(pl: Placement, s: State, id: int): State
    requires Core(pl, s) && id in Loose(s)
  {
    var slot := pl.triedSlot(s.infos[id].service);
    if slot in s.tried then
      assert TriedAt(pl, s, slot);
      DisplaceSpares(pl, s, s.tried[slot], id);
      EnteredTried(pl, Displaced(pl, s, s.tried[slot]), id)
    else EnteredTried(pl, s, id)
  }

  /** What is deleted to make room for the entry that made room. */
  ghost function LostTo(pl: Placement, s: State, id: int): set<int>
    requires id in s.infos
  {
    var slot := pl.triedSlot(s.infos[id].service);
    if slot in s.tried && s.tried[slot] in s.infos then
      Lost(LeftTried(pl, s, s.tried[slot]), HomeSlot(pl, s.infos[s.tried[slot]]))
    else {}
  }

  lemma PromoteKeeps(pl: Placement, s: State, id: int)
    requires Core(pl, s) && id in Loose(s) && s.infos[id].lastSuccess > 0
    ensures var t, slot, lost := Promoted(pl, s, id), pl.triedSlot(s.infos[id].service), LostTo(pl, s, id);
            var out := if slot in s.tried then {s.tried[slot]} else {};
            && Core(pl, t) && Loose(t) == Loose(s) - {id} && t.tried.Keys == s.tried.Keys + {slot}
            && TriedIds(t) == TriedIds(s) - out + {id} && NewIds(t) == NewIds(s) - lost + out - {id}
            && out <= TriedIds(s) && lost <= NewIds(s) - Loose(s) && |lost| <= 1
  {
    if pl.triedSlot(s.infos[id].service) in s.tried { PromoteTaken(pl, s, id); } else { PromoteFree(pl, s, id); }
  }

  lemma PromoteFree(pl: Placement, s: State, id: int)
    requires Core(pl, s) && id in Loose(s) && s.infos[id].lastSuccess > 0
    requires pl.triedSlot(s.infos[id].service) !in s.tried
    ensures var t := Promoted(pl, s, id);
            && Core(pl, t) && Loose(t) == Loose(s) - {id}
            && t.tried.Keys == s.tried.Keys + {pl.triedSlot(s.infos[id].service)}
            && TriedIds(t) == TriedIds(s) - {} + {id} && NewIds(t) == NewIds(s) - {} + {} - {id}
    ensures LostTo(pl, s, id) == {}
  {
    EnterKeeps(pl, s, id);
  }

  lemma PromoteTaken(pl: Placement, s: State, id: int)
    requires Core(pl, s) && id in Loose(s) && s.infos[id].lastSuccess > 0
    requires pl.triedSlot(s.infos[id].service) in s.tried
    ensures var t, out, lost := Promoted(pl, s, id), s.tried[pl.triedSlot(s.infos[id].service)], LostTo(pl, s, id);
            && Core(pl, t) && Loose(t) == Loose(s) - {id}
            && t.tried.Keys == s.tried.Keys + {pl.triedSlot(s.infos[id].service)}
            && TriedIds(t) == TriedIds(s) - {out} + {id} && NewIds(t) == NewIds(s) - lost + {out} - {id}
            && out in TriedIds(s) && lost <= NewIds(s) - Loose(s) && |lost| <= 1
  {
    var slot := pl.triedSlot(s.infos[id].service);
    assert TriedAt(pl, s, slot);
    var out := s.tried[slot];
    DisplaceKeeps(pl, s, out);
    DisplaceSpares(pl, s, out, id);
    EnterKeeps(pl, Displaced(pl, s, out), id);
    KeysAfterReplacing(s.tried, slot, id);
  }

  lemma KeysAfterReplacing<K, V>(m: map<K, V>, k: K, v: V)
    requires k in m
    ensures (m - {k})[k := v].Keys == m.Keys
  {
  }

  /** All references of the entry go, and it moves to the tried table. */
  ghost function MadeTried(pl: Placement, s: State, id: int): State
    requires Core(pl, s) && id in NewIds(s) && s.infos[id].refCount > 0
  {
    Promoted(pl, AfterUnlisting(pl, s, id), id)
  }

  ghost function AfterUnlisting(pl: Placement, s: State, id: int): (t: State)
    requires Core(pl, s) && id in NewIds(s) && s.infos[id].refCount > 0
    ensures Core(pl, t) && t.infos == s.infos[id := s.infos[id].(refCount := 0)] && t.tried == s.tried
    ensures Loose(t) == Loose(s) + {id} && NewIds(t) == NewIds(s) && TriedIds(t) == TriedIds(s)
  {
    var start := pl.newBucket(s.infos[id].service, s.infos[id].source);
    UnlistKeeps(pl, s, id, start, 0);
    UnlistSets(s, Unlisted(pl, s, id, start, 0), id);
    Unlisted(pl, s, id, start, 0)
  }

  /** The move keeps everything; one entry goes back to the new table if the slot was taken, and at most one is lost. */
  lemma MakeTriedKeeps(pl: Placement, s: State, id: int)
    requires Core(pl, s) && id in NewIds(s) && s.infos[id].refCount > 0 && s.infos[id].lastSuccess > 0 && Loose(s) == {}
    ensures var t, slot := MadeTried(pl, s, id), pl.triedSlot(s.infos[id].service);
            Core(pl, t) && Loose(t) == {} && t.tried.Keys == s.tried.Keys + {slot}
    ensures var t, slot, lost := MadeTried(pl, s, id), pl.triedSlot(s.infos[id].service),
            LostTo(pl, AfterUnlisting(pl, s, id), id);
            var out := if slot in s.tried then {s.tried[slot]} else {};
            && TriedIds(t) == TriedIds(s) - out + {id} && NewIds(t) == NewIds(s) - lost + out - {id}
            && out <= TriedIds(s) && lost <= NewIds(s) - {id} && |lost| <= 1
  {
    PromoteKeeps(pl, AfterUnlisting(pl, s, id), id);
  }

  lemma NotLoose(pl: Placement, s: State, id: int)
    requires Core(pl, s) && id in NewIds(s) && id !in Loose(s)
    ensures 0 < s.infos[id].refCount <= NEW_BUCKETS_PER_ADDRESS
  {
    assert RefCounted(s, id);
  }

  /** What the move does to the number of entries in each table. */
  lemma MakeTriedCounts(pl: Placement, s: State, id: int)
    requires Core(pl, s) && id in NewIds(s) && s.infos[id].refCount > 0 && s.infos[id].lastSuccess > 0 && Loose(s) == {}
    ensures var t, slot := MadeTried(pl, s, id), pl.triedSlot(s.infos[id].service);
            var lost := |LostTo(pl, AfterUnlisting(pl, s, id), id)|;
            && |TriedIds(t)| == |TriedIds(s)| + (if slot in s.tried then 0 else 1)
            && |NewIds(t)| == |NewIds(s)| - 1 + (if slot in s.tried then 1 - lost else 0)
  {
    MakeTriedKeeps(pl, s, id);
    var slot := pl.triedSlot(s.infos[id].service);
    var out := if slot in s.tried then {s.tried[slot]} else {};
    MovedCounts(NewIds(s), TriedIds(s), id, out, LostTo(pl, AfterUnlisting(pl, s, id), id));
  }

  lemma MovedCounts<T>(a: set<T>, b: set<T>, x: T, out: set<T>, lost: set<T>)
    requires x in a && a !! b && out <= b && lost <= a - {x}
    ensures |b - out + {x}| == |b| - |out| + 1
    ensures |a - lost + out - {x}| == |a| - |lost| + |out| - 1
  {
    assert a - lost + out - {x} == (a - lost - {x}) + out;
  }

  // ---------- what happens to the entries ----------

  /** No entry appears, and what is known about an address does not change; only its place does. */
  ghost predicate Inherits(s: State, t: State) {
    forall id :: id in t.infos ==> InheritsAt(s, t, id)
  }

  ghost predicate InheritsAt(s: State, t: State, id: int)
    requires id in t.infos
  {
    && id in s.infos
    && s.infos[id] ==
         t.infos[id].(randomPos := s.infos[id].randomPos, refCount := s.infos[id].refCount,
                      inTried := s.infos[id].inTried)
  }

  lemma InheritsThrough(s: State, t: State, u: State)
    requires Inherits(s, t) && Inherits(t, u)
    ensures Inherits(s, u)
  {
    forall id | id in u.infos ensures InheritsAt(s, u, id) {
      assert InheritsAt(t, u, id);
      assert InheritsAt(s, t, id);
    }
  }

  lemma RemovedInherits(s: State, id: int)
    requires RandomOk(s) && id in s.infos
    ensures Inherits(s, Removed(s, id))
  {
    assert HasPosition(s, id) && RandomAt(s, |s.random| - 1);
  }

  lemma ClearedInherits(pl: Placement, s: State, slot: Slot)
    requires Core(pl, s)
    ensures Inherits(s, Cleared(pl, s, slot))
  {
    if slot in s.news {
      DropRefKeeps(pl, s, slot);
      var t := DroppedRef(s, slot);
      if s.infos[s.news[slot]].refCount == 1 {
        RemovedInherits(t, s.news[slot]);
        InheritsThrough(s, t, Removed(t, s.news[slot]));
      }
    }
  }

  lemma TakenInherits(pl: Placement, s: State, slot: Slot, id: int)
    requires Core(pl, s) && id in s.infos && !IsRef(s, slot, id)
    ensures Inherits(s, Taken(pl, s, slot, id))
  {
    ClearSpares(pl, s, slot, id);
    var t := Cleared(pl, s, slot);
    ClearedInherits(pl, s, slot);
    InheritsThrough(s, t, AddedRef(t, slot, id));
  }

  lemma DisplacedInherits(pl: Placement, s: State, id: int)
    requires Core(pl, s) && id in TriedIds(s)
    ensures Inherits(s, Displaced(pl, s, id))
  {
    LeaveKeeps(pl, s, id);
    var t, slot := LeftTried(pl, s, id), HomeSlot(pl, s.infos[id]);
    LooseNoRef(pl, t, slot, id);
    TakenInherits(pl, t, slot, id);
    InheritsThrough(s, t, Taken(pl, t, slot, id));
  }

  lemma EnteredInherits(pl: Placement, s: State, id: int)
    requires id in s.infos
    ensures Inherits(s, EnteredTried(pl, s, id))
  {
  }

  lemma PromotedInherits(pl: Placement, s: State, id: int)
    requires Core(pl, s) && id in Loose(s)
    ensures Inherits(s, Promoted(pl, s, id))
  {
    var slot := pl.triedSlot(s.infos[id].service);
    if slot in s.tried {
      assert TriedAt(pl, s, slot);
      DisplaceSpares(pl, s, s.tried[slot], id);
      DisplacedInherits(pl, s, s.tried[slot]);
      var t := Displaced(pl, s, s.tried[slot]);
      EnteredInherits(pl, t, id);
      InheritsThrough(s, t, EnteredTried(pl, t, id));
    } else {
      EnteredInherits(pl, s, id);
    }
  }

  lemma MadeTriedInherits(pl: Placement, s: State, id: int)
    requires Core(pl, s) && id in NewIds(s) && s.infos[id].refCount > 0
    ensures Inherits(s, MadeTried(pl, s, id))
  {
    var t := AfterUnlisting(pl, s, id);
    PromotedInherits(pl, t, id);
    InheritsThrough(s, t, Promoted(pl, t, id));
  }
}

/** What announcements and successes do to the entries of the address manager (src/addrman.cpp:86-117, 581-741),
  * entry by entry.
  */
module AddrManSpec {
  import opened AddrManModel

  const MINUTE := 60
  const HOUR := 3600
  const DAY := 86400
  const HORIZON := 30 * DAY
  const RETRIES := 3
  const MAX_FAILURES := 10
  const MIN_FAIL := 7 * DAY

  /** An address as it is announced. */
  datatype Address = Address(service: Service, time: int, services: set<nat>)

  /** What other files know about an address. */
  datatype Network = Network(netOf: Service -> Net, routable: Service -> bool, valid: Service -> bool,
                             class_: Service -> nat)

  // ---------- quality ----------

  predicate IsTerrible(i: Info, now: int) {
    if now - i.lastTry <= MINUTE then false
    else
      || i.time > now + 10 * MINUTE
      || now - i.time > HORIZON
      || (i.lastSuccess == 0 && i.attempts >= RETRIES)
      || (now - i.lastSuccess > MIN_FAIL && i.attempts >= MAX_FAILURES)
  }

  /** An entry without failures since its last success is terrible only for the time it was announced with: more than
    * ten minutes ahead or more than thirty days ago, and not within a minute of that success.
    */
  lemma GoodIsNotTerrible(i: Info, now: int)
    requires i.lastSuccess == i.lastTry && i.attempts == 0
    ensures IsTerrible(i, now) <==> now > i.lastTry + 60 && !(now - 2592000 <= i.time <= now + 600)
  {
  }

  /** An entry that was announced lately is terrible after three failures if it was never reached, after ten if it was
    * not reached for a week, and never if it was; always with a minute of grace after a try.
    */
  lemma FailuresAreTerrible(i: Info, now: int)
    requires now - 2592000 <= i.time <= now + 600 && i.attempts >= 0
    ensures IsTerrible(i, now) <==>
              && now > i.lastTry + 60
              && if i.lastSuccess == 0 then i.attempts >= 3 else i.lastSuccess < now - 604800 && i.attempts >= 10
  {
  }

  // ---------- one success ----------

  /** A success at a known address: it counts as tried and reached at that time and has no failures, its announced time
    * stays, and nothing else that is known of any entry changes. At most one entry goes, and it was a new one.
    */
  ghost predicate Praised(s: State, t: State, svc: Service, time: int) {
    && svc in s.addrs && svc in t.addrs && t.addrs[svc] == s.addrs[svc]
    && s.addrs[svc] in s.infos && s.addrs[svc] in t.infos
    && (forall k :: k in t.infos ==> PraisedAt(s, t, k, k == s.addrs[svc], time))
    && (forall k :: k in s.infos && k !in t.infos ==> !s.infos[k].inTried)
    && |s.infos.Keys - t.infos.Keys| <= 1
  }

  ghost predicate PraisedAt(s: State, t: State, k: int, reached: bool, time: int)
    requires k in t.infos
  {
    && k in s.infos
    && var was, i := s.infos[k], t.infos[k];
       && i.service == was.service && i.time == was.time && i.services == was.services && i.source == was.source
       && i.lastCountAttempt == was.lastCountAttempt
       && i.lastSuccess == (if reached then time else was.lastSuccess)
       && i.lastTry == (if reached then time else was.lastTry)
       && i.attempts == (if reached then 0 else was.attempts)
  }

  lemma InheritsPraise(s: State, t: State, id: int, i: Info, svc: Service, time: int)
    requires id in s.infos && svc in s.addrs && s.addrs[svc] == id
    requires id in t.infos && svc in t.addrs && t.addrs[svc] == id
    requires i == s.infos[id].(lastSuccess := time, lastTry := time, attempts := 0) && Inherits(WithInfo(s, id, i), t)
    requires var u := WithInfo(s, id, i);
             (forall k :: k in u.infos && k !in t.infos ==> !u.infos[k].inTried) && |u.infos.Keys - t.infos.Keys| <= 1
    ensures Praised(s, t, svc, time)
  {
    assert WithInfo(s, id, i).infos.Keys == s.infos.Keys;
    forall k | k in t.infos ensures PraisedAt(s, t, k, k == id, time) { assert InheritsAt(WithInfo(s, id, i), t, k); }
  }

  lemma PraiseInPlace(s: State, id: int, i: Info, svc: Service, time: int)
    requires id in s.infos && svc in s.addrs && s.addrs[svc] == id
    requires i == s.infos[id].(lastSuccess := time, lastTry := time, attempts := 0)
    ensures Praised(s, WithInfo(s, id, i), svc, time)
  {
    assert s.infos.Keys - WithInfo(s, id, i).infos.Keys == {};
    InheritsPraise(s, WithInfo(s, id, i), id, i, svc, time);
  }

  lemma PraiseAndMove(pl: Placement, s: State, id: int, i: Info, svc: Service, time: int)
    requires id in s.infos && svc in s.addrs && s.addrs[svc] == id && s.infos[id].service == svc
    requires i == s.infos[id].(lastSuccess := time, lastTry := time, attempts := 0) && time > 0
    requires var u := WithInfo(s, id, i); Core(pl, u) && Loose(u) == {} && id in NewIds(u) && i.refCount > 0
    ensures Praised(s, MadeTried(pl, WithInfo(s, id, i), id), svc, time)
  {
    var t := Moved(pl, WithInfo(s, id, i), id);
    InheritsPraise(s, t, id, i, svc, time);
  }

  lemma Moved(pl: Placement, u: State, id: int) returns (t: State)
    requires Core(pl, u) && Loose(u) == {} && id in NewIds(u) && u.infos[id].refCount > 0 && u.infos[id].lastSuccess > 0
    ensures t == MadeTried(pl, u, id) && Inherits(u, t) && id in t.infos
    ensures u.infos[id].service in t.addrs && t.addrs[u.infos[id].service] == id
    ensures (forall k :: k in u.infos && k !in t.infos ==> !u.infos[k].inTried && k != id)
            && |u.infos.Keys - t.infos.Keys| <= 1
  {
    t := MadeTried(pl, u, id);
    MakeTriedKeeps(pl, u, id);
    MadeTriedInherits(pl, u, id);
    LostIsNew(pl, u, id);
    assert InheritsAt(u, t, id);
    OneEntry(t, id, u.infos[id].service);
  }

  lemma LostIsNew(pl: Placement, u: State, id: int)
    requires Core(pl, u) && Loose(u) == {} && id in NewIds(u) && u.infos[id].refCount > 0 && u.infos[id].lastSuccess > 0
    ensures var t := MadeTried(pl, u, id);
            && (forall k :: k in u.infos && k !in t.infos ==> !u.infos[k].inTried && k != id)
            && |u.infos.Keys - t.infos.Keys| <= 1
  {
    MakeTriedKeeps(pl, u, id);
    var t, lost := MadeTried(pl, u, id), LostTo(pl, AfterUnlisting(pl, u, id), id);
    forall k | k in u.infos && k !in t.infos ensures k in lost && k in NewIds(u) {
      assert k in NewIds(u) || k in TriedIds(u);
      assert k !in NewIds(t) && k !in TriedIds(t);
    }
    Fewer(u.infos.Keys - t.infos.Keys, lost);
  }

  lemma Fewer(a: set<int>, b: set<int>)
    requires a <= b
    ensures |a| <= |b|
  {
    assert b == a + (b - a);
  }

  ghost function WithoutId(news: map<Slot, int>, id: int): map<Slot, int> {
    map slot | slot in news && news[slot] != id :: news[slot]
  }

  /** The tables after an entry has moved to the tried table: it has its slot there and none in the new table, and what
    * was in that slot has one slot of the new table, by its own source, instead of what was there.
    */
  ghost predicate TablesMoved(pl: Placement, s: State, t: State, id: int) {
    && id in s.infos
    && var slot := pl.triedSlot(s.infos[id].service);
       && t.tried == s.tried[slot := id]
       && if slot in s.tried && s.tried[slot] in s.infos then
            var there := s.infos[s.tried[slot]];
            var home := pl.newSlot(there.service, pl.newBucket(there.service, there.source));
            t.news == WithoutId(s.news, id)[home := s.tried[slot]]
          else t.news == WithoutId(s.news, id)
  }

  lemma {:induction false} UnlistedKeepsOthers(pl: Placement, s: State, id: int, start: nat, n: nat)
    requires id in s.infos && n <= NEW_BUCKET_COUNT
    ensures var t := Unlisted(pl, s, id, start, n);
            && (forall slot :: slot in t.news ==> slot in s.news && t.news[slot] == s.news[slot])
            && (forall slot :: slot in s.news && s.news[slot] != id ==> slot in t.news)
    decreases NEW_BUCKET_COUNT - n
  {
    if n < NEW_BUCKET_COUNT {
      var slot := SlotFrom(pl, s.infos[id].service, start, n);
      if IsRef(s, slot, id) {
        UnlistedKeepsOthers(pl, DroppedRef(s, slot), id, start, n + 1);
      } else {
        UnlistedKeepsOthers(pl, s, id, start, n + 1);
      }
    }
  }

  lemma UnlistedNews(pl: Placement, s: State, id: int)
    requires Core(pl, s) && id in NewIds(s) && s.infos[id].refCount > 0
    ensures AfterUnlisting(pl, s, id).news == WithoutId(s.news, id)
  {
    var t := AfterUnlisting(pl, s, id);
    UnlistedKeepsOthers(pl, s, id, pl.newBucket(s.infos[id].service, s.infos[id].source), 0);
    assert RefCounted(t, id);
    forall slot | slot in t.news ensures t.news[slot] != id { assert slot !in Refs(t.news, id); }
  }

  lemma DisplacedTables(pl: Placement, s: State, id: int)
    requires Core(pl, s) && id in TriedIds(s)
    ensures Displaced(pl, s, id).tried == s.tried - {pl.triedSlot(s.infos[id].service)}
    ensures Displaced(pl, s, id).news == s.news[HomeSlot(pl, s.infos[id]) := id]
  {
    LeaveKeeps(pl, s, id);
    var t, slot := LeftTried(pl, s, id), HomeSlot(pl, s.infos[id]);
    LooseNoRef(pl, t, slot, id);
    SlotFits(pl, s.infos[id].service, s.infos[id].source);
    TakeKeeps(pl, t, slot, id);
  }

  lemma PromotedTables(pl: Placement, s: State, id: int)
    requires Core(pl, s) && id in Loose(s)
    ensures var t, slot := Promoted(pl, s, id), pl.triedSlot(s.infos[id].service);
            && t.tried == s.tried[slot := id]
            && (slot in s.tried ==> s.tried[slot] in s.infos
                                    && t.news == s.news[HomeSlot(pl, s.infos[s.tried[slot]]) := s.tried[slot]])
            && (slot !in s.tried ==> t.news == s.news)
  {
    var slot := pl.triedSlot(s.infos[id].service);
    if slot in s.tried {
      assert TriedAt(pl, s, slot);
      DisplaceSpares(pl, s, s.tried[slot], id);
      DisplacedTables(pl, s, s.tried[slot]);
      PutBack(s.tried, slot, id);
    }
  }

  lemma MovedTables(pl: Placement, s: State, id: int)
    requires Core(pl, s) && id in NewIds(s) && s.infos[id].refCount > 0
    ensures TablesMoved(pl, s, MadeTried(pl, s, id), id)
  {
    UnlistedNews(pl, s, id);
    PromotedTables(pl, AfterUnlisting(pl, s, id), id);
  }

  /** The same if the entry's statistics were brought up to date before. */
  lemma TouchedAndMoved(pl: Placement, s: State, id: int, i: Info)
    requires id in s.infos && i.service == s.infos[id].service && i.source == s.infos[id].source && i.refCount > 0
    requires Core(pl, WithInfo(s, id, i)) && id in NewIds(WithInfo(s, id, i))
    ensures TablesMoved(pl, s, MadeTried(pl, WithInfo(s, id, i), id), id)
  {
    MovedTables(pl, WithInfo(s, id, i), id);
  }

  // ---------- one announcement ----------

  /** A source's own announcement is not penalised. */
  function Penalty(net: Network, addr: Address, source: Net, timePenalty: int): int {
    if net.netOf(addr.service) == source then 0 else timePenalty
  }

  /** The announced time less the penalty, but not before the epoch. */
  function Discounted(announced: int, penalty: int): int {
    if announced - penalty > 0 then announced - penalty else 0
  }

  /** The time of an entry after an announcement: it moves on only if the announced time is well ahead. */
  function Renewed(was: int, announced: int, penalty: int, now: int): int {
    var interval := if now - announced < 24 * HOUR then HOUR else 24 * HOUR;
    if was < announced - interval - penalty then Discounted(announced, penalty) else was
  }

  /** The time never goes back; it moves on exactly if the announcement, less the penalty, is more than an hour ahead of
    * it, or more than a day if that was itself a day ago, and then to the announced time less the penalty.
    */
  lemma RenewedMovesOn(was: int, announced: int, penalty: int, now: int)
    requires was >= 0
    ensures var r, ahead := Renewed(was, announced, penalty, now), announced - penalty - was;
            r == if ahead > 86400 || (ahead > 3600 && announced > now - 86400) then was + ahead else was
  {
  }

  /** One in that many draws lets an entry with n references have one more. */
  function Odds(n: nat): nat { if n == 0 then 1 else 2 * Odds(n - 1) }

  /** What is drawn for a known address. */
  ghost predicate DrawnFrom(s: State, svc: Service, draw: nat) {
    svc in s.addrs ==>
      && s.addrs[svc] in s.infos && s.infos[s.addrs[svc]].refCount >= 0
      && draw < Odds(s.infos[s.addrs[svc]].refCount)
  }

  /** An address is worth a reference if it is new to the tables, or is in the new table, has fewer than eight
    * references, was announced later than what is known, and is drawn.
    */
  ghost predicate Wants(net: Network, s: State, addr: Address, penalty: int, now: int, draw: nat) {
    && net.routable(addr.service)
    && (addr.service in s.addrs && s.addrs[addr.service] in s.infos ==>
          var i := s.infos[s.addrs[addr.service]];
          !i.inTried && i.refCount < 8 && draw == 0 && addr.time > Renewed(i.time, addr.time, penalty, now))
  }

  /** A slot is free, or holds an entry of another address that is terrible, or can do without it while the newcomer
    * has no other reference.
    */
  ghost predicate Yields(s: State, slot: Slot, svc: Service, now: int) {
    slot in s.news ==>
      && s.news[slot] in s.infos
      && var there := s.infos[s.news[slot]];
         && there.service != svc
         && (IsTerrible(there, now) || (there.refCount > 1 && svc !in s.addrs))
  }

  ghost predicate LastRef(s: State, slot: Slot, k: int) {
    IsRef(s, slot, k) && k in s.infos && s.infos[k].refCount == 1
  }

  /** An entry of another address: it loses a reference exactly if its slot was taken. */
  ghost predicate OtherAfter(s: State, t: State, slot: Slot, k: int, inserted: bool)
    requires k in t.infos
  {
    && k in s.infos
    && t.infos[k] == s.infos[k].(randomPos := t.infos[k].randomPos, refCount := t.infos[k].refCount)
    && t.infos[k].refCount == s.infos[k].refCount - if inserted && IsRef(s, slot, k) then 1 else 0
  }

  /** The entry of the announced address. */
  ghost predicate EntryAfter(net: Network, s: State, t: State, addr: Address, source: Net, penalty: int, now: int,
                             k: int, inserted: bool)
    requires k in t.infos
  {
    var svc, i := addr.service, t.infos[k];
    if svc in s.addrs then
      && k == s.addrs[svc] && k in s.infos
      && var was := s.infos[k];
         var (time, services) :=
           if net.routable(svc) then (Renewed(was.time, addr.time, penalty, now), was.services + addr.services)
           else (was.time, was.services);
         i == was.(time := time, services := services, refCount := was.refCount + if inserted then 1 else 0,
                   randomPos := i.randomPos)
    else
      inserted &&
      i == Info(svc, Discounted(addr.time, penalty), addr.services, source, 0, 0, 0, 0, 1, false, i.randomPos)
  }

  /** One announced address: who gets which slot, who goes, and what is known of every entry afterwards. */
  ghost predicate AddStep(pl: Placement, net: Network, s: State, t: State, addr: Address, source: Net,
                          timePenalty: int, now: int, draw: nat, inserted: bool)
  {
    var svc, penalty := addr.service, Penalty(net, addr, source, timePenalty);
    var slot := pl.newSlot(svc, pl.newBucket(svc, source));
    && (inserted <==> Wants(net, s, addr, penalty, now, draw) && Yields(s, slot, svc, now))
    && t.tried == s.tried && DrawnFrom(s, svc, draw)
    && (if inserted then svc in t.addrs && t.news == s.news[slot := t.addrs[svc]]
        else t.news == s.news && t.addrs == s.addrs)
    && (forall k :: k in s.infos ==> (k in t.infos <==> !(inserted && LastRef(s, slot, k))))
    && (forall k :: k in t.infos && t.infos[k].service != svc ==> OtherAfter(s, t, slot, k, inserted))
    && (forall k :: k in t.infos && t.infos[k].service == svc ==>
          EntryAfter(net, s, t, addr, source, penalty, now, k, inserted))
  }

  // ---------- why it is so ----------

  lemma ClearedAt(pl: Placement, s: State, slot: Slot, k: int)
    requires Core(pl, s)
    ensures k in Cleared(pl, s, slot).infos <==> k in s.infos && !LastRef(s, slot, k)
    ensures k in Cleared(pl, s, slot).infos ==>
              var i := Cleared(pl, s, slot).infos[k];
              i == s.infos[k].(randomPos := i.randomPos, refCount := i.refCount)
              && i.refCount == s.infos[k].refCount - if IsRef(s, slot, k) then 1 else 0
  {
    if slot in s.news {
      DropRefKeeps(pl, s, slot);
      var id, t := s.news[slot], DroppedRef(s, slot);
      if s.infos[id].refCount == 1 { RemovedAt(t, id, k); }
    }
  }

  lemma RemovedAt(s: State, id: int, k: int)
    requires RandomOk(s) && id in s.infos
    ensures k in Removed(s, id).infos <==> k in s.infos && k != id
    ensures k in Removed(s, id).infos ==> Removed(s, id).infos[k] ==
                                            s.infos[k].(randomPos := Removed(s, id).infos[k].randomPos)
  {
    assert HasPosition(s, id) && RandomAt(s, |s.random| - 1);
  }

  lemma TakenAt(pl: Placement, s: State, slot: Slot, id: int, k: int)
    requires Core(pl, s) && id in s.infos && !IsRef(s, slot, id)
    ensures k in Taken(pl, s, slot, id).infos <==> k in s.infos && !LastRef(s, slot, k)
    ensures k in Taken(pl, s, slot, id).infos ==>
              var i := Taken(pl, s, slot, id).infos[k];
              && i == s.infos[k].(randomPos := i.randomPos, refCount := i.refCount)
              && i.refCount == s.infos[k].refCount + (if k == id then 1 else 0) - if IsRef(s, slot, k) then 1 else 0
  {
    ClearSpares(pl, s, slot, id);
    ClearedAt(pl, s, slot, k);
  }

  /** The entry of the address has been found and brought up to date, or made. */
  ghost predicate Heard(s: State, u: State, id: int, addr: Address, source: Net, penalty: int, now: int) {
    if addr.service in s.addrs then
      && id == s.addrs[addr.service] && id in s.infos
      && u == WithInfo(s, id, s.infos[id].(time := Renewed(s.infos[id].time, addr.time, penalty, now),
                                           services := s.infos[id].services + addr.services))
    else
      && id !in s.infos
      && u == Created(s, id, Info(addr.service, Discounted(addr.time, penalty), addr.services, source, 0, 0, 0, 0, 0,
                                  false, -1))
  }

  /** Entries are known by their address. */
  lemma OneEntry(s: State, k: int, svc: Service)
    requires AddrsOk(s) && k in s.infos
    ensures s.infos[k].service == svc <==> svc in s.addrs && s.addrs[svc] == k
  {
    assert Named(s, k) && (svc in s.addrs ==> Known(s, svc));
  }

  lemma Unheard(pl: Placement, net: Network, s: State, addr: Address, source: Net, timePenalty: int, now: int,
                draw: nat)
    requires Core(pl, s) && !net.routable(addr.service) && DrawnFrom(s, addr.service, draw)
    ensures AddStep(pl, net, s, s, addr, source, timePenalty, now, draw, false)
  {
    forall k | k in s.infos && s.infos[k].service == addr.service ensures s.addrs[addr.service] == k {
      OneEntry(s, k, addr.service);
    }
  }

  lemma OnlyHeard(pl: Placement, net: Network, s: State, u: State, id: int, addr: Address, source: Net,
                  timePenalty: int, now: int, draw: nat)
    requires Core(pl, s) && net.routable(addr.service) && addr.service in s.addrs && DrawnFrom(s, addr.service, draw)
    requires var penalty := Penalty(net, addr, source, timePenalty);
             && Heard(s, u, id, addr, source, penalty, now)
             && !(Wants(net, s, addr, penalty, now, draw)
                  && Yields(s, pl.newSlot(addr.service, pl.newBucket(addr.service, source)), addr.service, now))
    ensures AddStep(pl, net, s, u, addr, source, timePenalty, now, draw, false)
  {
    forall k | k in u.infos && u.infos[k].service == addr.service ensures s.addrs[addr.service] == k {
      OneEntry(s, k, addr.service);
    }
    KnownAt(s, addr.service);
  }

  lemma KnownAt(s: State, svc: Service)
    requires AddrsOk(s) && svc in s.addrs
    ensures s.addrs[svc] in s.infos && s.infos[s.addrs[svc]].service == svc
  {
    assert Known(s, svc);
  }

  /** The slot is given to the entry. */
  ghost predicate Deserving(s: State, slot: Slot, id: int, now: int)
    requires id in s.infos
  {
    slot in s.news ==>
      && s.news[slot] != id && s.news[slot] in s.infos
      && (IsTerrible(s.infos[s.news[slot]], now) || (s.infos[s.news[slot]].refCount > 1 && s.infos[id].refCount == 0))
  }

  lemma DeservingIff(pl: Placement, s: State, u: State, id: int, addr: Address, source: Net, penalty: int, now: int,
                     slot: Slot)
    requires Core(pl, s) && Loose(s) == {} && Heard(s, u, id, addr, source, penalty, now)
    requires addr.service in s.addrs ==> !s.infos[id].inTried
    ensures Deserving(u, slot, id, now) <==> Yields(s, slot, addr.service, now)
  {
    if slot in s.news {
      assert NewAt(pl, s, slot);
      OneEntry(s, s.news[slot], addr.service);
      if addr.service in s.addrs { NotLoose(pl, s, id); }
    }
  }

  lemma SameLastRef(s: State, u: State, id: int, addr: Address, source: Net, penalty: int, now: int, slot: Slot, k: int)
    requires Heard(s, u, id, addr, source, penalty, now) && k in s.infos
    ensures k in u.infos && (LastRef(u, slot, k) <==> LastRef(s, slot, k)) && (IsRef(u, slot, k) <==> IsRef(s, slot, k))
    ensures k != id ==> u.infos[k] == s.infos[k]
  {
  }

  lemma HeardEntry(pl: Placement, net: Network, s: State, u: State, id: int, addr: Address, source: Net, penalty: int,
                   now: int, slot: Slot)
    requires Core(pl, u) && Heard(s, u, id, addr, source, penalty, now) && id in u.infos && !IsRef(u, slot, id)
    requires net.routable(addr.service) && id in Taken(pl, u, slot, id).infos
    ensures EntryAfter(net, s, Taken(pl, u, slot, id), addr, source, penalty, now, id, true)
  {
    TakenAt(pl, u, slot, id, id);
  }

  lemma HeardAndTaken(pl: Placement, net: Network, s: State, u: State, id: int, addr: Address, source: Net,
                      timePenalty: int, now: int, draw: nat)
    requires Core(pl, s) && Core(pl, u) && id in NewIds(u) && u.infos[id].refCount < NEW_BUCKETS_PER_ADDRESS
    requires u.infos[id].service == addr.service && DrawnFrom(s, addr.service, draw)
    requires var penalty := Penalty(net, addr, source, timePenalty);
             var slot := pl.newSlot(addr.service, pl.newBucket(addr.service, source));
             && Heard(s, u, id, addr, source, penalty, now) && !IsRef(u, slot, id)
             && Wants(net, s, addr, penalty, now, draw) && Yields(s, slot, addr.service, now)
    ensures var slot := pl.newSlot(addr.service, pl.newBucket(addr.service, source));
            AddStep(pl, net, s, Taken(pl, u, slot, id), addr, source, timePenalty, now, draw, true)
  {
    var svc, penalty := addr.service, Penalty(net, addr, source, timePenalty);
    var slot := pl.newSlot(svc, pl.newBucket(svc, source));
    var t := Taken(pl, u, slot, id);
    TakeKeeps(pl, u, slot, id);
    TakenAt(pl, u, slot, id, id);
    OneEntry(t, id, svc);
    HeardEntry(pl, net, s, u, id, addr, source, penalty, now, slot);
    forall k | k in s.infos ensures k in t.infos <==> !LastRef(s, slot, k) {
      HeardOther(pl, s, u, id, addr, source, penalty, now, slot, k);
    }
    forall k | k in t.infos ensures if t.infos[k].service == svc then k == id else OtherAfter(s, t, slot, k, true) {
      OneEntry(t, k, svc);
      if k != id { HeardOther(pl, s, u, id, addr, source, penalty, now, slot, k); }
    }
  }

  lemma HeardOther(pl: Placement, s: State, u: State, id: int, addr: Address, source: Net, penalty: int, now: int,
                   slot: Slot, k: int)
    requires Core(pl, u) && Heard(s, u, id, addr, source, penalty, now) && id in u.infos && !IsRef(u, slot, id)
    ensures k in s.infos ==> (k in Taken(pl, u, slot, id).infos <==> !LastRef(s, slot, k))
    ensures k != id && k in Taken(pl, u, slot, id).infos ==> OtherAfter(s, Taken(pl, u, slot, id), slot, k, true)
  {
    TakenAt(pl, u, slot, id, k);
    if k in s.infos { SameLastRef(s, u, id, addr, source, penalty, now, slot, k); }
  }

  lemma HeardAndDeleted(pl: Placement, net: Network, s: State, u: State, id: int, addr: Address, source: Net,
                        timePenalty: int, now: int, draw: nat)
    requires Core(pl, s) && RandomOk(u) && addr.service !in s.addrs
    requires var penalty := Penalty(net, addr, source, timePenalty);
             && Heard(s, u, id, addr, source, penalty, now)
             && !Yields(s, pl.newSlot(addr.service, pl.newBucket(addr.service, source)), addr.service, now)
    ensures AddStep(pl, net, s, Removed(u, id), addr, source, timePenalty, now, draw, false)
  {
    assert HasPosition(u, id) && RandomAt(u, |u.random| - 1);
    var t := Removed(u, id);
    forall k ensures k in t.infos <==> k in s.infos { RemovedAt(u, id, k); }
    forall k | k in t.infos
      ensures t.infos[k] == s.infos[k].(randomPos := t.infos[k].randomPos)
    {
      RemovedAt(u, id, k);
    }
    forall k | k in t.infos ensures t.infos[k].service != addr.service { OneEntry(s, k, addr.service); }
    assert s.addrs[addr.service := id] - {addr.service} == s.addrs;
  }

  lemma SlotFits(pl: Placement, svc: Service, source: Net)
    requires pl.Ok()
    ensures var slot := pl.newSlot(svc, pl.newBucket(svc, source));
            slot.bucket < NEW_BUCKET_COUNT && slot == pl.newSlot(svc, slot.bucket)
  {
  }

  /** What is done after the entry was found or made. */
  ghost predicate Placed(pl: Placement, u: State, t: State, id: int, slot: Slot, now: int, inserted: bool)
    requires Core(pl, u) && id in u.infos
  {
    && (inserted <==> Deserving(u, slot, id, now))
    && if inserted then !IsRef(u, slot, id) && t == Taken(pl, u, slot, id)
       else t == if Loose(u) == {} then u else Removed(u, id)
  }

  /** The entry has been found or made, and it is known whether it should be given a slot. */
  ghost predicate Enlisted(pl: Placement, net: Network, s: State, u: State, id: int, addr: Address, source: Net,
                           penalty: int, now: int, draw: nat, goOn: bool)
  {
    && Core(pl, u) && net.routable(addr.service) && Heard(s, u, id, addr, source, penalty, now)
    && DrawnFrom(s, addr.service, draw)
    && Loose(u) == (if addr.service !in s.addrs then {id} else {})
    && (goOn <==> Wants(net, s, addr, penalty, now, draw)) && (!goOn ==> Loose(u) == {}) && Loose(u) <= {id}
    && (goOn ==> id in NewIds(u) && u.infos[id].refCount < NEW_BUCKETS_PER_ADDRESS
                 && u.infos[id].service == addr.service)
  }

  lemma Announced(pl: Placement, net: Network, s: State, u: State, t: State, id: int, addr: Address, source: Net,
                  timePenalty: int, now: int, draw: nat, goOn: bool, inserted: bool)
    requires Core(pl, s) && Loose(s) == {}
    requires Enlisted(pl, net, s, u, id, addr, source, Penalty(net, addr, source, timePenalty), now, draw, goOn)
    requires var slot := pl.newSlot(addr.service, pl.newBucket(addr.service, source));
             if goOn then Placed(pl, u, t, id, slot, now, inserted) else t == u && !inserted
    ensures AddStep(pl, net, s, t, addr, source, timePenalty, now, draw, inserted)
  {
    if goOn {
      DeservingIff(pl, s, u, id, addr, source, Penalty(net, addr, source, timePenalty), now,
                   pl.newSlot(addr.service, pl.newBucket(addr.service, source)));
    }
    if inserted {
      HeardAndTaken(pl, net, s, u, id, addr, source, timePenalty, now, draw);
    } else if addr.service in s.addrs {
      OnlyHeard(pl, net, s, u, id, addr, source, timePenalty, now, draw);
    } else {
      HeardAndDeleted(pl, net, s, u, id, addr, source, timePenalty, now, draw);
    }
  }

  /** Announcements one after the other: the states in between, the draws, and who got a slot. */
  ghost predicate AddSteps(pl: Placement, net: Network, states: seq<State>, list: seq<Address>, source: Net,
                           timePenalty: int, now: int, draws: seq<nat>, inserted: seq<bool>)
  {
    && |states| == |list| + 1 && |draws| == |inserted| == |list|
    && forall i :: 0 <= i < |list| ==>
         AddStep(pl, net, states[i], states[i + 1], list[i], source, timePenalty, now, draws[i], inserted[i])
  }

  /** The tried table is never touched, and without any insertion nor are the new slots and the known addresses. */
  lemma {:induction false} StepsKeep(pl: Placement, net: Network, states: seq<State>, list: seq<Address>, source: Net,
                                     timePenalty: int, now: int, draws: seq<nat>, inserted: seq<bool>, n: nat)
    requires n <= |list| && AddSteps(pl, net, states, list, source, timePenalty, now, draws, inserted)
    ensures states[n].tried == states[0].tried
    ensures true !in inserted ==> states[n].news == states[0].news && states[n].addrs == states[0].addrs
    decreases n
  {
    if n > 0 {
      StepsKeep(pl, net, states, list, source, timePenalty, now, draws, inserted, n - 1);
      assert AddStep(pl, net, states[n - 1], states[n], list[n - 1], source, timePenalty, now, draws[n - 1],
                     inserted[n - 1]);
      assert inserted[n - 1] in inserted;
    }
  }

  lemma OneMoreStep(pl: Placement, net: Network, states: seq<State>, list: seq<Address>, n: nat, source: Net,
                    timePenalty: int, now: int, draws: seq<nat>, inserted: seq<bool>, t: State, draw: nat, one: bool)
    requires n < |list| && AddSteps(pl, net, states, list[..n], source, timePenalty, now, draws, inserted)
    requires AddStep(pl, net, states[n], t, list[n], source, timePenalty, now, draw, one)
    ensures AddSteps(pl, net, states + [t], list[..n + 1], source, timePenalty, now, draws + [draw], inserted + [one])
  {
    var states', draws', inserted' := states + [t], draws + [draw], inserted + [one];
    forall i | 0 <= i <= n
      ensures AddStep(pl, net, states'[i], states'[i + 1], list[i], source, timePenalty, now, draws'[i], inserted'[i])
    {
      if i < n {
        assert list[..n][i] == list[i] && states'[i] == states[i] && states'[i + 1] == states[i + 1];
      }
    }
  }
}

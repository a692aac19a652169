/** Writing a consistent address manager and loading the file again loses nothing (src/addrman.cpp). */
module AddrManRoundTrip {
  import opened AddrManModel
  import AddrMan
  import opened AddrManCheck
  import opened AddrManFile

  ghost predicate Distinct<T>(xs: seq<T>) { forall i, j :: 0 <= i < j < |xs| ==> xs[i] != xs[j] }

  // ---------- the slots of the new table in order ----------

  /** The filled slots of one bucket before position i. */
  function SlotsOf(news: map<Slot, int>, b: nat, i: nat): seq<Slot> {
    if i == 0 then [] else SlotsOf(news, b, i - 1) + if Slot(b, i - 1) in news then [Slot(b, i - 1)] else []
  }

  /** The filled slots of the buckets before b. */
  function SlotsUpTo(news: map<Slot, int>, b: nat): seq<Slot> {
    if b == 0 then [] else SlotsUpTo(news, b - 1) + SlotsOf(news, b - 1, BUCKET_SIZE)
  }

  lemma {:induction false} SlotsOfAre(news: map<Slot, int>, b: nat, i: nat)
    ensures Distinct(SlotsOf(news, b, i))
    ensures forall slot :: slot in SlotsOf(news, b, i) <==> slot in news && slot.bucket == b && slot.position < i
  {
    if i > 0 {
      SlotsOfAre(news, b, i - 1);
      assert forall slot :: slot in news && slot.bucket == b && slot.position < i ==>
          (slot.position < i - 1 || slot == Slot(b, i - 1));
    }
  }

  lemma {:induction false} SlotsUpToAre(news: map<Slot, int>, b: nat)
    requires forall slot :: slot in news ==> slot.position < BUCKET_SIZE
    ensures Distinct(SlotsUpTo(news, b))
    ensures forall slot :: slot in SlotsUpTo(news, b) <==> slot in news && slot.bucket < b
  {
    if b > 0 {
      SlotsUpToAre(news, b - 1);
      SlotsOfAre(news, b - 1, BUCKET_SIZE);
      var xs, ys := SlotsUpTo(news, b - 1), SlotsOf(news, b - 1, BUCKET_SIZE);
      forall i, j | 0 <= i < j < |xs + ys| ensures (xs + ys)[i] != (xs + ys)[j] {
        if i < |xs| <= j {
          assert xs[i] in xs && ys[j - |xs|] in ys;
        }
      }
    }
  }

  // ---------- what is written ----------

  /** The file says what the state says: the new entries in some order, the tried entries in some order, and for every
    * filled slot of the new table the number of its entry in the first list.
    */
  ghost predicate SavedAs(s: State, nNew: int, nTried: int, key: nat, checksum: nat, newIds: seq<int>,
                          triedIds: seq<int>, f: File)
  {
    && f.format == FILE_FORMAT && f.compat == INCOMPATIBILITY_BASE + FILE_FORMAT && f.key == key
    && f.checksum == checksum
    && f.nNew == nNew == |newIds| && f.nTried == nTried == |triedIds| && f.nUBuckets == FlipBit30(NEW_BUCKET_COUNT)
    && Lists(s, newIds, f.news) && Lists(s, triedIds, f.tried)
    && |f.buckets| == NEW_BUCKET_COUNT
    && forall b :: 0 <= b < NEW_BUCKET_COUNT ==> BucketSaved(s, newIds, b, f.buckets[b])
  }

  ghost predicate Lists(s: State, ids: seq<int>, ps: seq<Persisted>) {
    |ps| == |ids| && forall k :: 0 <= k < |ids| ==> ids[k] in s.infos && ps[k] == Persist(s.infos[ids[k]])
  }

  ghost predicate BucketSaved(s: State, newIds: seq<int>, b: nat, xs: seq<int>) {
    var slots := SlotsOf(s.news, b, BUCKET_SIZE);
    |xs| == |slots| && forall j :: 0 <= j < |xs| ==> SlotSaved(s, newIds, slots[j], xs[j])
  }

  ghost predicate SlotSaved(s: State, newIds: seq<int>, slot: Slot, x: int) {
    0 <= x < |newIds| && slot in s.news && newIds[x] == s.news[slot]
  }

  /** Some order of all entries, as a walk through a hash table would give. */
  ghost predicate Orders(s: State, order: seq<int>) {
    && Distinct(order) && (forall k :: 0 <= k < |order| ==> order[k] in s.infos)
    && forall id :: id in s.infos ==> id in order
  }

  /** The entries before n in the order that satisfy the given test. */
  ghost function Chosen(s: State, order: seq<int>, n: nat, tried: bool): seq<int>
    requires n <= |order| && forall k :: 0 <= k < |order| ==> order[k] in s.infos
  {
    if n == 0 then []
    else
      var i := s.infos[order[n - 1]];
      Chosen(s, order, n - 1, tried) + if (if tried then i.inTried else i.refCount != 0) then [order[n - 1]] else []
  }

  ghost predicate Wanted(s: State, id: int, tried: bool) {
    id in s.infos && if tried then s.infos[id].inTried else s.infos[id].refCount != 0
  }

  lemma {:induction false} ChosenAre(s: State, order: seq<int>, n: nat, tried: bool)
    requires n <= |order| && Distinct(order) && forall k :: 0 <= k < |order| ==> order[k] in s.infos
    ensures Distinct(Chosen(s, order, n, tried))
    ensures forall id :: id in Chosen(s, order, n, tried) <==> id in order[..n] && Wanted(s, id, tried)
  {
    if n > 0 {
      ChosenAre(s, order, n - 1, tried);
      assert order[..n] == order[..n - 1] + [order[n - 1]];
      assert order[n - 1] !in order[..n - 1];
    }
  }

  /** The two lists are the two kinds of entries, and the counters are right. */
  lemma ChosenAll(pl: Placement, s: State, nNew: int, nTried: int, order: seq<int>)
    requires Consistent(pl, s, nNew, nTried) && Orders(s, order)
    ensures var L, T := Chosen(s, order, |order|, false), Chosen(s, order, |order|, true);
            && Distinct(L) && (forall id :: id in L <==> id in NewIds(s)) && |L| == nNew
            && Distinct(T) && (forall id :: id in T <==> id in TriedIds(s)) && |T| == nTried
  {
    ChosenAre(s, order, |order|, false);
    ChosenAre(s, order, |order|, true);
    assert order[..|order|] == order;
    forall id | id in s.infos ensures s.infos[id].refCount != 0 <==> !s.infos[id].inTried {
      if s.infos[id].inTried { assert InTried(pl, s, id); } else { NotLoose(pl, s, id); }
    }
    DistinctSize(Chosen(s, order, |order|, false), NewIds(s));
    DistinctSize(Chosen(s, order, |order|, true), TriedIds(s));
  }

  // ---------- writing ----------

  /** Both passes over the entries: the numbers the new ones get, and the two lists. */
  method WriteEntries(s: State, nNew: int, nTried: int, order: seq<int>, ghost pl: Placement)
    returns (unkIds: map<int, int>, news: seq<Persisted>, tried: seq<Persisted>)
    requires Consistent(pl, s, nNew, nTried) && Orders(s, order)
    ensures Lists(s, Chosen(s, order, |order|, false), news) && Lists(s, Chosen(s, order, |order|, true), tried)
    ensures forall id :: id in NewIds(s) ==>
              && id in unkIds && 0 <= unkIds[id] < |news|
              && Chosen(s, order, |order|, false)[unkIds[id]] == id
  {
    ChosenAll(pl, s, nNew, nTried, order);
    unkIds, news := WriteNews(s, nNew, nTried, order, pl);
    tried := WriteTried(s, nNew, nTried, order, pl);
    AllNumbered(pl, s, order, unkIds);
  }

  method WriteNews(s: State, nNew: int, ghost nTried: int, order: seq<int>, ghost pl: Placement)
    returns (unkIds: map<int, int>, news: seq<Persisted>)
    requires Consistent(pl, s, nNew, nTried) && Orders(s, order)
    ensures Lists(s, Chosen(s, order, |order|, false), news) && Numbered(s, order, |order|, unkIds)
  {
    unkIds, news := map[], [];
    for k := 0 to |order|
      invariant Lists(s, Chosen(s, order, k, false), news)
      invariant Numbered(s, order, k, unkIds)
    {
      unkIds := unkIds[order[k] := |news|];
      if s.infos[order[k]].refCount != 0 {
        FewerChosen(pl, s, nNew, nTried, order, k, false);
        assert |news| != nNew;
        news := news + [Persist(s.infos[order[k]])];
      }
    }
  }

  method WriteTried(s: State, ghost nNew: int, nTried: int, order: seq<int>, ghost pl: Placement)
    returns (tried: seq<Persisted>)
    requires Consistent(pl, s, nNew, nTried) && Orders(s, order)
    ensures Lists(s, Chosen(s, order, |order|, true), tried)
  {
    tried := [];
    for k := 0 to |order|
      invariant Lists(s, Chosen(s, order, k, true), tried)
    {
      if s.infos[order[k]].inTried {
        FewerChosen(pl, s, nNew, nTried, order, k, true);
        assert |tried| != nTried;
        tried := tried + [Persist(s.infos[order[k]])];
      }
    }
  }

  /** Every new entry before k has the number of its place in the list. */
  ghost predicate Numbered(s: State, order: seq<int>, k: nat, unkIds: map<int, int>)
    requires k <= |order| && forall j :: 0 <= j < |order| ==> order[j] in s.infos
  {
    forall j :: 0 <= j < k && s.infos[order[j]].refCount != 0 ==> NumberedAt(s, order, k, unkIds, j)
  }

  ghost predicate NumberedAt(s: State, order: seq<int>, k: nat, unkIds: map<int, int>, j: nat)
    requires j < k <= |order| && forall j :: 0 <= j < |order| ==> order[j] in s.infos
  {
    && order[j] in unkIds && 0 <= unkIds[order[j]] < |Chosen(s, order, k, false)|
    && Chosen(s, order, k, false)[unkIds[order[j]]] == order[j]
  }

  lemma AllNumbered(pl: Placement, s: State, order: seq<int>, unkIds: map<int, int>)
    requires Core(pl, s) && Loose(s) == {} && Orders(s, order) && Numbered(s, order, |order|, unkIds)
    ensures forall id :: id in NewIds(s) ==>
              && id in unkIds && 0 <= unkIds[id] < |Chosen(s, order, |order|, false)|
              && Chosen(s, order, |order|, false)[unkIds[id]] == id
  {
    forall id | id in NewIds(s)
      ensures id in unkIds && 0 <= unkIds[id] < |Chosen(s, order, |order|, false)|
              && Chosen(s, order, |order|, false)[unkIds[id]] == id
    {
      NotLoose(pl, s, id);
      assert id in order;
      var j :| 0 <= j < |order| && order[j] == id;
      assert NumberedAt(s, order, |order|, unkIds, j);
    }
  }

  lemma {:induction false} ChosenGrows(s: State, order: seq<int>, n: nat, m: nat, tried: bool)
    requires n <= m <= |order| && forall k :: 0 <= k < |order| ==> order[k] in s.infos
    ensures Chosen(s, order, n, tried) <= Chosen(s, order, m, tried)
  {
    if n < m { ChosenGrows(s, order, n, m - 1, tried); }
  }

  /** The count of entries written so far never reaches the total before the last one. */
  lemma FewerChosen(pl: Placement, s: State, nNew: int, nTried: int, order: seq<int>, k: nat, tried: bool)
    requires Consistent(pl, s, nNew, nTried) && Orders(s, order) && k < |order| && Wanted(s, order[k], tried)
    ensures |Chosen(s, order, k, tried)| < if tried then nTried else nNew
  {
    ChosenAll(pl, s, nNew, nTried, order);
    ChosenGrows(s, order, k + 1, |order|, tried);
  }

  method WriteBucket(s: State, unkIds: map<int, int>, b: nat, ghost newIds: seq<int>) returns (xs: seq<int>)
    requires forall slot :: slot in s.news ==>
               s.news[slot] in unkIds && SlotSaved(s, newIds, slot, unkIds[s.news[slot]])
    ensures BucketSaved(s, newIds, b, xs)
  {
    var size := 0;
    for i := 0 to BUCKET_SIZE
      invariant size == |SlotsOf(s.news, b, i)|
    {
      if Slot(b, i) in s.news {
        size := size + 1;
      }
    }
    xs := [];
    for i := 0 to BUCKET_SIZE
      invariant |xs| == |SlotsOf(s.news, b, i)| <= size || i == BUCKET_SIZE
      invariant |xs| == |SlotsOf(s.news, b, i)|
      invariant forall j :: 0 <= j < |xs| ==> SlotSaved(s, newIds, SlotsOf(s.news, b, i)[j], xs[j])
    {
      SlotsGrow(s.news, b, i + 1, BUCKET_SIZE);
      if Slot(b, i) in s.news {
        xs := xs + [unkIds[s.news[Slot(b, i)]]];
      }
    }
  }

  lemma {:induction false} SlotsGrow(news: map<Slot, int>, b: nat, i: nat, j: nat)
    requires i <= j
    ensures |SlotsOf(news, b, i)| <= |SlotsOf(news, b, j)|
  {
    if i < j { SlotsGrow(news, b, i, j - 1); }
  }

  lemma RefIsNew(pl: Placement, s: State, slot: Slot, id: int)
    requires Core(pl, s) && slot in s.news && s.news[slot] == id
    ensures id in NewIds(s)
  {
    assert NewAt(pl, s, slot);
  }

  /** Writing a consistent state, whatever the order of its entries: none of the assertions about counters fails. */
  method Serialize(s: State, nNew: int, nTried: int, key: nat, checksum: nat, order: seq<int>, ghost pl: Placement)
    returns (f: File, ghost newIds: seq<int>, ghost triedIds: seq<int>)
    requires Consistent(pl, s, nNew, nTried) && Orders(s, order)
    ensures SavedAs(s, nNew, nTried, key, checksum, newIds, triedIds, f)
    ensures Distinct(newIds) && forall id :: id in newIds <==> id in NewIds(s)
    ensures Distinct(triedIds) && forall id :: id in triedIds <==> id in TriedIds(s)
  {
    newIds, triedIds := Chosen(s, order, |order|, false), Chosen(s, order, |order|, true);
    ChosenAll(pl, s, nNew, nTried, order);
    var unkIds, news, tried := WriteEntries(s, nNew, nTried, order, pl);
    forall slot | slot in s.news ensures s.news[slot] in unkIds && SlotSaved(s, newIds, slot, unkIds[s.news[slot]]) {
      RefIsNew(pl, s, slot, s.news[slot]);
    }
    var buckets: seq<seq<int>> := [];
    for b := 0 to NEW_BUCKET_COUNT
      invariant |buckets| == b && forall c :: 0 <= c < b ==> BucketSaved(s, newIds, c, buckets[c])
    {
      var xs := WriteBucket(s, unkIds, b, newIds);
      buckets := buckets + [xs];
    }
    f := File(FILE_FORMAT, INCOMPATIBILITY_BASE + FILE_FORMAT, key, nNew, nTried, FlipBit30(NEW_BUCKET_COUNT), news,
              tried, buckets, checksum);
  }

  // ---------- reading it again: the entries ----------

  /** What of an entry survives saving and loading: all but the times of the last tries. */
  ghost predicate Copied(i: Info, j: Info) {
    && j.service == i.service && j.time == i.time && j.services == i.services && j.source == i.source
    && j.lastSuccess == i.lastSuccess && j.attempts == i.attempts && j.inTried == i.inTried
    && j.lastTry == 0 && j.lastCountAttempt == 0
  }

  /** The first n of the listed entries have been loaded, and have the ids 0 to n - 1. */
  ghost predicate Copies(s: State, ids: seq<int>, t: State, n: nat) {
    && n <= |ids| && (forall k :: k in t.infos <==> 0 <= k < n)
    && forall k :: 0 <= k < n ==> CopiedAt(s, ids, t, k)
  }

  ghost predicate CopiedAt(s: State, ids: seq<int>, t: State, k: nat)
    requires k < |ids|
  {
    k in t.infos && ids[k] in s.infos && Copied(s.infos[ids[k]], t.infos[k])
  }

  /** An address that has not been loaded is not known yet. */
  lemma NextIsUnknown(pl: Placement, s: State, ids: seq<int>, t: State, n: nat)
    requires Core(pl, s) && Distinct(ids) && Copies(s, ids, t, n) && AddrsOk(t) && n < |ids| && ids[n] in s.infos
    ensures s.infos[ids[n]].service !in t.addrs
  {
    var svc := s.infos[ids[n]].service;
    assert Named(s, ids[n]);
    forall k | k in t.infos ensures t.infos[k].service != svc {
      assert CopiedAt(s, ids, t, k);
      assert Named(s, ids[k]);
    }
    assert svc in t.addrs ==> Known(t, svc);
  }

  lemma EntryTime(s: State, id: int)
    requires TimesOk(s) && id in s.infos
    ensures TimeOk(s.infos[id])
  {
  }

  /** Place k of a list read from the file is entry ids[from + k]. */
  ghost predicate ListedAt(s: State, ids: seq<int>, from: nat, ps: seq<Persisted>, tried: bool, k: nat)
    requires k < |ps| && from + |ps| <= |ids|
  {
    var id := ids[from + k];
    id in s.infos && s.infos[id].inTried == tried && ps[k] == Persist(s.infos[id])
  }

  ghost predicate ListedFrom(s: State, ids: seq<int>, from: nat, ps: seq<Persisted>, tried: bool) {
    from + |ps| <= |ids| && forall k :: 0 <= k < |ps| ==> ListedAt(s, ids, from, ps, tried, k)
  }

  lemma LoadOneNew(pl: Placement, s: State, ids: seq<int>, t: State, n: nat)
    requires Core(pl, s) && Distinct(ids) && n < |ids| && ids[n] in s.infos && !s.infos[ids[n]].inTried
    requires Core(pl, t) && Copies(s, ids, t, n)
    ensures var u := Created(t, n, InfoOf(Persist(s.infos[ids[n]])));
            Core(pl, u) && Copies(s, ids, u, n + 1)
  {
    NextIsUnknown(pl, s, ids, t, n);
    EntryTime(s, ids[n]);
    CreateKeeps(pl, t, n, InfoOf(Persist(s.infos[ids[n]])));
    CopyOne(s, ids, t, n, Created(t, n, InfoOf(Persist(s.infos[ids[n]]))));
  }

  lemma {:induction false} LoadNews(pl: Placement, s: State, ids: seq<int>, ps: seq<Persisted>, n: nat)
    requires Core(pl, s) && Distinct(ids) && n <= |ps| && ListedFrom(s, ids, 0, ps, false)
    ensures var t := NewsLoaded(ps, n);
            Core(pl, t) && Copies(s, ids, t, n) && t.tried == map[] && t.news == map[]
  {
    if n > 0 {
      LoadNews(pl, s, ids, ps, n - 1);
      assert ListedAt(s, ids, 0, ps, false, n - 1);
      LoadOneNew(pl, s, ids, NewsLoaded(ps, n - 1), n - 1);
    }
  }

  lemma CopyOne(s: State, ids: seq<int>, t: State, n: nat, u: State)
    requires Copies(s, ids, t, n) && n < |ids| && ids[n] in s.infos
    requires u.infos.Keys == t.infos.Keys + {n} && (forall k :: k in t.infos ==> u.infos[k] == t.infos[k])
    requires Copied(s.infos[ids[n]], u.infos[n])
    ensures Copies(s, ids, u, n + 1)
  {
    forall k | 0 <= k < n + 1 ensures CopiedAt(s, ids, u, k) {
      if k < n { assert CopiedAt(s, ids, t, k); }
    }
    assert forall k :: k in u.infos <==> k in t.infos || k == n;
  }

  /** The slot of a tried entry that has not been loaded is still free. */
  lemma NextSlotIsFree(pl: Placement, s: State, ids: seq<int>, t: State, n: nat)
    requires Core(pl, s) && Distinct(ids) && Copies(s, ids, t, n) && TriedOk(pl, t)
    requires n < |ids| && ids[n] in s.infos && s.infos[ids[n]].inTried
    ensures pl.triedSlot(s.infos[ids[n]].service) !in t.tried
  {
    var slot := pl.triedSlot(s.infos[ids[n]].service);
    assert InTried(pl, s, ids[n]);
    forall k | k in t.infos && t.infos[k].inTried ensures pl.triedSlot(t.infos[k].service) != slot {
      assert CopiedAt(s, ids, t, k);
      assert InTried(pl, s, ids[k]);
    }
    assert slot in t.tried ==> TriedAt(pl, t, slot);
  }

  lemma LoadOneTried(pl: Placement, s: State, ids: seq<int>, t: State, n: nat)
    requires Core(pl, s) && Distinct(ids) && n < |ids| && ids[n] in s.infos && s.infos[ids[n]].inTried
    requires Core(pl, t) && Copies(s, ids, t, n)
    ensures var u := EnteredTried(pl, Created(t, n, InfoOf(Persist(s.infos[ids[n]]))), n);
            Core(pl, u) && Copies(s, ids, u, n + 1) && pl.triedSlot(s.infos[ids[n]].service) !in t.tried
  {
    var i := InfoOf(Persist(s.infos[ids[n]]));
    NextIsUnknown(pl, s, ids, t, n);
    NextSlotIsFree(pl, s, ids, t, n);
    EntryTime(s, ids[n]);
    CreateKeeps(pl, t, n, i);
    EnterKeeps(pl, Created(t, n, i), n);
    CopyOne(s, ids, t, n, EnteredTried(pl, Created(t, n, i), n));
  }

  ghost predicate LoadedSoFar(pl: Placement, s: State, ids: seq<int>, m: Loading, next: nat, lost: nat) {
    && Core(pl, m.s) && Copies(s, ids, m.s, m.next) && m.next == next && m.lost == lost
    && m.s.news == map[]
  }

  lemma LoadTriedStep(pl: Placement, s: State, ids: seq<int>, m: Loading, p: Persisted)
    requires Core(pl, s) && Distinct(ids) && LoadedSoFar(pl, s, ids, m, m.next, m.lost)
    requires m.next < |ids| && ids[m.next] in s.infos && s.infos[ids[m.next]].inTried
    requires p == Persist(s.infos[ids[m.next]])
    ensures LoadedSoFar(pl, s, ids, TriedStep(pl, m, p), m.next + 1, m.lost)
  {
    LoadOneTried(pl, s, ids, m.s, m.next);
  }

  lemma {:induction false} LoadTried(pl: Placement, s: State, ids: seq<int>, l: Loading, ps: seq<Persisted>, n: nat)
    requires Core(pl, s) && Distinct(ids) && n <= |ps| && ListedFrom(s, ids, l.next, ps, true)
    requires Core(pl, l.s) && Copies(s, ids, l.s, l.next) && l.s.news == map[]
    ensures LoadedSoFar(pl, s, ids, TriedLoaded(pl, l, ps, n), l.next + n, l.lost)
  {
    if n > 0 {
      LoadTried(pl, s, ids, l, ps, n - 1);
      assert ListedAt(s, ids, l.next, ps, true, n - 1);
      LoadTriedStep(pl, s, ids, TriedLoaded(pl, l, ps, n - 1), ps[n - 1]);
    }
  }

  // ---------- reading it again: the references ----------

  /** The pairs that are read are the filled slots of the new table, each with the number of its entry. */
  ghost predicate Match(s: State, newIds: seq<int>, slots: seq<Slot>, pairs: seq<(nat, int)>) {
    |pairs| == |slots| && forall j :: 0 <= j < |pairs| ==> MatchAt(s, newIds, slots[j], pairs[j])
  }

  ghost predicate MatchAt(s: State, newIds: seq<int>, slot: Slot, p: (nat, int)) {
    p.0 == slot.bucket && SlotSaved(s, newIds, slot, p.1)
  }

  lemma {:induction false} PairsOfMatch(s: State, newIds: seq<int>, b: nat, xs: seq<int>, n: nat)
    requires BucketSaved(s, newIds, b, xs) && n <= |xs|
    ensures Match(s, newIds, SlotsOf(s.news, b, BUCKET_SIZE)[..n], PairsOf(b, xs, n, |newIds|))
  {
    if n > 0 {
      PairsOfMatch(s, newIds, b, xs, n - 1);
      var slots := SlotsOf(s.news, b, BUCKET_SIZE);
      SlotsOfAre(s.news, b, BUCKET_SIZE);
      assert slots[n - 1] in slots;
      assert SlotSaved(s, newIds, slots[n - 1], xs[n - 1]);
      assert slots[..n] == slots[..n - 1] + [slots[n - 1]];
    }
  }

  lemma {:induction false} PairsMatch(s: State, newIds: seq<int>, buckets: seq<seq<int>>, b: nat)
    requires b <= |buckets| && forall c :: 0 <= c < |buckets| ==> BucketSaved(s, newIds, c, buckets[c])
    ensures Match(s, newIds, SlotsUpTo(s.news, b), Pairs(buckets, b, |newIds|))
  {
    if b > 0 {
      PairsMatch(s, newIds, buckets, b - 1);
      var xs, slots := buckets[b - 1], SlotsOf(s.news, b - 1, BUCKET_SIZE);
      PairsOfMatch(s, newIds, b - 1, xs, |xs|);
      assert slots[..|xs|] == slots;
    }
  }

  /** The first n references are back in their slots. */
  ghost predicate Restored(t: State, slots: seq<Slot>, pairs: seq<(nat, int)>, n: nat)
    requires n <= |slots| == |pairs|
  {
    && (forall slot :: slot in t.news ==> Among(slots, n, slot))
    && forall j :: 0 <= j < n ==> RestoredAt(t, slots[j], pairs[j].1)
  }

  ghost predicate Among(slots: seq<Slot>, n: nat, slot: Slot)
    requires n <= |slots|
  {
    exists j :: 0 <= j < n && slots[j] == slot
  }

  ghost predicate RestoredAt(t: State, slot: Slot, x: int) { slot in t.news && t.news[slot] == x }

  lemma RestoredNext(t: State, slots: seq<Slot>, pairs: seq<(nat, int)>, n: nat, u: State)
    requires n < |slots| == |pairs| && Distinct(slots) && Restored(t, slots, pairs, n)
             && u.news == t.news[slots[n] := pairs[n].1]
    ensures Restored(u, slots, pairs, n + 1)
  {
    forall slot | slot in u.news ensures Among(slots, n + 1, slot) {
      if slot != slots[n] {
        assert Among(slots, n, slot);
      }
    }
    forall j | 0 <= j < n + 1 ensures RestoredAt(u, slots[j], pairs[j].1) {
      if j < n { assert RestoredAt(t, slots[j], pairs[j].1); }
    }
  }

  /** References restored so far are references that were there, and the next one is not among them. */
  lemma RefsSoFar(s: State, newIds: seq<int>, t: State, slots: seq<Slot>, pairs: seq<(nat, int)>, n: nat)
    requires Match(s, newIds, slots, pairs) && n < |slots| && Distinct(slots) && Restored(t, slots, pairs, n)
    ensures MatchAt(s, newIds, slots[n], pairs[n]) && slots[n] !in t.news
    ensures slots[n] in Refs(s.news, newIds[pairs[n].1])
    ensures Refs(t.news, pairs[n].1) <= Refs(s.news, newIds[pairs[n].1]) - {slots[n]}
  {
    assert MatchAt(s, newIds, slots[n], pairs[n]);
    assert slots[n] in t.news ==> Among(slots, n, slots[n]);
    forall slot | slot in Refs(t.news, pairs[n].1)
      ensures slot in Refs(s.news, newIds[pairs[n].1]) && slot != slots[n]
    {
      assert Among(slots, n, slot);
      var j :| 0 <= j < n && slots[j] == slot;
      assert MatchAt(s, newIds, slots[j], pairs[j]);
      assert RestoredAt(t, slots[j], pairs[j].1);
    }
  }

  /** An entry that still has a reference to come is below the limit. */
  lemma RoomForOne(pl: Placement, s: State, t: State, id: int, x: int, slot: Slot)
    requires Core(pl, s) && Core(pl, t) && x in NewIds(t) && slot in Refs(s.news, id)
    requires Refs(t.news, x) <= Refs(s.news, id) - {slot}
    ensures t.infos[x].refCount < NEW_BUCKETS_PER_ADDRESS
  {
    RefIsNew(pl, s, slot, id);
    assert RefCounted(t, x) && RefCounted(s, id);
    SubsetSize(Refs(t.news, x), Refs(s.news, id) - {slot});
  }

  /** The state in the middle of restoring references. */
  ghost predicate Restoring(pl: Placement, s: State, ids: seq<int>, slots: seq<Slot>, pairs: seq<(nat, int)>, n: nat,
                            tried: map<Slot, int>, t: State)
  {
    && n <= |slots| == |pairs| && Core(pl, t) && Copies(s, ids, t, |ids|) && t.tried == tried
    && Restored(t, slots, pairs, n)
  }

  lemma NextRefIsAdded(pl: Placement, s: State, newIds: seq<int>, ids: seq<int>, slots: seq<Slot>,
                       pairs: seq<(nat, int)>, n: nat, tried: map<Slot, int>, t: State)
    requires Core(pl, s) && Match(s, newIds, slots, pairs) && n < |slots| && Distinct(slots) && newIds <= ids
    requires Restoring(pl, s, ids, slots, pairs, n, tried, t)
    ensures var x := pairs[n].1;
            && x in NewIds(t) && t.infos[x].refCount < NEW_BUCKETS_PER_ADDRESS
            && slots[n] !in t.news && slots[n] == pl.newSlot(t.infos[x].service, slots[n].bucket)
            && RefStep(pl, t, pairs[n].0, x, true) == AddedRef(t, slots[n], x)
  {
    var x, slot := pairs[n].1, slots[n];
    RefsSoFar(s, newIds, t, slots, pairs, n);
    assert CopiedAt(s, ids, t, x);
    assert NewAt(pl, s, slot);
    assert x in NewIds(t);
    RoomForOne(pl, s, t, newIds[x], x, slot);
  }

  lemma RestoreOne(pl: Placement, s: State, newIds: seq<int>, ids: seq<int>, slots: seq<Slot>, pairs: seq<(nat, int)>,
                   n: nat,
                   tried: map<Slot, int>, t: State)
    requires Core(pl, s) && Match(s, newIds, slots, pairs) && n < |slots| && Distinct(slots) && newIds <= ids
    requires Restoring(pl, s, ids, slots, pairs, n, tried, t)
    ensures Restoring(pl, s, ids, slots, pairs, n + 1, tried, RefStep(pl, t, pairs[n].0, pairs[n].1, true))
  {
    var x, slot := pairs[n].1, slots[n];
    var u := AddedRef(t, slot, x);
    NextRefIsAdded(pl, s, newIds, ids, slots, pairs, n, tried, t);
    AddRefKeeps(pl, t, slot, x);
    RestoredNext(t, slots, pairs, n, u);
    CopiesIgnoreRefs(s, ids, t, slot, x);
  }

  lemma CopiesIgnoreRefs(s: State, ids: seq<int>, t: State, slot: Slot, x: int)
    requires Copies(s, ids, t, |ids|) && x in t.infos
    ensures Copies(s, ids, AddedRef(t, slot, x), |ids|)
  {
    var u := AddedRef(t, slot, x);
    forall k | 0 <= k < |ids| ensures CopiedAt(s, ids, u, k) { assert CopiedAt(s, ids, t, k); }
    assert forall k :: k in u.infos <==> k in t.infos;
  }

  ghost predicate Advances(pl: Placement, pairs: seq<(nat, int)>, ok: (nat, State) -> bool, k: nat, u: State)
    requires k < |pairs|
  {
    ok(k, u) ==> ok(k + 1, RefStep(pl, u, pairs[k].0, pairs[k].1, true))
  }

  /** What every step keeps holds after all of them. */
  lemma {:induction false} StepsKeep(pl: Placement, t: State, pairs: seq<(nat, int)>, n: nat, ok: (nat, State) -> bool)
    requires n <= |pairs| && ok(0, t)
    requires forall k: nat, u :: k < |pairs| ==> Advances(pl, pairs, ok, k, u)
    ensures ok(n, RefsLoaded(pl, t, pairs, n, true))
  {
    if n > 0 {
      StepsKeep(pl, t, pairs, n - 1, ok);
      assert Advances(pl, pairs, ok, n - 1, RefsLoaded(pl, t, pairs, n - 1, true));
    }
  }

  lemma LoadRefs(pl: Placement, s: State, newIds: seq<int>, ids: seq<int>, slots: seq<Slot>, pairs: seq<(nat, int)>,
                 t: State)
    requires Core(pl, s) && Match(s, newIds, slots, pairs) && Distinct(slots) && newIds <= ids
    requires Restoring(pl, s, ids, slots, pairs, 0, t.tried, t)
    ensures Restoring(pl, s, ids, slots, pairs, |pairs|, t.tried, RefsLoaded(pl, t, pairs, |pairs|, true))
  {
    var ok := (k: nat, u: State) => Restoring(pl, s, ids, slots, pairs, k, t.tried, u);
    forall k: nat, u | k < |pairs| ensures Advances(pl, pairs, ok, k, u) {
      if ok(k, u) { RestoreOne(pl, s, newIds, ids, slots, pairs, k, t.tried, u); }
    }
    StepsKeep(pl, t, pairs, |pairs|, ok);
  }

  // ---------- nothing is lost ----------

  /** The same entries under other ids, in the same slots of both tables. */
  ghost predicate Same(s: State, t: State, ids: seq<int>) {
    && Distinct(ids) && (forall id :: id in s.infos ==> id in ids) && Copies(s, ids, t, |ids|)
    && (forall k :: 0 <= k < |ids| ==> CopiedAt(s, ids, t, k) && t.infos[k].refCount == s.infos[ids[k]].refCount)
    && (forall slot :: slot in t.tried <==> slot in s.tried)
    && (forall slot :: slot in t.tried ==> SameAt(s.tried, t.tried, ids, slot))
    && (forall slot :: slot in t.news <==> slot in s.news)
    && (forall slot :: slot in t.news ==> SameAt(s.news, t.news, ids, slot))
  }

  ghost predicate SameAt(a: map<Slot, int>, b: map<Slot, int>, ids: seq<int>, slot: Slot) {
    slot in a && slot in b && 0 <= b[slot] < |ids| && ids[b[slot]] == a[slot]
  }

  lemma SameTried(pl: Placement, s: State, t: State, ids: seq<int>)
    requires Core(pl, s) && Core(pl, t) && Distinct(ids) && (forall id :: id in s.infos ==> id in ids)
             && Copies(s, ids, t, |ids|)
    ensures forall slot :: slot in t.tried <==> slot in s.tried
    ensures forall slot :: slot in t.tried ==> SameAt(s.tried, t.tried, ids, slot)
  {
    forall slot | slot in s.tried ensures slot in t.tried {
      assert TriedAt(pl, s, slot);
      var id := s.tried[slot];
      assert id in ids;
      var k :| 0 <= k < |ids| && ids[k] == id;
      assert CopiedAt(s, ids, t, k);
      assert InTried(pl, t, k);
    }
    forall slot | slot in t.tried ensures slot in s.tried && SameAt(s.tried, t.tried, ids, slot) {
      assert TriedAt(pl, t, slot);
      var k := t.tried[slot];
      assert CopiedAt(s, ids, t, k);
      assert InTried(pl, s, ids[k]);
    }
  }

  lemma SameNews(s: State, t: State, newIds: seq<int>, ids: seq<int>, slots: seq<Slot>, pairs: seq<(nat, int)>)
    requires Match(s, newIds, slots, pairs) && newIds <= ids && Restored(t, slots, pairs, |slots|)
    requires forall slot :: slot in s.news ==> slot in slots
    ensures forall slot :: slot in t.news <==> slot in s.news
    ensures forall slot :: slot in t.news ==> SameAt(s.news, t.news, ids, slot)
  {
    forall slot | slot in t.news ensures slot in s.news && SameAt(s.news, t.news, ids, slot) {
      assert Among(slots, |slots|, slot);
      var j :| 0 <= j < |slots| && slots[j] == slot;
      assert MatchAt(s, newIds, slots[j], pairs[j]) && RestoredAt(t, slots[j], pairs[j].1);
    }
    forall slot | slot in s.news ensures slot in t.news {
      assert slot in slots;
      var j :| 0 <= j < |slots| && slots[j] == slot;
      assert RestoredAt(t, slots[j], pairs[j].1);
    }
  }

  lemma RefsAlike(a: map<Slot, int>, b: map<Slot, int>, ids: seq<int>, k: nat)
    requires Distinct(ids) && k < |ids| && (forall slot :: slot in b <==> slot in a)
    requires forall slot :: slot in b ==> SameAt(a, b, ids, slot)
    ensures Refs(b, k) == Refs(a, ids[k])
  {
    forall slot ensures slot in Refs(b, k) <==> slot in Refs(a, ids[k]) {
      if slot in b { assert SameAt(a, b, ids, slot); }
    }
  }

  lemma SameRefs(pl: Placement, s: State, t: State, ids: seq<int>, k: nat)
    requires Core(pl, s) && Core(pl, t) && Distinct(ids) && Copies(s, ids, t, |ids|) && k < |ids|
    requires forall slot :: slot in t.news <==> slot in s.news
    requires forall slot :: slot in t.news ==> SameAt(s.news, t.news, ids, slot)
    ensures CopiedAt(s, ids, t, k) && t.infos[k].refCount == s.infos[ids[k]].refCount
  {
    var id := ids[k];
    assert CopiedAt(s, ids, t, k);
    if s.infos[id].inTried {
      assert InTried(pl, s, id) && InTried(pl, t, k);
    } else {
      assert RefCounted(s, id) && RefCounted(t, k);
      RefsAlike(s.news, t.news, ids, k);
    }
  }

  lemma SameKind(pl: Placement, s: State, t: State, newIds: seq<int>, triedIds: seq<int>, k: nat)
    requires Core(pl, s) && Loose(s) == {} && Same(s, t, newIds + triedIds) && k < |newIds + triedIds|
    requires forall k :: 0 <= k < |newIds| ==> newIds[k] in NewIds(s)
    requires forall k :: 0 <= k < |triedIds| ==> triedIds[k] in TriedIds(s)
    ensures k in t.infos && (t.infos[k].inTried <==> k >= |newIds|) && (k < |newIds| ==> t.infos[k].refCount > 0)
  {
    var ids := newIds + triedIds;
    assert CopiedAt(s, ids, t, k);
    if k < |newIds| {
      assert newIds[k] == ids[k];
      NotLoose(pl, s, newIds[k]);
    } else {
      assert triedIds[k - |newIds|] == ids[k];
    }
  }

  lemma RangeCounts(t: State, n: nat, m: nat)
    requires forall k :: k in t.infos <==> 0 <= k < n + m
    requires forall k :: k in t.infos ==> (t.infos[k].inTried <==> k >= n) && (k < n ==> t.infos[k].refCount > 0)
    ensures |NewIds(t)| == n && |TriedIds(t)| == m && Loose(t) == {}
  {
    var a, b, loose := seq(n, k => k), seq(m, k => n + k), Loose(t);
    assert (forall k: int :: k !in loose) ==> loose == {};
    forall k ensures k in a <==> k in NewIds(t) { if 0 <= k < n { assert a[k] == k; } }
    forall k ensures k in b <==> k in TriedIds(t) { if n <= k < n + m { assert b[k - n] == k; } }
    DistinctSize(a, NewIds(t));
    DistinctSize(b, TriedIds(t));
  }

  lemma SameIsConsistent(pl: Placement, s: State, t: State, newIds: seq<int>, triedIds: seq<int>)
    requires Core(pl, s) && Loose(s) == {} && Core(pl, t) && Same(s, t, newIds + triedIds)
    requires forall k :: 0 <= k < |newIds| ==> newIds[k] in NewIds(s)
    requires forall k :: 0 <= k < |triedIds| ==> triedIds[k] in TriedIds(s)
    ensures Consistent(pl, t, |newIds|, |triedIds|)
  {
    forall k | k in t.infos
      ensures (t.infos[k].inTried <==> k >= |newIds|) && (k < |newIds| ==> t.infos[k].refCount > 0)
    {
      SameKind(pl, s, t, newIds, triedIds, k);
    }
    RangeCounts(t, |newIds|, |triedIds|);
  }

  // ---------- the counts fit ----------

  lemma {:induction false} SlotsOfFew(table: map<Slot, int>, b: nat, i: nat)
    ensures |SlotsOf(table, b, i)| <= i
  {
    if i > 0 { SlotsOfFew(table, b, i - 1); }
  }

  lemma {:induction false} SlotsUpToFew(table: map<Slot, int>, b: nat)
    ensures |SlotsUpTo(table, b)| <= b * BUCKET_SIZE
  {
    if b > 0 {
      SlotsUpToFew(table, b - 1);
      SlotsOfFew(table, b - 1, BUCKET_SIZE);
    }
  }

  lemma {:induction false} FewerThanSlots(xs: set<int>, slots: seq<Slot>, table: map<Slot, int>)
    requires forall x :: x in xs ==> HasSlot(x, slots, table)
    ensures |xs| <= |slots|
  {
    if slots == [] {
      forall x ensures x !in xs { assert x in xs ==> HasSlot(x, slots, table); }
      assert (forall x: int :: x !in xs) ==> xs == {};
    } else {
      var last := slots[|slots| - 1];
      var rest := if last in table then xs - {table[last]} else xs;
      forall x | x in rest ensures HasSlot(x, slots[..|slots| - 1], table) {
        assert HasSlot(x, slots, table);
        var j :| 0 <= j < |slots| && slots[j] in table && table[slots[j]] == x;
        assert slots[..|slots| - 1][j] == slots[j];
      }
      FewerThanSlots(rest, slots[..|slots| - 1], table);
      assert last in table && table[last] in xs ==> xs == rest + {table[last]};
    }
  }

  ghost predicate HasSlot(x: int, slots: seq<Slot>, table: map<Slot, int>) {
    exists j :: 0 <= j < |slots| && slots[j] in table && table[slots[j]] == x
  }

  lemma CountsFit(pl: Placement, s: State, nNew: int, nTried: int)
    requires Consistent(pl, s, nNew, nTried)
    ensures nNew <= NEW_BUCKET_COUNT * BUCKET_SIZE && nTried <= TRIED_BUCKET_COUNT * BUCKET_SIZE
  {
    ConsistentIsChecked(pl, s, nNew, nTried, 1);
    var a, b := SlotsUpTo(s.news, NEW_BUCKET_COUNT), SlotsUpTo(s.tried, TRIED_BUCKET_COUNT);
    SlotsUpToAre(s.news, NEW_BUCKET_COUNT);
    SlotsUpToAre(s.tried, TRIED_BUCKET_COUNT);
    forall x | x in NewIds(s) ensures HasSlot(x, a, s.news) {
      NotLoose(pl, s, x);
      assert RefCounted(s, x);
      var slot :| slot in Refs(s.news, x);
      assert slot in a;
    }
    forall x | x in TriedIds(s) ensures HasSlot(x, b, s.tried) {
      assert InTried(pl, s, x);
      assert pl.triedSlot(s.infos[x].service) in b;
    }
    FewerThanSlots(NewIds(s), a, s.news);
    FewerThanSlots(TriedIds(s), b, s.tried);
    SlotsUpToFew(s.news, NEW_BUCKET_COUNT);
    SlotsUpToFew(s.tried, TRIED_BUCKET_COUNT);
  }

  // ---------- the theorem ----------

  lemma ListsAreListed(s: State, newIds: seq<int>, triedIds: seq<int>, f: File)
    requires Lists(s, newIds, f.news) && Lists(s, triedIds, f.tried)
    requires forall k :: 0 <= k < |newIds| ==> newIds[k] in NewIds(s)
    requires forall k :: 0 <= k < |triedIds| ==> triedIds[k] in TriedIds(s)
    ensures ListedFrom(s, newIds + triedIds, 0, f.news, false)
    ensures ListedFrom(s, newIds + triedIds, |newIds|, f.tried, true)
  {
    var ids := newIds + triedIds;
    forall k | 0 <= k < |f.news| ensures ListedAt(s, ids, 0, f.news, false, k) { assert ids[k] == newIds[k]; }
    forall k | 0 <= k < |f.tried|
      ensures ListedAt(s, ids, |newIds|, f.tried, true, k)
    {
      assert ids[|newIds| + k] == triedIds[k];
    }
  }

  lemma SavedHeader(pl: Placement, s: State, nNew: int, nTried: int, key: nat, checksum: nat,
                    newIds: seq<int>, triedIds: seq<int>, f: File)
    requires Consistent(pl, s, nNew, nTried) && SavedAs(s, nNew, nTried, key, checksum, newIds, triedIds, f)
    ensures HeaderOk(f) && BucketCount(f) == NEW_BUCKET_COUNT && Restores(f, checksum)
  {
    CountsFit(pl, s, nNew, nTried);
    FlipTwice(NEW_BUCKET_COUNT);
  }

  /** What the lists of entries bring back. */
  lemma EntriesComeBack(pl: Placement, s: State, newIds: seq<int>, triedIds: seq<int>, f: File)
    requires Core(pl, s) && Distinct(newIds + triedIds) && f.nNew == |newIds| && f.nTried == |triedIds|
    requires Lists(s, newIds, f.news) && Lists(s, triedIds, f.tried)
    requires forall k :: 0 <= k < |newIds| ==> newIds[k] in NewIds(s)
    requires forall k :: 0 <= k < |triedIds| ==> triedIds[k] in TriedIds(s)
    ensures var l := TriedLoaded(pl, Loading(NewsLoaded(f.news, f.nNew), f.nNew, 0), f.tried, f.nTried);
            var ids := newIds + triedIds;
            Core(pl, l.s) && Copies(s, ids, l.s, |ids|) && l.lost == 0 && l.s.news == map[]
  {
    ListsAreListed(s, newIds, triedIds, f);
    LoadNews(pl, s, newIds + triedIds, f.news, f.nNew);
    LoadTried(pl, s, newIds + triedIds, Loading(NewsLoaded(f.news, f.nNew), f.nNew, 0), f.tried, f.nTried);
  }

  /** And what the buckets bring back. */
  lemma RefsComeBack(pl: Placement, s: State, newIds: seq<int>, ids: seq<int>, t: State, buckets: seq<seq<int>>)
    requires Core(pl, s) && InBounds(s) && Core(pl, t) && Distinct(ids) && newIds <= ids
             && Copies(s, ids, t, |ids|) && t.news == map[]
    requires forall id :: id in s.infos ==> id in ids
    requires |buckets| == NEW_BUCKET_COUNT && forall b :: 0 <= b < NEW_BUCKET_COUNT ==>
               BucketSaved(s, newIds, b, buckets[b])
    ensures var pairs := Pairs(buckets, NEW_BUCKET_COUNT, |newIds|);
            var u := RefsLoaded(pl, t, pairs, |pairs|, true);
            Core(pl, u) && Same(s, u, ids)
  {
    var slots, pairs := SlotsUpTo(s.news, NEW_BUCKET_COUNT), Pairs(buckets, NEW_BUCKET_COUNT, |newIds|);
    PairsMatch(s, newIds, buckets, NEW_BUCKET_COUNT);
    SlotsUpToAre(s.news, NEW_BUCKET_COUNT);
    LoadRefs(pl, s, newIds, ids, slots, pairs, t);
    var u := RefsLoaded(pl, t, pairs, |pairs|, true);
    SameTried(pl, s, u, ids);
    SameNews(s, u, newIds, ids, slots, pairs);
    forall k | 0 <= k < |ids| ensures CopiedAt(s, ids, u, k) && u.infos[k].refCount == s.infos[ids[k]].refCount {
      SameRefs(pl, s, u, ids, k);
    }
  }

  ghost predicate ListsAll(s: State, newIds: seq<int>, triedIds: seq<int>) {
    && Distinct(newIds) && (forall id :: id in newIds <==> id in NewIds(s))
    && Distinct(triedIds) && (forall id :: id in triedIds <==> id in TriedIds(s))
  }

  lemma AllIds(s: State, newIds: seq<int>, triedIds: seq<int>)
    requires ListsAll(s, newIds, triedIds)
    ensures Distinct(newIds + triedIds) && forall id :: id in s.infos ==> id in newIds + triedIds
    ensures forall k :: 0 <= k < |newIds| ==> newIds[k] in NewIds(s)
    ensures forall k :: 0 <= k < |triedIds| ==> triedIds[k] in TriedIds(s)
  {
    forall k | 0 <= k < |newIds| ensures newIds[k] in NewIds(s) { var id := newIds[k]; assert id in newIds; }
    forall k | 0 <= k < |triedIds| ensures triedIds[k] in TriedIds(s) { var id := triedIds[k]; assert id in triedIds; }
    forall i, j | 0 <= i < |newIds| && 0 <= j < |triedIds| ensures newIds[i] != triedIds[j] {
      var x, y := newIds[i], triedIds[j];
      assert x in newIds && y in triedIds;
    }
    forall id | id in s.infos ensures id in newIds + triedIds {
      assert id in NewIds(s) || id in TriedIds(s);
    }
  }

  /** Loading what was saved brings back the same state, and it passes the check. */
  lemma RoundTrip(pl: Placement, s: State, nNew: int, nTried: int, key: nat, checksum: nat,
                  newIds: seq<int>, triedIds: seq<int>, f: File)
    requires Consistent(pl, s, nNew, nTried) && key != 0 && SavedAs(s, nNew, nTried, key, checksum, newIds, triedIds, f)
    requires ListsAll(s, newIds, triedIds)
    ensures HeaderOk(f)
    ensures var l := Staged(pl, f, checksum);
            && Same(s, l.s, newIds + triedIds) && l.lost == 0 && Loose(l.s) == {}
            && Checked(pl, l.s, nNew, nTried, key)
  {
    AllIds(s, newIds, triedIds);
    SavedHeader(pl, s, nNew, nTried, key, checksum, newIds, triedIds, f);
    ConsistentIsChecked(pl, s, nNew, nTried, key);
    EntriesComeBack(pl, s, newIds, triedIds, f);
    var l := TriedLoaded(pl, Loading(NewsLoaded(f.news, f.nNew), f.nNew, 0), f.tried, f.nTried);
    RefsComeBack(pl, s, newIds, newIds + triedIds, l.s, f.buckets);
    var t := Staged(pl, f, checksum).s;
    SameIsConsistent(pl, s, t, newIds, triedIds);
    ConsistentIsChecked(pl, t, nNew, nTried, key);
  }

  method LoadBack(m: AddrMan.AddrMan, f: File, checksum: nat) returns (r: Loaded)
    requires m.random == [] && m.collisions == {} && (forall k :: m.place(k).Ok()) && HeaderOk(f)
    requires var l := Staged(m.place(f.key), f, checksum);
             l.lost == 0 && Loose(l.s) == {} && Checked(m.place(f.key), l.s, f.nNew, f.nTried, f.key)
    modifies m
    ensures r.Success? && m.Valid() && m.key == f.key && m.nNew == f.nNew && m.nTried == f.nTried
    ensures m.S() == Staged(m.place(f.key), f, checksum).s
  {
    ghost var kept;
    r, kept := Unserialize(m, f, checksum);
  }

  /** Saving one address manager and loading the file into an empty one with the same address map. */
  method SaveAndLoad(m: AddrMan.AddrMan, order: seq<int>, m2: AddrMan.AddrMan, checksum: nat)
    returns (r: Loaded, ghost ids: seq<int>)
    requires m.Valid() && m.key != 0 && Orders(m.S(), order)
    requires m2 != m && m2.place == m.place && (forall k :: m.place(k).Ok()) && m2.random == [] && m2.collisions == {}
    modifies m2
    ensures r.Success? && m2.Valid() && m2.key == m.key && m2.nNew == m.nNew && m2.nTried == m.nTried
    ensures Same(m.S(), m2.S(), ids)
  {
    ghost var pl := m.Pl();
    var s := State(m.infos, m.addrs, m.random, m.tried, m.news);
    var f, newIds, triedIds := Serialize(s, m.nNew, m.nTried, m.key, checksum, order, pl);
    RoundTrip(pl, s, m.nNew, m.nTried, m.key, checksum, newIds, triedIds, f);
    r := LoadBack(m2, f, checksum);
    ids := newIds + triedIds;
  }
}

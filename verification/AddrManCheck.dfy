/** The address manager's own consistency check (src/addrman.cpp): it returns zero exactly for consistent tables,
  * and every state that the operations reach is one.
  */
module AddrManCheck {
  import opened AddrManModel
  import AddrMan
  import AddrManSpec

  /** What the check asks of one entry. */
  ghost predicate EntryOk(s: State, id: int)
    requires id in s.infos
  {
    var i := s.infos[id];
    && (if i.inTried then i.lastSuccess != 0 && i.refCount == 0 else 0 < i.refCount <= NEW_BUCKETS_PER_ADDRESS)
    && Named(s, id) && HasPosition(s, id) && i.lastTry >= 0 && i.lastSuccess >= 0
  }

  ghost predicate EntriesOk(s: State) {
    forall id :: id in s.infos ==> EntryOk(s, id)
  }

  /** The meaning of the check. */
  ghost predicate Checked(pl: Placement, s: State, nNew: int, nTried: int, key: nat) {
    && |s.random| == nTried + nNew && EntriesOk(s)
    && |TriedIds(s)| == nTried && |NewIds(s)| == nNew
    && TriedOk(pl, s) && NewsOk(pl, s) && key != 0
  }

  /** The tables have only so many slots. */
  ghost predicate InBounds(s: State) {
    && (forall slot :: slot in s.tried ==> slot.bucket < TRIED_BUCKET_COUNT && slot.position < BUCKET_SIZE)
    && (forall slot :: slot in s.news ==> slot.bucket < NEW_BUCKET_COUNT && slot.position < BUCKET_SIZE)
  }

  // ---------- entries ----------

  ghost function Counts(s: State, ids: set<int>): map<int, int>
    requires forall id :: id in ids ==> id in s.infos
  {
    map id | id in ids && !s.infos[id].inTried :: s.infos[id].refCount
  }

  method CheckEntry(s: State, id: int) returns (code: int)
    requires id in s.infos
    ensures code == 0 <==> EntryOk(s, id)
  {
    var i := s.infos[id];
    if i.inTried {
      if i.lastSuccess == 0 {
        return -1;
      }
      if i.refCount != 0 {
        return -2;
      }
    } else {
      if i.refCount < 0 || i.refCount > NEW_BUCKETS_PER_ADDRESS {
        return -3;
      }
      if i.refCount == 0 {
        return -4;
      }
    }
    if i.service !in s.addrs || s.addrs[i.service] != id {
      return -5;
    }
    if i.randomPos < 0 || i.randomPos >= |s.random| || s.random[i.randomPos] != id {
      return -14;
    }
    if i.lastTry < 0 {
      return -6;
    }
    if i.lastSuccess < 0 {
      return -8;
    }
    code := 0;
  }

  method CheckEntries(s: State) returns (code: int, setTried: set<int>, mapNew: map<int, int>)
    ensures code == 0 <==> EntriesOk(s)
    ensures code == 0 ==> setTried == TriedIds(s) && mapNew == Counts(s, s.infos.Keys)
  {
    setTried, mapNew := {}, map[];
    var todo := s.infos.Keys;
    while todo != {}
      invariant EntriesSeen(s, todo, setTried, mapNew)
      decreases |todo|
    {
      AddrMan.SomeMember(todo);
      var id :| id in todo;
      code := CheckEntry(s, id);
      if code != 0 {
        return;
      }
      EntrySeen(s, todo, setTried, mapNew, id);
      if s.infos[id].inTried {
        setTried := setTried + {id};
      } else {
        mapNew := mapNew[id := s.infos[id].refCount];
      }
      todo := todo - {id};
    }
    assert s.infos.Keys - todo == s.infos.Keys;
    code := 0;
  }

  /** What the entries no longer in todo have left behind. */
  ghost predicate EntriesSeen(s: State, todo: set<int>, setTried: set<int>, mapNew: map<int, int>) {
    && todo <= s.infos.Keys
    && (forall id :: id in s.infos && id !in todo ==> EntryOk(s, id))
    && setTried == (set id | id in s.infos && id !in todo && s.infos[id].inTried)
    && mapNew == Counts(s, s.infos.Keys - todo)
  }

  lemma EntrySeen(s: State, todo: set<int>, setTried: set<int>, mapNew: map<int, int>, id: int)
    requires EntriesSeen(s, todo, setTried, mapNew) && id in todo && EntryOk(s, id)
    ensures s.infos[id].inTried ==> EntriesSeen(s, todo - {id}, setTried + {id}, mapNew)
    ensures !s.infos[id].inTried ==> EntriesSeen(s, todo - {id}, setTried, mapNew[id := s.infos[id].refCount])
  {
    assert s.infos.Keys - (todo - {id}) == s.infos.Keys - todo + {id};
  }

  // ---------- the tables ----------

  /** The order in which the slots of a table are visited. */
  predicate Before(slot: Slot, n: nat, i: nat) { slot.bucket < n || (slot.bucket == n && slot.position < i) }

  /** The ids in the slots already visited. */
  ghost function Seen(table: map<Slot, int>, n: nat, i: nat): set<int> {
    set slot | slot in table && Before(slot, n, i) :: table[slot]
  }

  ghost predicate TriedBefore(pl: Placement, s: State, n: nat, i: nat) {
    forall slot :: slot in s.tried && Before(slot, n, i) ==> TriedAt(pl, s, slot)
  }

  lemma SeenNext(table: map<Slot, int>, n: nat, i: nat)
    ensures Seen(table, n, i + 1) == Seen(table, n, i) + (if Slot(n, i) in table then {table[Slot(n, i)]} else {})
  {
    forall x | x in Seen(table, n, i + 1) && x !in Seen(table, n, i)
      ensures Slot(n, i) in table && x == table[Slot(n, i)]
    {
      var slot :| slot in table && Before(slot, n, i + 1) && table[slot] == x;
      assert Before(slot, n, i) || slot == Slot(n, i);
    }
    forall x | x in Seen(table, n, i) ensures x in Seen(table, n, i + 1) {
      var slot :| slot in table && Before(slot, n, i) && table[slot] == x;
      assert Before(slot, n, i + 1);
    }
    if Slot(n, i) in table { assert Before(Slot(n, i), n, i + 1); }
  }

  /** An id in its own slot of the tried table was not seen in an earlier one. */
  lemma SeenOnce(pl: Placement, s: State, n: nat, i: nat)
    requires TriedBefore(pl, s, n, i) && Slot(n, i) in s.tried && TriedAt(pl, s, Slot(n, i))
    ensures s.tried[Slot(n, i)] !in Seen(s.tried, n, i)
  {
    forall slot | slot in s.tried && Before(slot, n, i) ensures s.tried[slot] != s.tried[Slot(n, i)] {
      assert TriedAt(pl, s, slot);
    }
  }

  method CheckTriedSlot(pl: Placement, s: State, n: nat, i: nat, left: set<int>) returns (code: int, rest: set<int>)
    requires TriedBefore(pl, s, n, i) && left == TriedIds(s) - Seen(s.tried, n, i)
    ensures code == 0 <==> TriedBefore(pl, s, n, i + 1)
    ensures code == 0 ==> rest == TriedIds(s) - Seen(s.tried, n, i + 1)
  {
    var slot := Slot(n, i);
    SeenNext(s.tried, n, i);
    assert Before(slot, n, i + 1) && forall x :: Before(x, n, i + 1) ==> Before(x, n, i) || x == slot;
    rest := left;
    if slot in s.tried {
      if TriedAt(pl, s, slot) { SeenOnce(pl, s, n, i); }
      var id := s.tried[slot];
      if id !in left {
        return -11, rest;
      }
      if id !in s.infos || pl.triedSlot(s.infos[id].service).bucket != n {
        return -17, rest;
      }
      if pl.triedSlot(s.infos[id].service).position != i {
        return -18, rest;
      }
      rest := left - {id};
    }
    code := 0;
  }

  method CheckTried(pl: Placement, s: State, setTried: set<int>) returns (code: int, rest: set<int>)
    requires InBounds(s) && setTried == TriedIds(s)
    ensures code == 0 <==> forall slot :: slot in s.tried ==> TriedAt(pl, s, slot)
    ensures code == 0 ==> rest == TriedIds(s) - s.tried.Values
  {
    rest := setTried;
    for n := 0 to TRIED_BUCKET_COUNT
      invariant TriedBefore(pl, s, n, 0) && rest == TriedIds(s) - Seen(s.tried, n, 0)
    {
      for i := 0 to BUCKET_SIZE
        invariant TriedBefore(pl, s, n, i) && rest == TriedIds(s) - Seen(s.tried, n, i)
      {
        code, rest := CheckTriedSlot(pl, s, n, i, rest);
        if code != 0 {
          return;
        }
      }
      NextBucket(s.tried, n);
      assert forall slot :: slot in s.tried && Before(slot, n + 1, 0) ==> Before(slot, n, BUCKET_SIZE);
    }
    AllSeen(s.tried, TRIED_BUCKET_COUNT);
    assert forall slot :: slot in s.tried ==> Before(slot, TRIED_BUCKET_COUNT, 0);
    code := 0;
  }

  lemma NextBucket(table: map<Slot, int>, n: nat)
    requires forall slot :: slot in table ==> slot.position < BUCKET_SIZE
    ensures Seen(table, n + 1, 0) == Seen(table, n, BUCKET_SIZE)
  {
    assert forall slot :: slot in table ==> (Before(slot, n + 1, 0) <==> Before(slot, n, BUCKET_SIZE));
  }

  lemma AllSeen(table: map<Slot, int>, count: nat)
    requires forall slot :: slot in table ==> slot.bucket < count
    ensures Seen(table, count, 0) == table.Values
  {
    assert forall slot :: slot in table ==> Before(slot, count, 0);
  }

  /** The references to an entry in the slots already visited. */
  ghost function RefsBefore(news: map<Slot, int>, id: int, n: nat, i: nat): set<Slot> {
    set slot | slot in Refs(news, id) && Before(slot, n, i)
  }

  ghost predicate NewBefore(pl: Placement, s: State, n: nat, i: nat) {
    && (forall slot :: slot in s.news && Before(slot, n, i) ==> NewAt(pl, s, slot))
    && (forall id :: id in NewIds(s) ==> |RefsBefore(s.news, id, n, i)| <= s.infos[id].refCount)
  }

  /** The counts that are left when the visited references are taken off; an exhausted entry is gone. */
  ghost predicate LeftOver(s: State, left: map<int, int>, n: nat, i: nat) {
    && left.Keys <= NewIds(s)
    && forall id :: id in NewIds(s) ==> LeftAt(s, left, n, i, id)
  }

  ghost predicate LeftAt(s: State, left: map<int, int>, n: nat, i: nat, id: int)
    requires id in s.infos
  {
    if id in left then left[id] == s.infos[id].refCount - |RefsBefore(s.news, id, n, i)| > 0
    else s.infos[id].refCount <= |RefsBefore(s.news, id, n, i)|
  }

  lemma BeforeNext(x: Slot, n: nat, i: nat)
    ensures Before(x, n, i + 1) <==> Before(x, n, i) || x == Slot(n, i)
    ensures !Before(Slot(n, i), n, i)
  {
    assert x == Slot(x.bucket, x.position);
  }

  lemma RefsBeforeNext(news: map<Slot, int>, id: int, n: nat, i: nat)
    ensures |RefsBefore(news, id, n, i + 1)| ==
            |RefsBefore(news, id, n, i)| + if Slot(n, i) in news && news[Slot(n, i)] == id then 1 else 0
  {
    var slot := Slot(n, i);
    var before, after := RefsBefore(news, id, n, i), RefsBefore(news, id, n, i + 1);
    BeforeNext(slot, n, i);
    forall x | x in Refs(news, id) ensures x in after <==> x in before || x == slot { BeforeNext(x, n, i); }
    assert after == before + if slot in Refs(news, id) then {slot} else {};
  }

  method CheckNewSlot(pl: Placement, s: State, n: nat, i: nat, left: map<int, int>)
    returns (code: int, rest: map<int, int>)
    requires pl.Ok() && n < NEW_BUCKET_COUNT && NewBefore(pl, s, n, i) && LeftOver(s, left, n, i)
    ensures code == 0 <==> NewBefore(pl, s, n, i + 1)
    ensures code == 0 ==> LeftOver(s, rest, n, i + 1)
  {
    var slot := Slot(n, i);
    NewBeforeNext(pl, s, n, i);
    LeftOverNext(pl, s, left, n, i);
    rest := left;
    if slot in s.news {
      var id := s.news[slot];
      if id !in left {
        return -12, rest;
      }
      if id !in s.infos || pl.newSlot(s.infos[id].service, n).position != i {
        return -19, rest;
      }
      rest := if left[id] - 1 == 0 then left - {id} else left[id := left[id] - 1];
    }
    code := 0;
  }

  lemma NewBeforeNext(pl: Placement, s: State, n: nat, i: nat)
    requires NewBefore(pl, s, n, i)
    ensures NewBefore(pl, s, n, i + 1) <==>
              (Slot(n, i) in s.news ==>
                 && NewAt(pl, s, Slot(n, i))
                 && |RefsBefore(s.news, s.news[Slot(n, i)], n, i)| < s.infos[s.news[Slot(n, i)]].refCount)
  {
    var slot := Slot(n, i);
    forall x | x in s.news ensures Before(x, n, i + 1) <==> Before(x, n, i) || x == slot { BeforeNext(x, n, i); }
    forall id | id in NewIds(s)
      ensures |RefsBefore(s.news, id, n, i + 1)| ==
              |RefsBefore(s.news, id, n, i)| + if slot in s.news && s.news[slot] == id then 1 else 0
    {
      RefsBeforeNext(s.news, id, n, i);
    }
    assert slot in s.news && NewAt(pl, s, slot) ==> s.news[slot] in NewIds(s);
  }

  lemma LeftOverNext(pl: Placement, s: State, left: map<int, int>, n: nat, i: nat)
    requires LeftOver(s, left, n, i)
    ensures Slot(n, i) !in s.news ==> LeftOver(s, left, n, i + 1)
    ensures Slot(n, i) in s.news && s.news[Slot(n, i)] in left ==>
              var id := s.news[Slot(n, i)];
              && id in NewIds(s) && |RefsBefore(s.news, id, n, i)| < s.infos[id].refCount
              && LeftOver(s, if left[id] - 1 == 0 then left - {id} else left[id := left[id] - 1], n, i + 1)
    ensures Slot(n, i) in s.news && s.news[Slot(n, i)] !in left && s.news[Slot(n, i)] in NewIds(s) ==>
              |RefsBefore(s.news, s.news[Slot(n, i)], n, i)| >= s.infos[s.news[Slot(n, i)]].refCount
  {
    var slot := Slot(n, i);
    forall id | id in NewIds(s)
      ensures |RefsBefore(s.news, id, n, i + 1)| ==
              |RefsBefore(s.news, id, n, i)| + if slot in s.news && s.news[slot] == id then 1 else 0
    {
      RefsBeforeNext(s.news, id, n, i);
    }
    assert forall id :: id in NewIds(s) ==> LeftAt(s, left, n, i, id);
    if slot in s.news && s.news[slot] in left {
      var id := s.news[slot];
      var rest := if left[id] - 1 == 0 then left - {id} else left[id := left[id] - 1];
      forall k | k in NewIds(s) ensures LeftAt(s, rest, n, i + 1, k) { assert LeftAt(s, left, n, i, k); }
    } else if slot !in s.news {
      forall k | k in NewIds(s) ensures LeftAt(s, left, n, i + 1, k) { assert LeftAt(s, left, n, i, k); }
    }
  }

  method CheckNews(pl: Placement, s: State, mapNew: map<int, int>) returns (code: int, rest: map<int, int>)
    requires pl.Ok() && InBounds(s) && EntriesOk(s) && mapNew == Counts(s, s.infos.Keys)
    ensures code == 0 && rest == map[] <==> NewsOk(pl, s)
  {
    rest := mapNew;
    NothingVisited(pl, s, mapNew);
    for n := 0 to NEW_BUCKET_COUNT
      invariant NewBefore(pl, s, n, 0) && LeftOver(s, rest, n, 0)
    {
      for i := 0 to BUCKET_SIZE
        invariant NewBefore(pl, s, n, i) && LeftOver(s, rest, n, i)
      {
        code, rest := CheckNewSlot(pl, s, n, i, rest);
        if code != 0 {
          NotAllNew(pl, s, n, i + 1);
          return;
        }
      }
      NextNewBucket(pl, s, rest, n);
    }
    AllVisited(pl, s, rest);
    code := 0;
  }

  lemma NothingVisited(pl: Placement, s: State, left: map<int, int>)
    requires EntriesOk(s) && left == Counts(s, s.infos.Keys)
    ensures NewBefore(pl, s, 0, 0) && LeftOver(s, left, 0, 0)
  {
    forall id | id in NewIds(s) ensures RefsBefore(s.news, id, 0, 0) == {} && LeftAt(s, left, 0, 0, id) {
      assert EntryOk(s, id);
      assert RefsBefore(s.news, id, 0, 0) == {};
    }
  }

  lemma NextNewBucket(pl: Placement, s: State, left: map<int, int>, n: nat)
    requires InBounds(s) && NewBefore(pl, s, n, BUCKET_SIZE) && LeftOver(s, left, n, BUCKET_SIZE)
    ensures NewBefore(pl, s, n + 1, 0) && LeftOver(s, left, n + 1, 0)
  {
    assert forall slot :: slot in s.news ==> (Before(slot, n + 1, 0) <==> Before(slot, n, BUCKET_SIZE));
    forall id | id in NewIds(s) ensures RefsBefore(s.news, id, n + 1, 0) == RefsBefore(s.news, id, n, BUCKET_SIZE) {
    }
    forall id | id in NewIds(s) ensures LeftAt(s, left, n + 1, 0, id) { assert LeftAt(s, left, n, BUCKET_SIZE, id); }
  }

  lemma SubsetSize<T>(a: set<T>, b: set<T>)
    requires a <= b
    ensures |a| <= |b|
    ensures |a| == |b| ==> a == b
  {
    assert b == a + (b - a);
  }

  /** A fault found on the way is a fault. */
  lemma NotAllNew(pl: Placement, s: State, n: nat, i: nat)
    requires !NewBefore(pl, s, n, i)
    ensures !NewsOk(pl, s)
  {
    if NewsOk(pl, s) {
      forall id | id in NewIds(s) ensures |RefsBefore(s.news, id, n, i)| <= s.infos[id].refCount {
        assert RefCounted(s, id);
        SubsetSize(RefsBefore(s.news, id, n, i), Refs(s.news, id));
      }
    }
  }

  lemma AllVisited(pl: Placement, s: State, left: map<int, int>)
    requires InBounds(s) && EntriesOk(s) && NewBefore(pl, s, NEW_BUCKET_COUNT, 0)
             && LeftOver(s, left, NEW_BUCKET_COUNT, 0)
    ensures left == map[] <==> NewsOk(pl, s)
  {
    assert forall slot :: slot in s.news ==> Before(slot, NEW_BUCKET_COUNT, 0);
    forall id | id in NewIds(s) ensures id in left <==> !RefCounted(s, id) {
      assert RefsBefore(s.news, id, NEW_BUCKET_COUNT, 0) == Refs(s.news, id);
      assert LeftAt(s, left, NEW_BUCKET_COUNT, 0, id) && EntryOk(s, id);
    }
    if left != map[] {
      assert left.Keys != {};
      AddrMan.SomeMember(left.Keys);
    }
  }

  /** The whole check. */
  method CheckAddrman(pl: Placement, s: State, nNew: int, nTried: int, key: nat) returns (code: int)
    requires pl.Ok() && InBounds(s)
    ensures code == 0 <==> Checked(pl, s, nNew, nTried, key)
  {
    if |s.random| != nTried + nNew {
      return -7;
    }
    var setTried, mapNew;
    code, setTried, mapNew := CheckEntries(s);
    if code != 0 {
      return;
    }
    assert mapNew.Keys == NewIds(s) && |mapNew| == |mapNew.Keys|;
    if |setTried| != nTried {
      return -9;
    }
    if |mapNew| != nNew {
      return -10;
    }
    code, setTried := CheckTried(pl, s, setTried);
    if code != 0 {
      return;
    }
    TriedLeft(pl, s);
    code, mapNew := CheckNews(pl, s, mapNew);
    if code != 0 {
      return;
    }
    if setTried != {} {
      return -13;
    }
    if mapNew != map[] {
      return -15;
    }
    if key == 0 {
      return -16;
    }
    code := 0;
  }

  lemma TriedLeft(pl: Placement, s: State)
    requires EntriesOk(s) && forall slot :: slot in s.tried ==> TriedAt(pl, s, slot)
    ensures TriedIds(s) - s.tried.Values == {} <==> TriedOk(pl, s)
  {
    var left := TriedIds(s) - s.tried.Values;
    forall id | id in TriedIds(s) ensures id in left <==> !InTried(pl, s, id) {
      assert EntryOk(s, id);
      if id in s.tried.Values {
        var slot :| slot in s.tried && s.tried[slot] == id;
        assert TriedAt(pl, s, slot);
      }
    }
    if left != {} { AddrMan.SomeMember(left); }
  }

  // ---------- consistent states pass ----------

  lemma {:induction false} DistinctSize(r: seq<int>, k: set<int>)
    requires (forall i, j :: 0 <= i < j < |r| ==> r[i] != r[j]) && forall x :: x in r <==> x in k
    ensures |r| == |k|
  {
    if r == [] {
      assert (forall x: int :: x !in k) ==> k == {};
    } else {
      var last := r[|r| - 1];
      assert r == r[..|r| - 1] + [last];
      DistinctSize(r[..|r| - 1], k - {last});
    }
  }

  lemma RandomSize(s: State)
    requires RandomOk(s)
    ensures |s.random| == |s.infos.Keys|
  {
    forall i, j | 0 <= i < j < |s.random| ensures s.random[i] != s.random[j] {
      assert RandomAt(s, i) && RandomAt(s, j);
    }
    forall id | id in s.infos ensures id in s.random { assert HasPosition(s, id); }
    forall id | id in s.random ensures id in s.infos {
      var p :| 0 <= p < |s.random| && s.random[p] == id;
      assert RandomAt(s, p);
    }
    DistinctSize(s.random, s.infos.Keys);
  }

  lemma ConsistentIsChecked(pl: Placement, s: State, nNew: int, nTried: int, key: nat)
    requires Consistent(pl, s, nNew, nTried) && key != 0
    ensures Checked(pl, s, nNew, nTried, key) && InBounds(s)
  {
    RandomSize(s);
    assert s.infos.Keys == NewIds(s) + TriedIds(s);
    forall id | id in s.infos ensures EntryOk(s, id) {
      assert Named(s, id) && HasPosition(s, id) && TimeOk(s.infos[id]);
      if s.infos[id].inTried { assert InTried(pl, s, id); } else { NotLoose(pl, s, id); }
    }
    forall slot | slot in s.tried ensures slot.bucket < TRIED_BUCKET_COUNT && slot.position < BUCKET_SIZE {
      assert TriedAt(pl, s, slot);
    }
    forall slot | slot in s.news ensures slot.bucket < NEW_BUCKET_COUNT && slot.position < BUCKET_SIZE {
      assert NewAt(pl, s, slot);
    }
  }

  /** From construction, whatever the hashes are, every run of operations leaves tables that pass the check. */
  method RunAndCheck(hashes: nat -> Hashes, net: AddrManSpec.Network, key: nat, calls: seq<AddrMan.Call>)
    returns (code: int)
    requires key != 0 && forall i :: 0 <= i < |calls| ==> AddrMan.PositiveTime(calls[i])
    ensures code == 0
  {
    var place := (k: nat) => Reduce(hashes(k));
    forall k: nat ensures place(k).Ok() { assert place(k) == Reduce(hashes(k)); }
    var m := new AddrMan.AddrMan(place, net, key);
    m.Run(calls);
    ConsistentIsChecked(m.Pl(), m.S(), m.nNew, m.nTried, key);
    code := CheckAddrman(m.Pl(), AddrManModel.State(m.infos, m.addrs, m.random, m.tried, m.news), m.nNew, m.nTried,
                         key);
  }
}

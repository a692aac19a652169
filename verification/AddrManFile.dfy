/** The address manager on disk (src/addrman.cpp). The file leaves out the tables, the maps and the random vector;
  * loading rebuilds them.
  */
module AddrManFile {
  import opened AddrManModel
  import AddrMan
  import opened AddrManSpec
  import opened AddrManCheck

  const FILE_FORMAT: nat := 4
  const INCOMPATIBILITY_BASE: nat := 32
  const BIT_30 := 0x4000_0000

  /** The part of an entry that is written. */
  datatype Persisted = Persisted(service: Service, time: int, services: set<nat>, source: Net, lastSuccess: int,
                                 attempts: int)

  /** The file, field by field. */
  datatype File = File(
    format: nat, compat: nat, key: nat, nNew: int, nTried: int, nUBuckets: int,
    news: seq<Persisted>, tried: seq<Persisted>, buckets: seq<seq<int>>, checksum: nat)

  function Persist(i: Info): Persisted { Persisted(i.service, i.time, i.services, i.source, i.lastSuccess, i.attempts) }

  function InfoOf(p: Persisted): Info {
    Info(p.service, p.time, p.services, p.source, 0, 0, p.lastSuccess, p.attempts, 0, false, -1)
  }

  /** Exclusive or with 2^30, on a number in two's complement. */
  function FlipBit30(x: int): int { if (x / BIT_30) % 2 == 0 then x + BIT_30 else x - BIT_30 }

  lemma FlipTwice(x: int)
    ensures FlipBit30(FlipBit30(x)) == x
  {
    var q := x / BIT_30;
    assert (x + BIT_30) / BIT_30 == q + 1 && (x - BIT_30) / BIT_30 == q - 1;
  }

  const EMPTY := State(map[], map[], [], map[], map[])

  // ---------- the stages of loading ----------

  function NewsLoaded(ps: seq<Persisted>, n: nat): State
    requires n <= |ps|
  {
    if n == 0 then EMPTY else Created(NewsLoaded(ps, n - 1), n - 1, InfoOf(ps[n - 1]))
  }

  /** A state, the next unused id, and the number of entries that found their slot taken. */
  datatype Loading = Loading(s: State, next: nat, lost: nat)

  function TriedStep(pl: Placement, l: Loading, p: Persisted): Loading {
    if pl.triedSlot(p.service) in l.s.tried then l.(lost := l.lost + 1)
    else Loading(EnteredTried(pl, Created(l.s, l.next, InfoOf(p)), l.next), l.next + 1, l.lost)
  }

  function TriedLoaded(pl: Placement, l: Loading, ps: seq<Persisted>, n: nat): Loading
    requires n <= |ps|
    decreases n
  {
    if n == 0 then l else TriedStep(pl, TriedLoaded(pl, l, ps, n - 1), ps[n - 1])
  }

  /** A reference is restored where it was, or given to the entry's own source if it cannot be. */
  function RefStep(pl: Placement, s: State, bucket: nat, id: int, restore: bool): State {
    if id !in s.infos || s.infos[id].refCount >= NEW_BUCKETS_PER_ADDRESS then s
    else
      var slot := pl.newSlot(s.infos[id].service, bucket);
      if restore && slot !in s.news then AddedRef(s, slot, id)
      else if HomeSlot(pl, s.infos[id]) !in s.news then AddedRef(s, HomeSlot(pl, s.infos[id]), id)
      else s
  }

  function RefsLoaded(pl: Placement, s: State, pairs: seq<(nat, int)>, n: nat, restore: bool): State
    requires n <= |pairs|
    decreases n
  {
    if n == 0 then s else RefStep(pl, RefsLoaded(pl, s, pairs, n - 1, restore), pairs[n - 1].0, pairs[n - 1].1, restore)
  }

  /** The bucket entries with a usable index, in the order they are read. */
  function PairsOf(bucket: nat, xs: seq<int>, n: nat, nNew: int): seq<(nat, int)>
    requires n <= |xs|
  {
    if n == 0 then [] else PairsOf(bucket, xs, n - 1, nNew) + if 0 <= xs[n - 1] < nNew then [(bucket, xs[n - 1])]
    else []
  }

  function Pairs(buckets: seq<seq<int>>, b: nat, nNew: int): seq<(nat, int)>
    requires b <= |buckets|
  {
    if b == 0 then [] else Pairs(buckets, b - 1, nNew) + PairsOf(b - 1, buckets[b - 1], |buckets[b - 1]|, nNew)
  }

  // ---------- what holds for any file ----------

  /** The random vector and the address map make sense, whatever the entries are. */
  ghost predicate Listed(s: State, next: int) {
    && RandomOk(s) && (forall svc :: svc in s.addrs ==> Known(s, svc))
    && forall id :: id in s.infos ==> 0 <= id < next
  }

  lemma CreateListed(s: State, next: nat, i: Info)
    requires Listed(s, next)
    ensures Listed(Created(s, next, i), next + 1)
  {
    var t := Created(s, next, i);
    forall k | k in t.infos ensures HasPosition(t, k) { if k != next { assert HasPosition(s, k); } }
    forall p | 0 <= p < |t.random| ensures RandomAt(t, p) { if p < |s.random| { assert RandomAt(s, p); } }
    forall svc | svc in t.addrs ensures Known(t, svc) { if svc != i.service { assert Known(s, svc); } }
  }

  lemma EnterListed(pl: Placement, s: State, next: int, id: int)
    requires Listed(s, next) && id in s.infos
    ensures Listed(EnteredTried(pl, s, id), next)
  {
    var t := EnteredTried(pl, s, id);
    MarkKeepsLists(s, t, id);
    forall svc | svc in t.addrs ensures Known(t, svc) { assert Known(s, svc); }
  }

  lemma AddRefListed(s: State, next: int, slot: Slot, id: int)
    requires Listed(s, next) && id in s.infos
    ensures Listed(AddedRef(s, slot, id), next)
  {
    var t := AddedRef(s, slot, id);
    RefsKeepLists(s, t, id);
    forall svc | svc in t.addrs ensures Known(t, svc) { assert Known(s, svc); }
  }

  lemma {:induction false} NewsListed(ps: seq<Persisted>, n: nat)
    requires n <= |ps|
    ensures Listed(NewsLoaded(ps, n), n) && forall k :: k in NewsLoaded(ps, n).infos <==> 0 <= k < n
  {
    if n > 0 {
      NewsListed(ps, n - 1);
      CreateListed(NewsLoaded(ps, n - 1), n - 1, InfoOf(ps[n - 1]));
    }
  }

  lemma {:induction false} TriedListed(pl: Placement, l: Loading, ps: seq<Persisted>, n: nat)
    requires n <= |ps| && Listed(l.s, l.next)
    ensures Listed(TriedLoaded(pl, l, ps, n).s, TriedLoaded(pl, l, ps, n).next)
  {
    if n > 0 {
      TriedListed(pl, l, ps, n - 1);
      var m, p := TriedLoaded(pl, l, ps, n - 1), ps[n - 1];
      if pl.triedSlot(p.service) !in m.s.tried {
        CreateListed(m.s, m.next, InfoOf(p));
        EnterListed(pl, Created(m.s, m.next, InfoOf(p)), m.next + 1, m.next);
      }
    }
  }

  lemma {:induction false} RefsListed(pl: Placement, s: State, next: int, pairs: seq<(nat, int)>, n: nat, restore: bool)
    requires n <= |pairs| && Listed(s, next)
    ensures Listed(RefsLoaded(pl, s, pairs, n, restore), next)
  {
    if n > 0 {
      RefsListed(pl, s, next, pairs, n - 1, restore);
      var t, id := RefsLoaded(pl, s, pairs, n - 1, restore), pairs[n - 1].1;
      if id in t.infos {
        AddRefListed(t, next, pl.newSlot(t.infos[id].service, pairs[n - 1].0), id);
        AddRefListed(t, next, HomeSlot(pl, t.infos[id]), id);
      }
    }
  }

  lemma PopListed(s: State, next: int, id: int)
    requires Listed(s, next) && id in s.infos && s.infos[id].randomPos == |s.random| - 1
    ensures s.random != [] && Listed(Popped(s, id), next)
  {
    var t := Popped(s, id);
    assert HasPosition(s, id);
    forall k | k in t.infos ensures HasPosition(t, k) { assert HasPosition(s, k); }
    forall p | 0 <= p < |t.random| ensures RandomAt(t, p) { assert RandomAt(s, p); }
    forall svc | svc in t.addrs ensures Known(t, svc) { assert Known(s, svc); }
  }

  lemma SwapListed(s: State, next: int, p: nat, q: nat)
    requires Listed(s, next) && p < |s.random| && q < |s.random|
    ensures RandomAt(s, p) && RandomAt(s, q) && Listed(Swapped(s, p, q), next)
  {
    SwapKeepsRandom(s, p, q);
    var t := Swapped(s, p, q);
    forall svc | svc in t.addrs ensures Known(t, svc) { assert Known(s, svc); }
  }

  lemma RemoveListed(s: State, next: int, id: int)
    requires Listed(s, next) && id in s.infos
    ensures Listed(Removed(s, id), next)
  {
    assert HasPosition(s, id);
    var p, q := s.infos[id].randomPos, |s.random| - 1;
    SwapListed(s, next, p, q);
    assert p != q ==> Swapped(s, p, q).infos[id].randomPos == q;
    PopListed(Swapped(s, p, q), next, id);
  }

  /** A list that passes the check is consistent in every respect. */
  lemma CheckedIsConsistent(pl: Placement, s: State, next: int, nNew: int, nTried: int, key: nat)
    requires pl.Ok() && Listed(s, next) && Checked(pl, s, nNew, nTried, key)
    ensures AddrMan.Sound(pl, s, nNew, nTried, {}, next) && Loose(s) == {}
  {
    forall id | id in s.infos ensures Named(s, id) && TimeOk(s.infos[id]) && id !in Loose(s) { assert EntryOk(s, id); }
    var loose := Loose(s);
    assert (forall id: int :: id !in loose) ==> loose == {};
  }

  // ---------- loading ----------

  datatype LoadError = CorruptVersion | UnsupportedVersion | CorruptCount | EndOfFile | Inconsistent(code: int)

  datatype Loaded = Failure(error: LoadError) | Success(s: State, next: nat, nNew: int, nTried: int)

  method ReadNews(ps: seq<Persisted>, n: nat) returns (s: State)
    requires n <= |ps|
    ensures s == NewsLoaded(ps, n)
  {
    s := EMPTY;
    for k := 0 to n
      invariant s == NewsLoaded(ps, k)
    {
      var i := InfoOf(ps[k]);
      s := s.(infos := s.infos[k := i], addrs := s.addrs[i.service := k]);
      s := s.(infos := s.infos[k := i.(randomPos := |s.random|)], random := s.random + [k]);
    }
  }

  method ReadTried(pl: Placement, s0: State, next0: nat, ps: seq<Persisted>, n: nat)
    returns (s: State, next: nat, lost: nat)
    requires n <= |ps|
    ensures Loading(s, next, lost) == TriedLoaded(pl, Loading(s0, next0, 0), ps, n)
  {
    s, next, lost := s0, next0, 0;
    for k := 0 to n
      invariant Loading(s, next, lost) == TriedLoaded(pl, Loading(s0, next0, 0), ps, k)
    {
      var i := InfoOf(ps[k]);
      var slot := pl.triedSlot(i.service);
      if slot !in s.tried {
        ghost var created := Created(s, next, i);
        i := i.(randomPos := |s.random|, inTried := true);
        s := State(s.infos[next := i], s.addrs[i.service := next], s.random + [next], s.tried[slot := next], s.news);
        assert s == EnteredTried(pl, created, next);
        next := next + 1;
      } else {
        lost := lost + 1;
      }
    }
  }

  method ReadPairs(buckets: seq<seq<int>>, count: nat, nNew: int) returns (pairs: seq<(nat, int)>)
    requires count <= |buckets|
    ensures pairs == Pairs(buckets, count, nNew)
  {
    pairs := [];
    for b := 0 to count
      invariant pairs == Pairs(buckets, b, nNew)
    {
      var xs := buckets[b];
      for n := 0 to |xs|
        invariant pairs == Pairs(buckets, b, nNew) + PairsOf(b, xs, n, nNew)
      {
        if 0 <= xs[n] < nNew {
          pairs := pairs + [(b, xs[n])];
        }
      }
    }
  }

  method RestoreRefs(pl: Placement, s0: State, pairs: seq<(nat, int)>, restore: bool) returns (s: State)
    requires forall k :: 0 <= k < |pairs| ==> pairs[k].1 in s0.infos
    ensures s == RefsLoaded(pl, s0, pairs, |pairs|, restore)
  {
    s := s0;
    for k := 0 to |pairs|
      invariant s == RefsLoaded(pl, s0, pairs, k, restore) && s.infos.Keys == s0.infos.Keys
    {
      var bucket, id := pairs[k].0, pairs[k].1;
      var i := s.infos[id];
      if i.refCount >= NEW_BUCKETS_PER_ADDRESS {
        continue;
      }
      var slot := pl.newSlot(i.service, bucket);
      if !(restore && slot !in s.news) {
        bucket := pl.newBucket(i.service, i.source);
        slot := pl.newSlot(i.service, bucket);
        if slot in s.news {
          continue;
        }
      }
      s := s.(news := s.news[slot := id], infos := s.infos[id := i.(refCount := i.refCount + 1)]);
    }
  }

  /** The same tables and entries, but without some of the entries; the others may have another random position. */
  ghost predicate Without(s0: State, s: State, gone: set<int>) {
    && gone <= s0.infos.Keys && s.infos.Keys == s0.infos.Keys - gone && s.tried == s0.tried && s.news == s0.news
    && (forall id :: id in s.infos ==> StaysAs(s0, s, id))
    && s.addrs == s0.addrs - ServicesOf(s0, gone)
  }

  ghost predicate StaysAs(s0: State, s: State, id: int) {
    id in s0.infos && id in s.infos && s.infos[id] == s0.infos[id].(randomPos := s.infos[id].randomPos)
  }

  ghost function ServicesOf(s: State, ids: set<int>): set<Service>
    requires ids <= s.infos.Keys
  {
    set id | id in ids :: s.infos[id].service
  }

  lemma WithoutNone(s: State)
    ensures Without(s, s, {})
  {
    assert s.addrs - ServicesOf(s, {}) == s.addrs;
  }

  lemma OneMoreGone(s0: State, s: State, gone: set<int>, id: int)
    requires Without(s0, s, gone) && RandomOk(s) && id in s.infos
    requires Removed(s, id).infos.Keys == s.infos.Keys - {id}
    requires Removed(s, id).tried == s.tried && Removed(s, id).news == s.news
    ensures Without(s0, Removed(s, id), gone + {id})
  {
    var t := Removed(s, id);
    AddrMan.RemovedAddrs(s, id);
    assert StaysAs(s0, s, id);
    assert ServicesOf(s0, gone + {id}) == ServicesOf(s0, gone) + {s.infos[id].service};
    forall k | k in t.infos ensures StaysAs(s0, t, k) {
      RemovedAt(s, id, k);
      assert StaysAs(s0, s, k);
    }
  }

  ghost predicate Parted(all: set<int>, gone: set<int>, todo: set<int>) { gone + todo == all && gone !! todo }

  lemma PartedStep(all: set<int>, gone: set<int>, todo: set<int>, id: int)
    requires Parted(all, gone, todo) && id in todo
    ensures Parted(all, gone + {id}, todo - {id}) && |gone + {id}| == |gone| + 1
  {
  }

  /** Deletes the entries that ended up in no table. */
  method Prune(s0: State, ghost next: int, nNew0: int) returns (s: State, nNew: int)
    requires Listed(s0, next)
    ensures Listed(s, next) && Without(s0, s, Loose(s0)) && nNew == nNew0 - |Loose(s0)|
    ensures Loose(s0) == {} ==> s == s0
  {
    s, nNew := s0, nNew0;
    var todo := set id | id in s.infos && !s.infos[id].inTried && s.infos[id].refCount == 0;
    ghost var gone := {};
    WithoutNone(s0);
    while todo != {}
      invariant Listed(s, next) && Without(s0, s, gone) && Parted(Loose(s0), gone, todo)
      invariant nNew == nNew0 - |gone| && (gone == {} ==> s == s0)
      decreases |todo|
    {
      AddrMan.SomeMember(todo);
      var id :| id in todo;
      PartedStep(Loose(s0), gone, todo, id);
      s := DeleteOne(s0, s, gone, next, id);
      nNew, todo, gone := nNew - 1, todo - {id}, gone + {id};
    }
    assert gone == Loose(s0);
  }

  method DeleteOne(ghost s0: State, s: State, ghost gone: set<int>, ghost next: int, id: int) returns (t: State)
    requires Listed(s, next) && Without(s0, s, gone) && id in s0.infos && id !in gone
    ensures Listed(t, next) && Without(s0, t, gone + {id})
  {
    t := Delete(s, next, id);
    OneMoreGone(s0, s, gone, id);
  }

  method Delete(s0: State, ghost next: int, id: int) returns (s: State)
    requires Listed(s0, next) && id in s0.infos
    ensures s == Removed(s0, id) && Listed(s, next) && s.infos.Keys == s0.infos.Keys - {id}
    ensures s.tried == s0.tried && s.news == s0.news
  {
    RemoveListed(s0, next, id);
    assert HasPosition(s0, id) && RandomAt(s0, |s0.random| - 1);
    s := Swapped(s0, s0.infos[id].randomPos, |s0.random| - 1);
    s := s.(random := s.random[..|s.random| - 1], addrs := s.addrs - {s.infos[id].service}, infos := s.infos - {id});
  }

  predicate HeaderOk(f: File) {
    && INCOMPATIBILITY_BASE <= f.compat <= INCOMPATIBILITY_BASE + FILE_FORMAT
    && 0 <= f.nNew <= NEW_BUCKET_COUNT * BUCKET_SIZE && 0 <= f.nTried <= TRIED_BUCKET_COUNT * BUCKET_SIZE
    && f.nNew <= |f.news| && f.nTried <= |f.tried| && BucketCount(f) <= |f.buckets|
  }

  /** The number of bucket lists, as it is read. */
  function BucketCount(f: File): int { if f.format >= 1 then FlipBit30(f.nUBuckets) else f.nUBuckets }

  predicate Restores(f: File, checksum: nat) {
    BucketCount(f) == NEW_BUCKET_COUNT && (if f.format >= 2 then f.checksum else 0) == checksum
  }

  /** Everything that is read, before entries without a place are deleted. */
  function Staged(pl: Placement, f: File, checksum: nat): Loading
    requires HeaderOk(f)
  {
    var l := TriedLoaded(pl, Loading(NewsLoaded(f.news, f.nNew), f.nNew, 0), f.tried, f.nTried);
    var pairs := Pairs(f.buckets, if BucketCount(f) > 0 then BucketCount(f) else 0, f.nNew);
    l.(s := RefsLoaded(pl, l.s, pairs, |pairs|, Restores(f, checksum)))
  }

  lemma {:induction false} TriedGrows(pl: Placement, l: Loading, ps: seq<Persisted>, n: nat)
    requires n <= |ps| && pl.Ok() && InBounds(l.s)
    ensures InBounds(TriedLoaded(pl, l, ps, n).s) && l.s.infos.Keys <= TriedLoaded(pl, l, ps, n).s.infos.Keys
  {
    if n > 0 { TriedGrows(pl, l, ps, n - 1); }
  }

  lemma {:induction false} NewsAlone(ps: seq<Persisted>, n: nat)
    requires n <= |ps|
    ensures NewsLoaded(ps, n).tried == map[] && NewsLoaded(ps, n).news == map[]
  {
    if n > 0 { NewsAlone(ps, n - 1); }
  }

  lemma {:induction false} RefsInBounds(pl: Placement, s: State, pairs: seq<(nat, int)>, n: nat, restore: bool)
    requires n <= |pairs| && pl.Ok() && InBounds(s)
    requires restore ==> forall k :: 0 <= k < |pairs| ==> pairs[k].0 < NEW_BUCKET_COUNT
    ensures InBounds(RefsLoaded(pl, s, pairs, n, restore))
  {
    if n > 0 { RefsInBounds(pl, s, pairs, n - 1, restore); }
  }

  lemma {:induction false} PairsOfRange(bucket: nat, xs: seq<int>, n: nat, nNew: int)
    requires n <= |xs|
    ensures forall p :: p in PairsOf(bucket, xs, n, nNew) ==> p.0 == bucket && 0 <= p.1 < nNew
  {
    if n > 0 { PairsOfRange(bucket, xs, n - 1, nNew); }
  }

  lemma {:induction false} PairsRange(buckets: seq<seq<int>>, b: nat, nNew: int)
    requires b <= |buckets|
    ensures forall p :: p in Pairs(buckets, b, nNew) ==> p.0 < b && 0 <= p.1 < nNew
  {
    if b > 0 {
      PairsRange(buckets, b - 1, nNew);
      PairsOfRange(b - 1, buckets[b - 1], |buckets[b - 1]|, nNew);
    }
  }

  lemma StagedIsListed(pl: Placement, f: File, checksum: nat)
    requires HeaderOk(f) && pl.Ok()
    ensures Listed(Staged(pl, f, checksum).s, Staged(pl, f, checksum).next) && InBounds(Staged(pl, f, checksum).s)
  {
    var start := Loading(NewsLoaded(f.news, f.nNew), f.nNew, 0);
    NewsListed(f.news, f.nNew);
    NewsAlone(f.news, f.nNew);
    TriedListed(pl, start, f.tried, f.nTried);
    TriedGrows(pl, start, f.tried, f.nTried);
    var l := TriedLoaded(pl, start, f.tried, f.nTried);
    var count := if BucketCount(f) > 0 then BucketCount(f) else 0;
    var pairs := Pairs(f.buckets, count, f.nNew);
    PairsRange(f.buckets, count, f.nNew);
    forall k | 0 <= k < |pairs| ensures pairs[k].0 < count { assert pairs[k] in pairs; }
    RefsListed(pl, l.s, l.next, pairs, |pairs|, Restores(f, checksum));
    RefsInBounds(pl, l.s, pairs, |pairs|, Restores(f, checksum));
  }

  method Stage(pl: Placement, f: File, checksum: nat) returns (s: State, next: nat, lost: nat)
    requires HeaderOk(f) && pl.Ok()
    ensures Loading(s, next, lost) == Staged(pl, f, checksum)
  {
    s := ReadNews(f.news, f.nNew);
    NewsListed(f.news, f.nNew);
    NewsAlone(f.news, f.nNew);
    TriedGrows(pl, Loading(s, f.nNew, 0), f.tried, f.nTried);
    s, next, lost := ReadTried(pl, s, f.nNew, f.tried, f.nTried);
    var count := BucketCount(f);
    var pairs := ReadPairs(f.buckets, if count > 0 then count else 0, f.nNew);
    PairsRange(f.buckets, if count > 0 then count else 0, f.nNew);
    forall k | 0 <= k < |pairs| ensures pairs[k].1 in s.infos { assert pairs[k] in pairs; }
    s := RestoreRefs(pl, s, pairs, count == NEW_BUCKET_COUNT && (if f.format >= 2 then f.checksum else 0) == checksum);
  }

  /** What is loaded from a file with a usable header: all that was read, but the entries without a place, and only
    * if that passes the check.
    */
  ghost predicate LoadedAs(pl: Placement, f: File, checksum: nat, r: Loaded, s: State)
    requires HeaderOk(f)
  {
    var l := Staged(pl, f, checksum);
    var nNew, nTried := f.nNew - |Loose(l.s)|, f.nTried - l.lost;
    && Without(l.s, s, Loose(l.s)) && Listed(s, l.next)
    && if Checked(pl, s, nNew, nTried, f.key) then r == Success(s, l.next, nNew, nTried)
       else r.Failure? && r.error.Inconsistent? && r.error.code != 0
  }

  predicate CountsOk(f: File) {
    0 <= f.nNew <= NEW_BUCKET_COUNT * BUCKET_SIZE && 0 <= f.nTried <= TRIED_BUCKET_COUNT * BUCKET_SIZE
  }

  /** The first thing that is wrong with a header. */
  ghost predicate HeaderError(f: File, e: LoadError) {
    match e
    case CorruptVersion => f.compat < INCOMPATIBILITY_BASE
    case UnsupportedVersion => f.compat > INCOMPATIBILITY_BASE + FILE_FORMAT
    case CorruptCount => INCOMPATIBILITY_BASE <= f.compat <= INCOMPATIBILITY_BASE + FILE_FORMAT && !CountsOk(f)
    case EndOfFile => INCOMPATIBILITY_BASE <= f.compat <= INCOMPATIBILITY_BASE + FILE_FORMAT && CountsOk(f)
    case Inconsistent(_) => false
  }

  /** A file whose contents pass the check as they stand is not refused. */
  ghost predicate TakenWhole(pl: Placement, f: File, checksum: nat, r: Loaded) {
    HeaderOk(f) ==>
      var l := Staged(pl, f, checksum);
      Loose(l.s) == {} && Checked(pl, l.s, f.nNew, f.nTried - l.lost, f.key) ==>
        r == Success(l.s, l.next, f.nNew, f.nTried - l.lost)
  }

  method ReadTables(pl: Placement, f: File, checksum: nat) returns (r: Loaded, ghost kept: State)
    requires pl.Ok() && HeaderOk(f)
    ensures LoadedAs(pl, f, checksum, r, kept)
    ensures r.Success? ==> AddrMan.Sound(pl, r.s, r.nNew, r.nTried, {}, r.next) && Loose(r.s) == {}
    ensures Loose(Staged(pl, f, checksum).s) == {} ==> kept == Staged(pl, f, checksum).s
  {
    var s, next, lost := Stage(pl, f, checksum);
    StagedIsListed(pl, f, checksum);
    var nNew;
    s, nNew := Prune(s, next, f.nNew);
    kept := s;
    var code := CheckAddrman(pl, s, nNew, f.nTried - lost, f.key);
    if code != 0 {
      return Failure(Inconsistent(code)), s;
    }
    CheckedIsConsistent(pl, s, next, nNew, f.nTried - lost, f.key);
    r := Success(s, next, nNew, f.nTried - lost);
  }

  /** Whatever the file holds, what is loaded without an error is consistent. */
  method Read(place: nat -> Placement, f: File, checksum: nat) returns (r: Loaded, ghost kept: State)
    requires forall k :: place(k).Ok()
    ensures r.Success? ==>
              HeaderOk(f) && AddrMan.Sound(place(f.key), r.s, r.nNew, r.nTried, {}, r.next) && Loose(r.s) == {}
    ensures if HeaderOk(f) then LoadedAs(place(f.key), f, checksum, r, kept) else r.Failure? && HeaderError(f, r.error)
    ensures TakenWhole(place(f.key), f, checksum, r)
  {
    if f.compat < INCOMPATIBILITY_BASE {
      return Failure(CorruptVersion), EMPTY;
    }
    if f.compat - INCOMPATIBILITY_BASE > FILE_FORMAT {
      return Failure(UnsupportedVersion), EMPTY;
    }
    if f.nNew > NEW_BUCKET_COUNT * BUCKET_SIZE || f.nNew < 0 {
      return Failure(CorruptCount), EMPTY;
    }
    if f.nTried > TRIED_BUCKET_COUNT * BUCKET_SIZE || f.nTried < 0 {
      return Failure(CorruptCount), EMPTY;
    }
    if |f.news| < f.nNew || |f.tried| < f.nTried || |f.buckets| < BucketCount(f) {
      return Failure(EndOfFile), EMPTY;
    }
    r, kept := ReadTables(place(f.key), f, checksum);
  }

  method Install(m: AddrMan.AddrMan, key: nat, s: State, next: nat, nNew: int, nTried: int)
    requires m.collisions == {} && AddrMan.Sound(m.place(key), s, nNew, nTried, {}, next) && Loose(s) == {}
    modifies m
    ensures m.Valid() && m.key == key && m.S() == s && m.nNew == nNew && m.nTried == nTried
  {
    m.key := key;
    m.infos, m.addrs, m.random, m.tried, m.news := s.infos, s.addrs, s.random, s.tried, s.news;
    m.nNew, m.nTried, m.idCount := nNew, nTried, next;
  }

  /** Loading into an address manager that is still empty. */
  method Unserialize(m: AddrMan.AddrMan, f: File, checksum: nat) returns (r: Loaded, ghost kept: State)
    requires m.random == [] && m.collisions == {} && forall k :: m.place(k).Ok()
    modifies m
    ensures r.Success? ==> m.Valid() && m.key == f.key && m.S() == r.s && m.nNew == r.nNew && m.nTried == r.nTried
    ensures if HeaderOk(f) then LoadedAs(m.place(f.key), f, checksum, r, kept)
            else r.Failure? && HeaderError(f, r.error)
    ensures TakenWhole(m.place(f.key), f, checksum, r)
  {
    r, kept := Read(m.place, f, checksum);
    if r.Success? {
      Install(m, f.key, r.s, r.next, r.nNew, r.nTried);
    }
  }
}

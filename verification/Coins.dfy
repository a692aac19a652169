/** A stack of write-back coin caches over a database (src/coins.cpp:71-391), proved to behave at
  * every level like one plain map of unspent coins.
  */
module Coins {
  import opened CoinsModel

  /** One entry of a batch (the loop body of BatchWrite). */
  method BatchEntry(us: CoinsMap, usage: int, o: OutPoint, it: Entry) returns (ok: bool, us': CoinsMap, usage': int)
    requires usage == TotalUsage(us)
    ensures ok <==> Merge(it, At(us, o)).Ok?
    ensures ok ==> TakesSlot(us, o, Merge(it, At(us, o)).slot, us') && usage' == TotalUsage(us')
  {
    ok, us', usage' := true, us, usage;
    if !it.isDirty {
      // Ignored.
      assert o in us ==> us[o := us[o]] == us;
      assert o !in us ==> us - {o} == us;
    } else if o !in us {
      if it.isFresh && it.coin.IsSpent() {
        assert us - {o} == us;
      } else {
        var entry := Entry(it.coin, true, it.isFresh);
        UsageUpdate(us, o, entry);
        us', usage' := us[o := entry], usage + it.coin.Usage();
      }
    } else if it.isFresh && !us[o].coin.IsSpent() {
      ok := false;
    } else if us[o].isFresh && it.coin.IsSpent() {
      UsageWithout(us, o);
      us', usage' := us - {o}, usage - us[o].coin.Usage();
    } else {
      var entry := Entry(it.coin, true, us[o].isFresh);
      UsageUpdate(us, o, entry);
      us', usage' := us[o := entry], usage - us[o].coin.Usage() + it.coin.Usage();
    }
  }

  lemma MergeStep(grand: Utxo, parent: CoinsMap, child: CoinsMap, done: set<OutPoint>, us: CoinsMap, o: OutPoint)
    requires Fits(grand, parent, child) && IsMerged(parent, child, done, us) && o !in done && o in child
    ensures At(us, o) == At(parent, o) && Merge(child[o], At(parent, o)).Ok?
  {
    ThroughOverlay(grand, parent, o);
    MergeIsRight(grand, Overlay(grand, parent), o, At(parent, o), child[o]);
  }

  method WriteOne(us: CoinsMap, usage: int, mapCoins: CoinsMap, o: OutPoint,
                  ghost grand: Utxo, ghost parent: CoinsMap, ghost todo: set<OutPoint>)
    returns (ok: bool, us': CoinsMap, usage': int)
    requires Fits(grand, parent, mapCoins) && usage == TotalUsage(us)
    requires IsMerged(parent, mapCoins, mapCoins.Keys - todo, us) && o in todo && todo <= mapCoins.Keys
    ensures ok && IsMerged(parent, mapCoins, mapCoins.Keys - (todo - {o}), us') && usage' == TotalUsage(us')
  {
    ghost var done := mapCoins.Keys - todo;
    MergeStep(grand, parent, mapCoins, done, us, o);
    ok, us', usage' := BatchEntry(us, usage, o, mapCoins[o]);
    MergedOneMore(parent, mapCoins, done, us, o, us');
    assert done + {o} == mapCoins.Keys - (todo - {o});
  }

  /** The loop over a batch, in any order. */
  method WriteEntries(parent: Layer, mapCoins: CoinsMap, erase: bool, ghost grand: Utxo)
    returns (ok: bool, us: CoinsMap, usage: int, mapCoins': CoinsMap)
    requires Fits(grand, parent.entries, mapCoins) && parent.usage == TotalUsage(parent.entries)
    ensures ok && IsMerged(parent.entries, mapCoins, mapCoins.Keys, us) && usage == TotalUsage(us)
    ensures mapCoins' == if erase then map[] else mapCoins
  {
    ok, us, usage, mapCoins' := true, parent.entries, parent.usage, mapCoins;
    var todo := mapCoins.Keys;
    while ok && todo != {}
      invariant ok && todo <= mapCoins.Keys
      invariant IsMerged(parent.entries, mapCoins, mapCoins.Keys - todo, us) && usage == TotalUsage(us)
      invariant if erase then mapCoins'.Keys == todo else mapCoins' == mapCoins
      decreases |todo|
    {
      var o :| o in todo;
      ok, us, usage := WriteOne(us, usage, mapCoins, o, grand, parent.entries, todo);
      todo := todo - {o};
      if erase {
        mapCoins' := mapCoins' - {o};
      }
    }
    assert mapCoins.Keys - todo == mapCoins.Keys;
  }

  /** One batch written into the parent cache; the FRESH flag is never found misapplied. */
  method BatchWrite(parent: Layer, mapCoins: CoinsMap, erase: bool, ghost grand: Utxo)
    returns (ok: bool, parent': Layer, mapCoins': CoinsMap)
    requires Fits(grand, parent.entries, mapCoins) && parent.usage == TotalUsage(parent.entries)
    ensures ok
    ensures LayerOk(grand, parent')
            && Overlay(grand, parent'.entries) == Overlay(Overlay(grand, parent.entries), mapCoins)
    ensures mapCoins' == if erase then map[] else mapCoins
  {
    var us, usage;
    ok, us, usage, mapCoins' := WriteEntries(parent, mapCoins, erase, grand);
    BatchIsRight(grand, parent.entries, mapCoins, us);
    parent' := Layer(us, usage);
  }

  /** The database takes dirty coins; a view that keeps spent coins as empty entries is allowed too. */
  method WriteDatabase(db: map<OutPoint, Coin>, mapCoins: CoinsMap) returns (db': map<OutPoint, Coin>)
    requires forall o :: o in mapCoins ==> EntryOk(Unspent(db), o, mapCoins[o])
    ensures Unspent(db') == Overlay(Unspent(db), mapCoins)
  {
    db' := db;
    var todo := mapCoins.Keys;
    while todo != {}
      invariant todo <= mapCoins.Keys
      invariant IsWritten(db, mapCoins, mapCoins.Keys - todo, db')
      decreases |todo|
    {
      var o :| o in todo;
      if mapCoins[o].isDirty {
        var dropsSpent: bool := *;
        if mapCoins[o].coin.IsSpent() && dropsSpent {
          db' := db' - {o};
        } else {
          db' := db'[o := mapCoins[o].coin];
        }
      }
      todo := todo - {o};
    }
    assert mapCoins.Keys - todo == mapCoins.Keys;
    WrittenIsRight(db, mapCoins, db');
  }

  // ---------- edits of one layer ----------

  lemma FetchedIsRight(base: Utxo, l: Layer, o: OutPoint, coin: Coin)
    requires LayerOk(base, l) && o !in l.entries
    requires if coin.IsSpent() then o !in base else o in base && base[o] == coin
    ensures var l' := Layer(l.entries[o := Entry(coin, false, coin.IsSpent())], l.usage + coin.Usage());
            LayerOk(base, l') && Overlay(base, l'.entries) == Overlay(base, l.entries)
  {
    UsageUpdate(l.entries, o, Entry(coin, false, coin.IsSpent()));
  }

  /** A fresh coin is forgotten altogether when it is spent. */
  lemma FreshSpentIsRight(base: Utxo, l: Layer, o: OutPoint)
    requires LayerOk(base, l) && o in l.entries && l.entries[o].isFresh
    ensures var m := l.entries - {o};
            LayerOk(base, Layer(m, l.usage - l.entries[o].coin.Usage()))
            && Overlay(base, m) == Overlay(base, l.entries) - {o}
  {
    UsageWithout(l.entries, o);
    assert EntryOk(base, o, l.entries[o]);
  }

  lemma SpentIsRight(base: Utxo, l: Layer, o: OutPoint)
    requires LayerOk(base, l) && o in l.entries && !l.entries[o].isFresh
    ensures var m := l.entries[o := Entry(CLEARED, true, false)];
            LayerOk(base, Layer(m, l.usage - l.entries[o].coin.Usage()))
            && Overlay(base, m) == Overlay(base, l.entries) - {o}
  {
    UsageUpdate(l.entries, o, Entry(CLEARED, true, false));
  }

  method SpendEntry(l: Layer, o: OutPoint, ghost base: Utxo) returns (l': Layer)
    requires LayerOk(base, l) && o in l.entries
    ensures LayerOk(base, l') && Overlay(base, l'.entries) == Overlay(base, l.entries) - {o}
  {
    var usage := l.usage - l.entries[o].coin.Usage();
    if l.entries[o].isFresh {
      FreshSpentIsRight(base, l, o);
      l' := Layer(l.entries - {o}, usage);
    } else {
      SpentIsRight(base, l, o);
      l' := Layer(l.entries[o := Entry(CLEARED, true, false)], usage);
    }
  }

  lemma UncachedIsRight(base: Utxo, l: Layer, o: OutPoint)
    requires LayerOk(base, l) && o in l.entries && !l.entries[o].isDirty && !l.entries[o].isFresh
    ensures var m := l.entries - {o};
            LayerOk(base, Layer(m, l.usage - l.entries[o].coin.Usage())) && Overlay(base, m) == Overlay(base, l.entries)
  {
    UsageWithout(l.entries, o);
    assert EntryOk(base, o, l.entries[o]);
  }

  /** The entry that AddCoin leaves behind. */
  function Added(s: Slot, coin: Coin, possibleOverwrite: bool): Entry {
    match s
    case Absent => Entry(coin, true, !possibleOverwrite)
    case Present(e) => Entry(coin, true, e.isFresh || (!possibleOverwrite && !e.isDirty))
  }

  lemma OverlayWithOne(base: Utxo, m: CoinsMap, o: OutPoint, e: Entry)
    requires !e.coin.IsSpent()
    ensures Overlay(base, m[o := e]) == Overlay(base, m)[o := e.coin]
  {
  }

  /** Adding without permission to overwrite is sound exactly if the coin is not visible. */
  lemma AddedIsRight(base: Utxo, l: Layer, o: OutPoint, coin: Coin, possibleOverwrite: bool)
    requires LayerOk(base, l) && !coin.IsSpent()
    requires !possibleOverwrite && o in l.entries ==> l.entries[o].coin.IsSpent()
    ensures var m := l.entries[o := Added(At(l.entries, o), coin, possibleOverwrite)];
            var usage := l.usage - (if o in l.entries then l.entries[o].coin.Usage() else 0) + coin.Usage();
            && (LayerOk(base, Layer(m, usage)) <==> possibleOverwrite || o !in Overlay(base, l.entries))
            && Overlay(base, m) == Overlay(base, l.entries)[o := coin]
  {
    var e := Added(At(l.entries, o), coin, possibleOverwrite);
    var m := l.entries[o := e];
    UsageUpdate(l.entries, o, e);
    OverlayWithOne(base, l.entries, o, e);
    assert o in l.entries ==> EntryOk(base, o, l.entries[o]);
    assert EntryOk(base, o, m[o]) <==> possibleOverwrite || o !in Overlay(base, l.entries);
    assert forall p :: p in m && p != o ==> EntryOk(base, p, m[p]);
  }

  /** The usage is already taken off when the exception is thrown (src/coins.cpp:116-123). */
  method AddEntry(l: Layer, o: OutPoint, coin: Coin, possibleOverwrite: bool, ghost base: Utxo)
    returns (thrown: bool, l': Layer)
    requires LayerOk(base, l) && !coin.IsSpent()
    ensures thrown <==> !possibleOverwrite && o in l.entries && !l.entries[o].coin.IsSpent()
    ensures thrown ==> o in Overlay(base, l.entries) && l'.entries == l.entries
    ensures !thrown ==>
              && (LayerOk(base, l') <==> possibleOverwrite || o !in Overlay(base, l.entries))
              && Overlay(base, l'.entries) == Overlay(base, l.entries)[o := coin]
  {
    var s := At(l.entries, o);
    var usage := if s.Present? then l.usage - s.entry.coin.Usage() else l.usage;
    if !possibleOverwrite && s.Present? && !s.entry.coin.IsSpent() {
      return true, Layer(l.entries, usage);
    }
    AddedIsRight(base, l, o, coin, possibleOverwrite);
    return false, Layer(l.entries[o := Added(s, coin, possibleOverwrite)], usage + coin.Usage());
  }

  /** Every entry says what the view says. */
  ghost predicate Shows(m: CoinsMap, view: Utxo) {
    forall o :: o in m ==> if m[o].coin.IsSpent() then o !in view else o in view && view[o] == m[o].coin
  }

  /** What stays in a cache after Sync: every unspent coin, with both flags cleared. */
  ghost function Synced(m: CoinsMap): CoinsMap {
    map o | o in m && !m[o].coin.IsSpent() :: Entry(m[o].coin, false, false)
  }

  /** On the way there: the entries in todo are as before. */
  ghost function HalfSynced(m: CoinsMap, todo: set<OutPoint>): CoinsMap {
    map o | o in m && (o in todo || !m[o].coin.IsSpent()) ::
      if o in todo then m[o] else Entry(m[o].coin, false, false)
  }

  function ClearedAt(m: CoinsMap, o: OutPoint): CoinsMap
    requires o in m
  {
    if m[o].coin.IsSpent() then m - {o} else m[o := Entry(m[o].coin, false, false)]
  }

  lemma HalfSyncedNext(m: CoinsMap, todo: set<OutPoint>, o: OutPoint)
    requires todo <= m.Keys && o in todo
    ensures HalfSynced(m, todo - {o}) == ClearedAt(HalfSynced(m, todo), o)
  {
  }

  lemma SyncedIsRight(m: CoinsMap, view: Utxo, l: Layer)
    requires Shows(m, view) && l.entries == Synced(m) && l.usage == TotalUsage(l.entries)
    ensures LayerOk(view, l) && Overlay(view, l.entries) == view
  {
    forall o | o in l.entries ensures o in view && l.entries[o].coin == view[o] { assert o in m; }
  }

  method ClearOne(l: Layer, o: OutPoint) returns (l': Layer)
    requires l.usage == TotalUsage(l.entries) && o in l.entries
    ensures l'.usage == TotalUsage(l'.entries)
    ensures l'.entries == ClearedAt(l.entries, o)
  {
    var e := l.entries[o];
    if e.coin.IsSpent() {
      UsageWithout(l.entries, o);
      l' := Layer(l.entries - {o}, l.usage - e.coin.Usage());
    } else {
      UsageUpdate(l.entries, o, Entry(e.coin, false, false));
      l' := Layer(l.entries[o := Entry(e.coin, false, false)], l.usage);
    }
  }

  /** A layer after Sync: spent entries gone, flags cleared (src/coins.cpp:318-326). */
  method ClearFlags(l: Layer, ghost view: Utxo) returns (l': Layer)
    requires l.usage == TotalUsage(l.entries)
    requires Shows(l.entries, view)
    ensures l'.entries == Synced(l.entries) && LayerOk(view, l') && Overlay(view, l'.entries) == view
  {
    l' := l;
    var todo := l.entries.Keys;
    assert HalfSynced(l.entries, todo) == l.entries;
    while todo != {}
      invariant l'.usage == TotalUsage(l'.entries) && todo <= l.entries.Keys
      invariant l'.entries == HalfSynced(l.entries, todo)
      decreases |todo|
    {
      var o :| o in todo;
      HalfSyncedNext(l.entries, todo, o);
      l' := ClearOne(l', o);
      todo := todo - {o};
    }
    assert l'.entries == Synced(l.entries);
    SyncedIsRight(l.entries, view, l');
  }

  /** Recomputes the usage and looks for illegal flag combinations (src/coins.cpp:371-391). */
  method SanityCheck(l: Layer, ghost base: Utxo) returns (ok: bool)
    requires LayerOk(base, l)
    ensures ok
  {
    var recomputed, todo := 0, l.entries;
    ok := true;
    while todo != map[]
      invariant ok && forall o :: o in todo ==> o in l.entries && todo[o] == l.entries[o]
      invariant recomputed + TotalUsage(todo) == TotalUsage(l.entries)
      decreases |todo|
    {
      var o :| o in todo;
      var e := todo[o];
      assert EntryOk(base, o, e);
      var attr := (if e.isDirty then 1 else 0) + (if e.isFresh then 2 else 0) + (if e.coin.IsSpent() then 4 else 0);
      ok := attr != 2 && attr != 4 && attr != 7;
      UsageWithout(todo, o);
      recomputed, todo := recomputed + e.coin.Usage(), todo - {o};
    }
    ok := ok && recomputed == l.usage;
  }

  lemma EmptyLayer(v: Utxo)
    ensures LayerOk(v, Layer(map[], 0)) && Overlay(v, map[]) == v
  {
  }

  lemma ShowsItself(base: Utxo, m: CoinsMap)
    ensures forall o :: o in m ==> if m[o].coin.IsSpent() then o !in Overlay(base, m)
                                   else o in Overlay(base, m) && Overlay(base, m)[o] == m[o].coin
  {
  }

  ghost function WithOutputs(m: Utxo, txid: nat, outs: seq<(int, Script)>, coinbase: bool, height: nat): Utxo {
    if outs == [] then m
    else
      var n := |outs| - 1;
      var m' := WithOutputs(m, txid, outs[..n], coinbase, height);
      if outs[n].1.unspendable then m' else m'[OutPoint(txid, n) := Coin(outs[n].0, outs[n].1, height, coinbase)]
  }

  /** The outpoint is a spendable output of the transaction. */
  predicate Creates(txid: nat, outs: seq<(int, Script)>, o: OutPoint) {
    o.txid == txid && o.n < |outs| && !outs[o.n].1.unspendable
  }

  lemma {:induction false} OutputsAre(m: Utxo, txid: nat, outs: seq<(int, Script)>, coinbase: bool, height: nat,
                                      o: OutPoint)
    ensures var m' := WithOutputs(m, txid, outs, coinbase, height);
            if Creates(txid, outs, o) then
              o in m' && m'[o] == Coin(outs[o.n].0, outs[o.n].1, height, coinbase)
            else (o in m' <==> o in m) && (o in m ==> m'[o] == m[o])
    decreases |outs|
  {
    if outs != [] { OutputsAre(m, txid, outs[..|outs| - 1], coinbase, height, o); }
  }

  // ---------- the same writes on plain maps, one per level ----------

  datatype Op =
    | Add(o: OutPoint, coin: Coin, possibleOverwrite: bool)
    | Spend(o: OutPoint)
    | Get(k: nat, o: OutPoint)
    | Uncache(k: nat, o: OutPoint)
    | Flush(k: nat)
    | Sync(k: nat)
    | Push
    | Pop

  /** Writes go to the top cache, and an addition without permission to overwrite is of a coin not visible there. */
  ghost predicate Allowed(vs: seq<Utxo>, op: Op)
    requires vs != []
  {
    match op
    case Add(o, coin, possibleOverwrite) =>
      |vs| > 1 && !coin.IsSpent() && (possibleOverwrite || o !in vs[|vs| - 1])
    case Spend(_) => |vs| > 1
    case Get(k, _) => k < |vs|
    case Uncache(k, _) => 0 < k < |vs|
    case Flush(k) => 0 < k < |vs|
    case Sync(k) => 0 < k < |vs|
    case Push => true
    case Pop => |vs| > 1
  }

  ghost function PlainStep(vs: seq<Utxo>, op: Op): (vs': seq<Utxo>)
    requires vs != [] && Allowed(vs, op)
    ensures vs' != []
  {
    var top := |vs| - 1;
    match op
    case Add(o, coin, _) => if coin.script.unspendable then vs else vs[top := vs[top][o := coin]]
    case Spend(o) => vs[top := vs[top] - {o}]
    case Get(_, _) => vs
    case Uncache(_, _) => vs
    case Flush(k) => vs[k - 1 := vs[k]]
    case Sync(k) => vs[k - 1 := vs[k]]
    case Push => vs + [vs[top]]
    case Pop => vs[..top]
  }

  ghost predicate AllAllowed(vs: seq<Utxo>, ops: seq<Op>)
    requires vs != []
    decreases |ops|
  {
    ops == [] || (Allowed(vs, ops[0]) && AllAllowed(PlainStep(vs, ops[0]), ops[1..]))
  }

  ghost function PlainRun(vs: seq<Utxo>, ops: seq<Op>): seq<Utxo>
    requires vs != [] && AllAllowed(vs, ops)
    decreases |ops|
  {
    if ops == [] then vs else PlainRun(PlainStep(vs, ops[0]), ops[1..])
  }

  lemma PushedEmpty(db: map<OutPoint, Coin>, ls: seq<Layer>)
    requires StackOk(db, ls)
    ensures StackOk(db, ls + [Layer(map[], 0)])
    ensures Views(db, ls + [Layer(map[], 0)]) == Views(db, ls) + [View(db, ls, |ls|)]
  {
    var ls' := ls + [Layer(map[], 0)];
    forall k | 0 <= k <= |ls| ensures View(db, ls', k) == View(db, ls, k) { ViewBelow(db, ls, ls', k); }
    forall k | 0 <= k < |ls'| ensures SoundAt(db, ls', k) {
      if k < |ls| { assert SoundAt(db, ls, k); }
    }
    assert View(db, ls', |ls'|) == Overlay(View(db, ls, |ls|), map[]) == View(db, ls, |ls|);
  }

  lemma Popped(db: map<OutPoint, Coin>, ls: seq<Layer>)
    requires StackOk(db, ls) && ls != []
    ensures StackOk(db, ls[..|ls| - 1])
    ensures Views(db, ls[..|ls| - 1]) == Views(db, ls)[..|ls|]
  {
    var ls' := ls[..|ls| - 1];
    forall k | 0 <= k <= |ls'| ensures View(db, ls', k) == View(db, ls, k) { ViewBelow(db, ls, ls', k); }
    forall k | 0 <= k < |ls'| ensures SoundAt(db, ls', k) { assert SoundAt(db, ls, k); }
  }

  class CoinsStack {
    /** The base view: unspent coins, possibly some spent entries that mean nothing. */
    var db: map<OutPoint, Coin>

    /** The caches, the lowest first. Level k reads cache k - 1, level 0 the database. */
    var layers: seq<Layer>

    ghost predicate Valid()
      reads this
    {
      StackOk(db, layers)
    }

    ghost function Levels(): (vs: seq<Utxo>)
      reads this
      ensures |vs| == |layers| + 1
    {
      Views(db, layers)
    }

    ghost function Top(): Utxo
      reads this
    {
      Levels()[|layers|]
    }

    constructor (db: map<OutPoint, Coin>)
      ensures Valid() && Levels() == [Unspent(db)]
    {
      this.db := db;
      layers := [];
    }

    /** A new cache on top. */
    method Push()
      requires Valid()
      modifies `layers
      ensures Valid() && Levels() == old(Levels()) + [old(Top())] && layers == old(layers) + [Layer(map[], 0)]
    {
      PushedEmpty(db, layers);
      layers := layers + [Layer(map[], 0)];
    }

    /** The top cache is destroyed; what was not flushed is forgotten. */
    method Pop()
      requires Valid() && layers != []
      modifies `layers
      ensures Valid() && Levels() == old(Levels())[..|old(layers)|]
    {
      Popped(db, layers);
      layers := layers[..|layers| - 1];
    }

    // ---------- reading ----------

    method GetCoin(k: nat, o: OutPoint) returns (found: bool, coin: Coin)
      requires Valid() && k <= |layers|
      modifies `layers
      ensures Valid() && Levels() == old(Levels()) && |layers| == |old(layers)| && layers[k..] == old(layers)[k..]
      ensures found && !coin.IsSpent() <==> o in Levels()[k]
      ensures found && !coin.IsSpent() ==> coin == Levels()[k][o]
      ensures found <==> if k == 0 then o in db else o in Levels()[k]
      decreases k, 1
    {
      if k == 0 {
        found, coin := o in db, if o in db then db[o] else CLEARED;
        return;
      }
      var cached := FetchCoin(k, o);
      coin := if cached then layers[k - 1].entries[o].coin else CLEARED;
      found := !coin.IsSpent();
    }

    /** Brings the coin into cache k - 1 if the level below has an entry for it. */
    method FetchCoin(k: nat, o: OutPoint) returns (cached: bool)
      requires Valid() && 0 < k <= |layers|
      modifies `layers
      ensures Valid() && Levels() == old(Levels()) && |layers| == |old(layers)| && layers[k..] == old(layers)[k..]
      ensures cached <==> o in layers[k - 1].entries
      ensures cached <==> o in old(layers)[k - 1].entries || if k == 1 then o in db else o in Levels()[k - 1]
      ensures !cached ==> o !in Levels()[k]
      ensures cached ==> if layers[k - 1].entries[o].coin.IsSpent() then o !in Levels()[k]
                         else o in Levels()[k] && Levels()[k][o] == layers[k - 1].entries[o].coin
      decreases k, 0
    {
      if o in layers[k - 1].entries {
        return true;
      }
      var found, tmp := GetCoin(k - 1, o);
      if !found {
        return false;
      }
      var l := layers[k - 1];
      assert SoundAt(db, layers, k - 1);
      FetchedIsRight(View(db, layers, k - 1), l, o, tmp);
      var l' := Layer(l.entries[o := Entry(tmp, false, tmp.IsSpent())], l.usage + tmp.Usage());
      ReplaceLayer(db, layers, k - 1, l');
      layers := layers[k - 1 := l'];
      cached := true;
    }

    method HaveCoin(k: nat, o: OutPoint) returns (have: bool)
      requires Valid() && k <= |layers|
      modifies `layers
      ensures Valid() && Levels() == old(Levels()) && |layers| == |old(layers)|
      ensures have <==> o in Levels()[k]
    {
      var found, coin := GetCoin(k, o);
      have := found && !coin.IsSpent();
    }

    // ---------- writing the top cache ----------

    /** Without permission to overwrite, a coin that is unspent in the cache itself is refused; one that is
      * unspent only further down is not noticed, and then the stack is no longer sound.
      */
    method AddCoin(o: OutPoint, coin: Coin, possibleOverwrite: bool) returns (thrown: bool)
      requires Valid() && layers != [] && !coin.IsSpent()
      modifies `layers
      ensures |layers| == |old(layers)|
      ensures thrown <==> !coin.script.unspendable && !possibleOverwrite
                          && var m := old(layers)[|layers| - 1].entries; o in m && !m[o].coin.IsSpent()
      ensures thrown ==> o in old(Top()) && Levels() == old(Levels())
      ensures !thrown ==>
                if coin.script.unspendable then layers == old(layers)
                else Levels() == old(Levels())[|layers| := old(Top())[o := coin]]
      ensures !thrown ==> (Valid() <==> coin.script.unspendable || possibleOverwrite || o !in old(Top()))
    {
      if coin.script.unspendable {
        return false;
      }
      var n := |layers| - 1;
      assert SoundAt(db, layers, n);
      var l;
      thrown, l := AddEntry(layers[n], o, coin, possibleOverwrite, View(db, layers, n));
      WriteTop(l);
    }

    method SpendCoin(o: OutPoint) returns (ok: bool, moved: Coin)
      requires Valid() && layers != []
      modifies `layers
      ensures Valid() && |layers| == |old(layers)|
      ensures Levels() == old(Levels())[|layers| := old(Top()) - {o}]
      ensures o in old(Top()) ==> ok && moved == old(Top())[o]
      ensures var n := |layers| - 1;
              ok <==> o in old(layers)[n].entries || if n == 0 then o in db else o in old(Levels())[n]
    {
      ok := FetchCoin(|layers|, o);
      moved := CLEARED;
      if ok {
        moved := layers[|layers| - 1].entries[o].coin;
        SpendCached(o);
      } else {
        assert Top() - {o} == Top();
      }
    }

    method SpendCached(o: OutPoint)
      requires Valid() && layers != [] && o in layers[|layers| - 1].entries
      modifies `layers
      ensures Valid() && |layers| == |old(layers)|
      ensures Levels() == old(Levels())[|layers| := old(Top()) - {o}]
    {
      var n := |layers| - 1;
      var l := layers[n];
      assert SoundAt(db, layers, n);
      var l' := SpendEntry(l, o, View(db, layers, n));
      WriteTop(l');
    }

    method WriteTop(l: Layer)
      requires Valid() && layers != []
      modifies `layers
      ensures |layers| == |old(layers)|
              && Levels() == old(Levels())[|layers| := Overlay(View(db, old(layers), |layers| - 1), l.entries)]
      ensures Valid() <==> LayerOk(View(db, old(layers), |layers| - 1), l)
    {
      ReplaceTop(db, layers, l);
      ReplaceTopSound(db, layers, l);
      layers := layers[|layers| - 1 := l];
    }

    // ---------- moving between levels ----------

    method Uncache(k: nat, o: OutPoint)
      requires Valid() && 0 < k <= |layers|
      modifies `layers
      ensures Valid() && Levels() == old(Levels()) && |layers| == |old(layers)|
      ensures layers == old(layers)[k - 1 := layers[k - 1]]
      ensures var m := old(layers)[k - 1].entries;
              layers[k - 1].entries == if o in m && !m[o].isDirty && !m[o].isFresh then m - {o} else m
    {
      var l := layers[k - 1];
      if o in l.entries && !l.entries[o].isDirty && !l.entries[o].isFresh {
        assert SoundAt(db, layers, k - 1);
        UncachedIsRight(View(db, layers, k - 1), l, o);
        var l' := Layer(l.entries - {o}, l.usage - l.entries[o].coin.Usage());
        ReplaceLayer(db, layers, k - 1, l');
        layers := layers[k - 1 := l'];
      }
    }

    /** Writes cache k - 1 into the level below and leaves it as given. */
    method WriteBack(k: nat, erase: bool) returns (ok: bool, ghost p: Layer, mapCoins: CoinsMap)
      requires Valid() && 0 < k <= |layers|
      modifies `db, `layers
      ensures ok && mapCoins == (if erase then map[] else old(layers)[k - 1].entries)
      ensures if k == 1 then layers == old(layers) && Unspent(db) == old(Levels())[1]
              else db == old(db) && layers == old(layers)[k - 2 := p]
                   && LayerOk(View(db, old(layers), k - 2), p)
                   && Overlay(View(db, old(layers), k - 2), p.entries) == old(Levels())[k]
    {
      var child := layers[k - 1].entries;
      assert SoundAt(db, layers, k - 1);
      if k == 1 {
        db := WriteDatabase(db, child);
        ok, mapCoins := true, if erase then map[] else child;
        p := layers[0];
      } else {
        assert SoundAt(db, layers, k - 2);
        var parent;
        ok, parent, mapCoins := BatchWrite(layers[k - 2], child, erase, View(db, layers, k - 2));
        p := parent;
        layers := layers[k - 2 := parent];
      }
    }

    /** Pushes everything down and empties the cache. */
    method Flush(k: nat) returns (ok: bool)
      requires Valid() && 0 < k <= |layers|
      modifies `db, `layers
      ensures ok && Valid() && Levels() == Pushed(old(Levels()), k)
      ensures |layers| == |old(layers)| && layers[k - 1] == Layer(map[], 0)
      ensures forall i :: 0 <= i < |layers| && i != k - 1 && i != k - 2 ==> layers[i] == old(layers)[i]
    {
      ghost var db0, ls := db, layers;
      ghost var p;
      var mapCoins;
      ok, p, mapCoins := WriteBack(k, true);
      var c := Layer(mapCoins, 0);
      EmptyLayer(View(db0, ls, k));
      if k == 1 { PushIntoDatabase(db0, ls, db, c); } else { PushIntoLayer(db, ls, k - 2, p, c); }
      layers := layers[k - 1 := c];
    }

    /** Pushes everything down and keeps the unspent coins. */
    method Sync(k: nat) returns (ok: bool)
      requires Valid() && 0 < k <= |layers|
      modifies `db, `layers
      ensures ok && Valid() && Levels() == Pushed(old(Levels()), k) && |layers| == |old(layers)|
      ensures layers[k - 1].entries == Synced(old(layers)[k - 1].entries)
      ensures forall i :: 0 <= i < |layers| && i != k - 1 && i != k - 2 ==> layers[i] == old(layers)[i]
    {
      ghost var db0, ls := db, layers;
      assert SoundAt(db, layers, k - 1);
      ShowsItself(View(db, ls, k - 1), ls[k - 1].entries);
      ghost var p;
      var mapCoins;
      ok, p, mapCoins := WriteBack(k, false);
      var c := ClearFlags(layers[k - 1], View(db0, ls, k));
      if k == 1 { PushIntoDatabase(db0, ls, db, c); } else { PushIntoLayer(db, ls, k - 2, p, c); }
      layers := layers[k - 1 := c];
    }

    /** Adds all outputs of a transaction. */
    method AddCoins(txid: nat, outs: seq<(int, Script)>, coinbase: bool, height: nat, check: bool)
      requires Valid() && layers != [] && forall i :: 0 <= i < |outs| ==> outs[i].0 != -1
      requires check || coinbase || forall i :: 0 <= i < |outs| ==> OutPoint(txid, i) !in Top()
      modifies `layers
      ensures Valid() && |layers| == |old(layers)|
      ensures Levels()[..|layers|] == old(Levels())[..|layers|]
      ensures forall i :: 0 <= i < |outs| && !outs[i].1.unspendable ==>
                && OutPoint(txid, i) in Top()
                && var coin := Top()[OutPoint(txid, i)];
                   && coin.value == outs[i].0 && coin.script == outs[i].1
                   && coin.height == height && coin.coinbase == coinbase
      ensures forall o: OutPoint :: o.txid != txid || o.n >= |outs| || outs[o.n].1.unspendable ==>
                (o in Top() <==> o in old(Top())) && (o in Top() ==> Top()[o] == old(Top())[o])
    {
      AddOutputs(txid, outs, coinbase, height, check);
      forall o
        ensures if Creates(txid, outs, o) then
                  o in Top() && Top()[o] == Coin(outs[o.n].0, outs[o.n].1, height, coinbase)
                else (o in Top() <==> o in old(Top())) && (o in old(Top()) ==> Top()[o] == old(Top())[o])
      {
        OutputsAre(old(Top()), txid, outs, coinbase, height, o);
      }
      forall i | 0 <= i < |outs| && !outs[i].1.unspendable ensures OutPoint(txid, i) in Top() {
        assert Creates(txid, outs, OutPoint(txid, i));
      }
    }

    /** The loop over the outputs. */
    method AddOutputs(txid: nat, outs: seq<(int, Script)>, coinbase: bool, height: nat, check: bool)
      requires Valid() && layers != [] && forall i :: 0 <= i < |outs| ==> outs[i].0 != -1
      requires check || coinbase || forall i :: 0 <= i < |outs| ==> OutPoint(txid, i) !in Top()
      modifies `layers
      ensures Valid() && |layers| == |old(layers)|
      ensures Levels() == old(Levels())[|layers| := WithOutputs(old(Top()), txid, outs, coinbase, height)]
    {
      assert outs[..0] == [];
      for i := 0 to |outs|
        invariant Valid() && |layers| == |old(layers)|
        invariant Levels() == old(Levels())[|layers| := WithOutputs(old(Top()), txid, outs[..i], coinbase, height)]
      {
        assert outs[..i + 1][..i] == outs[..i] && outs[..i + 1][i] == outs[i];
        OutputsAre(old(Top()), txid, outs[..i], coinbase, height, OutPoint(txid, i));
        var overwrite := coinbase;
        if check {
          overwrite := HaveCoin(|layers|, OutPoint(txid, i));
        }
        var thrown := AddCoin(OutPoint(txid, i), Coin(outs[i].0, outs[i].1, height, coinbase), overwrite);
      }
      assert outs[..|outs|] == outs;
    }

    // ---------- runs ----------

    method Perform(op: Op)
      requires Valid() && Allowed(Levels(), op)
      modifies this
      ensures Valid() && Levels() == PlainStep(old(Levels()), op)
    {
      match op
      case Add(o, coin, possibleOverwrite) => var _ := AddCoin(o, coin, possibleOverwrite);
      case Spend(o) => var _, _ := SpendCoin(o);
      case Get(k, o) => var _, _ := GetCoin(k, o);
      case Uncache(k, o) => Uncache(k, o);
      case Flush(k) => var _ := Flush(k);
      case Sync(k) => var _ := Sync(k);
      case Push => Push();
      case Pop => Pop();
    }

    /** Any allowed operations in any order: every level shows what a plain map with the same writes holds. */
    method Run(ops: seq<Op>)
      requires Valid() && AllAllowed(Levels(), ops)
      modifies this
      ensures Valid() && Levels() == PlainRun(old(Levels()), ops)
    {
      var rest := ops;
      while rest != []
        invariant Valid() && AllAllowed(Levels(), rest)
        invariant PlainRun(Levels(), rest) == old(PlainRun(Levels(), ops))
        decreases |rest|
      {
        Perform(rest[0]);
        rest := rest[1..];
      }
    }
  }

  /** AddCoin does not notice a coin that is unspent only below the cache: for any such coin the exception is not
    * thrown and the new entry is wrongly FRESH.
    */
  method AddOverHidden(o: OutPoint, below: Coin, coin: Coin) returns (stack: CoinsStack, thrown: bool)
    requires !below.IsSpent() && !coin.IsSpent() && !coin.script.unspendable
    ensures !thrown && !stack.Valid()
  {
    stack := new CoinsStack(map[o := below]);
    stack.Push();
    assert o in stack.Top();
    thrown := stack.AddCoin(o, coin, false);
  }

  /** What follows from it: spending that entry drops it, and the coin below is back. */
  lemma HiddenCoinReturns(base: Utxo, o: OutPoint, coin: Coin)
    requires o in base
    ensures var e := Added(Absent, coin, false);
            e.isFresh && Overlay(base, map[o := e] - {o}) == base
  {
    var e := Added(Absent, coin, false);
    assert map[o := e] - {o} == map[];
  }
}

/** Coins, cache entries with their DIRTY and FRESH flags, and what a stack of caches means
  * (src/coins.h:28-122). The meaning of a level is a plain map of unspent coins.
  */
module CoinsModel {
  datatype OutPoint = OutPoint(txid: nat, n: nat)

  /** usage: the script's dynamically allocated bytes; unspendable: the script can never be satisfied. */
  datatype Script = Script(bytes: seq<nat>, usage: nat, unspendable: bool)

  datatype Coin = Coin(value: int, script: Script, height: nat, coinbase: bool) {
    predicate IsSpent() { value == -1 }

    function Usage(): nat { script.usage }
  }

  const CLEARED: Coin := Coin(-1, Script([], 0, false), 0, false)

  datatype Entry = Entry(coin: Coin, isDirty: bool, isFresh: bool)

  type CoinsMap = map<OutPoint, Entry>
  type Utxo = map<OutPoint, Coin>

  datatype Layer = Layer(entries: CoinsMap, usage: int)

  // ---------- meaning ----------

  ghost function Unspent(db: map<OutPoint, Coin>): Utxo {
    map o | o in db && !db[o].IsSpent() :: db[o]
  }

  /** A cache over a set of coins: cached coins hide the set, spent ones remove from it. */
  ghost function Overlay(base: Utxo, m: CoinsMap): Utxo {
    map o | o in base.Keys + m.Keys && (o in m ==> !m[o].coin.IsSpent()) :: if o in m then m[o].coin else base[o]
  }

  /** The coins visible at level k; level 0 is the database. */
  ghost function View(db: map<OutPoint, Coin>, ls: seq<Layer>, k: nat): Utxo
    requires k <= |ls|
  {
    if k == 0 then Unspent(db) else Overlay(View(db, ls, k - 1), ls[k - 1].entries)
  }

  ghost function Views(db: map<OutPoint, Coin>, ls: seq<Layer>): seq<Utxo> {
    seq(|ls| + 1, k requires 0 <= k <= |ls| => View(db, ls, k))
  }

  // ---------- what the flags mean ----------

  /** Five of the eight combinations are legal; FRESH means absent below, not DIRTY means the same below. */
  ghost predicate EntryOk(base: Utxo, o: OutPoint, e: Entry) {
    && (e.coin.IsSpent() ==> e.isDirty != e.isFresh)
    && (!e.coin.IsSpent() && e.isFresh ==> e.isDirty)
    && (e.isFresh ==> o !in base)
    && (!e.isDirty && !e.coin.IsSpent() ==> o in base && base[o] == e.coin)
  }

  ghost predicate LayerOk(base: Utxo, l: Layer) {
    && (forall o :: o in l.entries ==> EntryOk(base, o, l.entries[o]))
    && l.usage == TotalUsage(l.entries)
  }

  ghost predicate StackOk(db: map<OutPoint, Coin>, ls: seq<Layer>) {
    forall k :: 0 <= k < |ls| ==> SoundAt(db, ls, k)
  }

  ghost predicate SoundAt(db: map<OutPoint, Coin>, ls: seq<Layer>, k: nat)
    requires k < |ls|
  {
    LayerOk(View(db, ls, k), ls[k])
  }

  // ---------- memory accounting ----------

  ghost function TotalUsage(m: CoinsMap): nat {
    if m == map[] then 0
    else var o :| o in m; m[o].coin.Usage() + TotalUsage(m - {o})
  }

  lemma {:induction false} UsageWithout(m: CoinsMap, o: OutPoint)
    requires o in m
    ensures TotalUsage(m) == m[o].coin.Usage() + TotalUsage(m - {o})
    decreases |m|
  {
    var p :| p in m && TotalUsage(m) == m[p].coin.Usage() + TotalUsage(m - {p});
    if p != o {
      UsageWithout(m - {p}, o);
      UsageWithout(m - {o}, p);
      assert m - {p} - {o} == m - {o} - {p};
    }
  }

  lemma UsageUpdate(m: CoinsMap, o: OutPoint, e: Entry)
    ensures TotalUsage(m[o := e]) == TotalUsage(m) - (if o in m then m[o].coin.Usage() else 0) + e.coin.Usage()
  {
    UsageWithout(m[o := e], o);
    if o in m {
      UsageWithout(m, o);
      assert m[o := e] - {o} == m - {o};
    } else {
      assert m[o := e] - {o} == m;
    }
  }

  // ---------- replacing layers ----------

  lemma {:induction false} ViewBelow(db: map<OutPoint, Coin>, ls: seq<Layer>, ls': seq<Layer>, k: nat)
    requires k <= |ls| && k <= |ls'| && ls[..k] == ls'[..k]
    ensures View(db, ls, k) == View(db, ls', k)
  {
    if k > 0 {
      assert ls[..k - 1] == ls[..k][..k - 1] && ls'[..k - 1] == ls'[..k][..k - 1];
      assert ls[k - 1] == ls[..k][k - 1] && ls'[k - 1] == ls'[..k][k - 1];
      ViewBelow(db, ls, ls', k - 1);
    }
  }

  lemma {:induction false} ViewAbove(db: map<OutPoint, Coin>, ls: seq<Layer>, db': map<OutPoint, Coin>,
                                     ls': seq<Layer>, i: nat, k: nat)
    requires i <= k <= |ls| == |ls'| && View(db, ls, i) == View(db', ls', i)
    requires forall j :: i <= j < k ==> ls[j] == ls'[j]
    ensures View(db, ls, k) == View(db', ls', k)
    decreases k
  {
    if i < k { ViewAbove(db, ls, db', ls', i, k - 1); }
  }

  lemma ReplacedView(db: map<OutPoint, Coin>, ls: seq<Layer>, i: nat, l: Layer, k: nat)
    requires i < |ls| && k <= |ls| && Overlay(View(db, ls, i), l.entries) == View(db, ls, i + 1)
    ensures View(db, ls[i := l], k) == View(db, ls, k)
  {
    var ls' := ls[i := l];
    if k <= i {
      ViewBelow(db, ls, ls', k);
    } else {
      ViewBelow(db, ls, ls', i);
      ViewAbove(db, ls, db, ls', i + 1, k);
    }
  }

  /** A layer may change as long as it stays true to what is below and shows the same coins. */
  lemma ReplaceLayer(db: map<OutPoint, Coin>, ls: seq<Layer>, i: nat, l: Layer)
    requires StackOk(db, ls) && i < |ls|
    requires LayerOk(View(db, ls, i), l) && Overlay(View(db, ls, i), l.entries) == View(db, ls, i + 1)
    ensures StackOk(db, ls[i := l]) && Views(db, ls[i := l]) == Views(db, ls)
  {
    var ls' := ls[i := l];
    forall k | 0 <= k <= |ls| ensures View(db, ls', k) == View(db, ls, k) { ReplacedView(db, ls, i, l, k); }
    forall k | 0 <= k < |ls| ensures SoundAt(db, ls', k) {
      assert SoundAt(db, ls, k);
    }
  }

  lemma TopView(db: map<OutPoint, Coin>, ls: seq<Layer>, l: Layer, k: nat)
    requires 0 < |ls| && k <= |ls|
    ensures View(db, ls[|ls| - 1 := l], k) ==
            if k == |ls| then Overlay(View(db, ls, |ls| - 1), l.entries) else View(db, ls, k)
  {
    var ls' := ls[|ls| - 1 := l];
    if k < |ls| { ViewBelow(db, ls, ls', k); } else { ViewBelow(db, ls, ls', k - 1); }
  }

  /** The top layer is written: only the top level changes. */
  lemma ReplaceTop(db: map<OutPoint, Coin>, ls: seq<Layer>, l: Layer)
    requires |ls| > 0
    ensures Views(db, ls[|ls| - 1 := l]) == Views(db, ls)[|ls| := Overlay(View(db, ls, |ls| - 1), l.entries)]
  {
    var ls' := ls[|ls| - 1 := l];
    forall k | 0 <= k <= |ls|
      ensures Views(db, ls')[k] == Views(db, ls)[|ls| := Overlay(View(db, ls, |ls| - 1), l.entries)][k]
    {
      TopView(db, ls, l, k);
    }
  }

  /** A stack stays sound exactly if its new top layer is. */
  lemma ReplaceTopSound(db: map<OutPoint, Coin>, ls: seq<Layer>, l: Layer)
    requires |ls| > 0 && StackOk(db, ls)
    ensures StackOk(db, ls[|ls| - 1 := l]) <==> LayerOk(View(db, ls, |ls| - 1), l)
  {
    var n := |ls| - 1;
    var ls' := ls[n := l];
    TopView(db, ls, l, n);
    if LayerOk(View(db, ls, n), l) {
      forall k | 0 <= k < |ls| ensures SoundAt(db, ls', k) {
        TopView(db, ls, l, k);
        assert SoundAt(db, ls, k);
      }
    } else {
      assert !SoundAt(db, ls', n);
    }
  }

  /** The levels of a stack after the coins of level k have become those of level k - 1. */
  ghost function Pushed(vs: seq<Utxo>, k: nat): seq<Utxo>
    requires 0 < k < |vs|
  {
    vs[k - 1 := vs[k]]
  }

  lemma PushedView(db: map<OutPoint, Coin>, ls: seq<Layer>, i: nat, p: Layer, c: Layer, k: nat)
    requires i + 1 < |ls| && k <= |ls|
    requires Overlay(View(db, ls, i), p.entries) == View(db, ls, i + 2)
    requires Overlay(View(db, ls, i + 2), c.entries) == View(db, ls, i + 2)
    ensures View(db, ls[i := p][i + 1 := c], k) == View(db, ls, if k == i + 1 then i + 2 else k)
  {
    var ls' := ls[i := p][i + 1 := c];
    if k <= i {
      ViewBelow(db, ls, ls', k);
    } else {
      ViewBelow(db, ls, ls', i);
      assert View(db, ls', i + 1) == Overlay(View(db, ls', i), ls'[i].entries);
      if k > i + 1 { ViewAbove(db, ls, db, ls', i + 2, k); }
    }
  }

  lemma PushIntoLayer(db: map<OutPoint, Coin>, ls: seq<Layer>, i: nat, p: Layer, c: Layer)
    requires StackOk(db, ls) && i + 1 < |ls|
    requires LayerOk(View(db, ls, i), p) && Overlay(View(db, ls, i), p.entries) == View(db, ls, i + 2)
    requires LayerOk(View(db, ls, i + 2), c) && Overlay(View(db, ls, i + 2), c.entries) == View(db, ls, i + 2)
    ensures var ls' := ls[i := p][i + 1 := c];
            StackOk(db, ls') && Views(db, ls') == Pushed(Views(db, ls), i + 2)
  {
    var ls' := ls[i := p][i + 1 := c];
    forall k | 0 <= k <= |ls| ensures View(db, ls', k) == View(db, ls, if k == i + 1 then i + 2 else k) {
      PushedView(db, ls, i, p, c, k);
    }
    forall k | 0 <= k < |ls| ensures SoundAt(db, ls', k) {
      PushedSound(db, ls, i, p, c, k);
    }
  }

  lemma PushedSound(db: map<OutPoint, Coin>, ls: seq<Layer>, i: nat, p: Layer, c: Layer, k: nat)
    requires StackOk(db, ls) && i + 1 < |ls| && k < |ls|
    requires LayerOk(View(db, ls, i), p) && Overlay(View(db, ls, i), p.entries) == View(db, ls, i + 2)
    requires LayerOk(View(db, ls, i + 2), c) && Overlay(View(db, ls, i + 2), c.entries) == View(db, ls, i + 2)
    ensures SoundAt(db, ls[i := p][i + 1 := c], k)
  {
    PushedView(db, ls, i, p, c, k);
    assert SoundAt(db, ls, k);
  }

  lemma PushIntoDatabase(db: map<OutPoint, Coin>, ls: seq<Layer>, db': map<OutPoint, Coin>, c: Layer)
    requires StackOk(db, ls) && |ls| > 0
    requires Unspent(db') == View(db, ls, 1)
    requires LayerOk(View(db, ls, 1), c) && Overlay(View(db, ls, 1), c.entries) == View(db, ls, 1)
    ensures var ls' := ls[0 := c];
            StackOk(db', ls') && Views(db', ls') == Pushed(Views(db, ls), 1)
  {
    var ls' := ls[0 := c];
    forall k | 0 <= k <= |ls| ensures View(db', ls', k) == View(db, ls, if k == 0 then 1 else k) {
      if k > 0 { ViewAbove(db, ls, db', ls', 1, k); }
    }
    forall k | 0 <= k < |ls| ensures SoundAt(db', ls', k) {
      assert SoundAt(db, ls, k);
    }
  }

  // ---------- one entry of a batch write ----------

  datatype Slot = Absent | Present(entry: Entry)
  datatype Merged = Misapplied | Ok(slot: Slot)

  function At(m: CoinsMap, o: OutPoint): Slot {
    if o in m then Present(m[o]) else Absent
  }

  /** What a child's entry does to the parent's slot (src/coins.cpp:229-295). */
  function Merge(child: Entry, parent: Slot): Merged {
    if !child.isDirty then Ok(parent)
    else match parent
      case Absent =>
        if child.isFresh && child.coin.IsSpent() then Ok(Absent)
        else Ok(Present(Entry(child.coin, true, child.isFresh)))
      case Present(p) =>
        if child.isFresh && !p.coin.IsSpent() then Misapplied
        else if p.isFresh && child.coin.IsSpent() then Ok(Absent)
        else Ok(Present(Entry(child.coin, true, p.isFresh)))
  }

  /** The unspent coin seen through a slot, if any. */
  datatype Sight = Nothing | Sees(coin: Coin)

  ghost function Through(base: Utxo, o: OutPoint, s: Slot): Sight {
    match s
    case Absent => if o in base then Sees(base[o]) else Nothing
    case Present(e) => if e.coin.IsSpent() then Nothing else Sees(e.coin)
  }

  ghost predicate SlotOk(base: Utxo, o: OutPoint, s: Slot) {
    s.Present? ==> EntryOk(base, o, s.entry)
  }

  /** FRESH is never misapplied; the parent's slot stays true to the grandparent and now shows what the child showed. */
  lemma MergeIsRight(grand: Utxo, parent: Utxo, o: OutPoint, s: Slot, child: Entry)
    requires SlotOk(grand, o, s) && EntryOk(parent, o, child)
    requires Through(grand, o, s) == if o in parent then Sees(parent[o]) else Nothing
    ensures Merge(child, s).Ok?
    ensures SlotOk(grand, o, Merge(child, s).slot)
    ensures Through(grand, o, Merge(child, s).slot) == Through(parent, o, Present(child))
  {
  }

  // ---------- a whole batch ----------

  ghost predicate IsMerged(parent: CoinsMap, child: CoinsMap, done: set<OutPoint>, m: CoinsMap) {
    forall o :: At(m, o) == if o in done && o in child && Merge(child[o], At(parent, o)).Ok?
                            then Merge(child[o], At(parent, o)).slot else At(parent, o)
  }

  lemma ThroughOverlay(base: Utxo, m: CoinsMap, o: OutPoint)
    ensures Through(base, o, At(m, o)) == if o in Overlay(base, m) then Sees(Overlay(base, m)[o]) else Nothing
  {
  }

  /** The parent's entries are true to the grandparent and the child's to the parent. */
  ghost predicate Fits(grand: Utxo, parent: CoinsMap, child: CoinsMap) {
    && (forall o :: o in parent ==> EntryOk(grand, o, parent[o]))
    && (forall o :: o in child ==> EntryOk(Overlay(grand, parent), o, child[o]))
  }

  lemma BatchIsRight(grand: Utxo, parent: CoinsMap, child: CoinsMap, m: CoinsMap)
    requires Fits(grand, parent, child) && IsMerged(parent, child, child.Keys, m)
    ensures forall o :: o in m ==> EntryOk(grand, o, m[o])
    ensures Overlay(grand, m) == Overlay(Overlay(grand, parent), child)
  {
    var mid := Overlay(grand, parent);
    forall o
      ensures SlotOk(grand, o, At(m, o)) && Through(grand, o, At(m, o)) == Through(mid, o, At(child, o))
    {
      ThroughOverlay(grand, parent, o);
      if o in child { MergeIsRight(grand, mid, o, At(parent, o), child[o]); }
    }
    forall o ensures At(m, o).Present? <==> o in m { }
    forall o ensures (o in Overlay(grand, m) <==> o in Overlay(mid, child))
                     && (o in Overlay(grand, m) ==> Overlay(grand, m)[o] == Overlay(mid, child)[o]) {
      ThroughOverlay(grand, m, o);
      ThroughOverlay(mid, child, o);
    }
  }

  /** One entry further. */
  lemma MergedOneMore(parent: CoinsMap, child: CoinsMap, done: set<OutPoint>, m: CoinsMap, o: OutPoint, m': CoinsMap)
    requires IsMerged(parent, child, done, m) && o in child && o !in done && Merge(child[o], At(parent, o)).Ok?
    requires TakesSlot(m, o, Merge(child[o], At(parent, o)).slot, m')
    ensures IsMerged(parent, child, done + {o}, m')
  {
  }

  /** The parent's map after one more entry. */
  ghost predicate TakesSlot(m: CoinsMap, o: OutPoint, s: Slot, m': CoinsMap) {
    match s
    case Absent => m' == m - {o}
    case Present(e) => m' == m[o := e]
  }

  // ---------- a batch into the database ----------

  ghost function InDatabase(db: map<OutPoint, Coin>, o: OutPoint): Sight {
    if o in db && !db[o].IsSpent() then Sees(db[o]) else Nothing
  }

  ghost predicate IsWritten(db: map<OutPoint, Coin>, child: CoinsMap, done: set<OutPoint>, db': map<OutPoint, Coin>) {
    forall o :: InDatabase(db', o) == if o in done && o in child && child[o].isDirty
                                      then Through(map[], o, Present(child[o])) else InDatabase(db, o)
  }

  lemma WrittenIsRight(db: map<OutPoint, Coin>, child: CoinsMap, db': map<OutPoint, Coin>)
    requires forall o :: o in child ==> EntryOk(Unspent(db), o, child[o])
    requires IsWritten(db, child, child.Keys, db')
    ensures Unspent(db') == Overlay(Unspent(db), child)
  {
    forall o ensures InDatabase(db', o) == Through(Unspent(db), o, At(child, o)) {
      if o in child { assert EntryOk(Unspent(db), o, child[o]); }
    }
    forall o ensures (o in Unspent(db') <==> o in Overlay(Unspent(db), child))
                     && (o in Unspent(db') ==> Unspent(db')[o] == Overlay(Unspent(db), child)[o]) {
      ThroughOverlay(Unspent(db), child, o);
      assert InDatabase(db', o) == Through(Unspent(db), o, At(child, o));
    }
  }
}

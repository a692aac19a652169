/** Downloading a peer's headers twice (src/headerssync.h, src/headerssync.cpp): a first pass that only
  * keeps one commitment bit every so often, and a second pass whose headers are held back until
  * enough commitments on top of them have been verified.
  */
module HeadersSync {
  import opened Wrappers

  const HEADER_COMMITMENT_PERIOD: nat := 610
  const REDOWNLOAD_BUFFER_SIZE: nat := 14521

  type Hash = nat

  datatype Header = Header(version: int, prev: Hash, merkleRoot: Hash, time: nat, bits: nat, nonce: nat)

  datatype CompressedHeader = CompressedHeader(version: int, merkleRoot: Hash, time: nat, bits: nat, nonce: nat) {
    function GetFullHeader(prev: Hash): Header { Header(version, prev, merkleRoot, time, bits, nonce) }
  }

  function Compress(h: Header): CompressedHeader {
    CompressedHeader(h.version, h.merkleRoot, h.time, h.bits, h.nonce)
  }

  datatype State = PRESYNC | REDOWNLOAD | FINAL

  /** The parts that live elsewhere: the block hash, the salted one-bit commitment to a hash, the
    * difficulty rule for (height, old bits, new bits), the work that bits stand for, and the 256-bit
    * sum of two amounts of work.
    */
  datatype Rules = Rules(
    hash: Header -> Hash, commit: Hash -> bool, permitted: (nat, nat, nat) -> bool, proof: nat -> nat,
    add: (nat, nat) -> nat)

  /** The block that the peer's chain builds on. */
  datatype Start = Start(header: Header, height: nat, work: nat)

  /** The work of a chain with one more header. */
  function AddWork(r: Rules, work: nat, bits: nat): nat { r.add(work, r.proof(bits)) }

  lemma OneByOne<T>(s: seq<T>, t: seq<T>)
    ensures if t == [] then s + t == s else s + [t[0]] + t[1..] == s + t
  {
  }

  // ---------- chains ----------

  ghost function TipHash(r: Rules, prev: Hash, hs: seq<Header>): Hash {
    if hs == [] then prev else r.hash(hs[|hs| - 1])
  }

  ghost predicate Linked(r: Rules, prev: Hash, hs: seq<Header>) {
    forall i :: 0 <= i < |hs| ==> LinkedAt(r, prev, hs, i)
  }

  ghost predicate LinkedAt(r: Rules, prev: Hash, hs: seq<Header>, i: nat)
    requires i < |hs|
  {
    hs[i].prev == if i == 0 then prev else r.hash(hs[i - 1])
  }

  function TipBits(start: Start, hs: seq<Header>): nat {
    if hs == [] then start.header.bits else hs[|hs| - 1].bits
  }

  /** Every step of difficulty is permitted from the true predecessor at the true height. */
  ghost predicate DifficultyOk(r: Rules, start: Start, hs: seq<Header>) {
    forall i :: 0 <= i < |hs| ==> DifficultyOkAt(r, start, hs, i)
  }

  ghost predicate DifficultyOkAt(r: Rules, start: Start, hs: seq<Header>, i: nat)
    requires i < |hs|
  {
    r.permitted(start.height + 1 + i, if i == 0 then start.header.bits else hs[i - 1].bits, hs[i].bits)
  }

  ghost function ChainWork(r: Rules, start: Start, hs: seq<Header>): nat {
    if hs == [] then start.work else AddWork(r, ChainWork(r, start, hs[..|hs| - 1]), hs[|hs| - 1].bits)
  }

  lemma LinkedGrows(r: Rules, prev: Hash, hs: seq<Header>, h: Header)
    requires Linked(r, prev, hs) && h.prev == TipHash(r, prev, hs)
    ensures Linked(r, prev, hs + [h])
  {
    forall i | 0 <= i < |hs| + 1 ensures LinkedAt(r, prev, hs + [h], i) {
      if i < |hs| { assert LinkedAt(r, prev, hs, i); }
    }
  }

  lemma LinkedRest(r: Rules, prev: Hash, hs: seq<Header>)
    requires Linked(r, prev, hs) && hs != []
    ensures Linked(r, r.hash(hs[0]), hs[1..])
  {
    forall i | 0 <= i < |hs| - 1 ensures LinkedAt(r, r.hash(hs[0]), hs[1..], i) {
      assert LinkedAt(r, prev, hs, i + 1);
    }
  }

  lemma DifficultyGrows(r: Rules, start: Start, hs: seq<Header>, h: Header)
    requires DifficultyOk(r, start, hs) && r.permitted(start.height + 1 + |hs|, TipBits(start, hs), h.bits)
    ensures DifficultyOk(r, start, hs + [h])
  {
    forall i | 0 <= i < |hs| + 1 ensures DifficultyOkAt(r, start, hs + [h], i) {
      if i < |hs| { assert DifficultyOkAt(r, start, hs, i); }
    }
  }

  lemma WorkGrows(r: Rules, start: Start, hs: seq<Header>, h: Header)
    ensures ChainWork(r, start, hs + [h]) == AddWork(r, ChainWork(r, start, hs), h.bits)
  {
    assert (hs + [h])[..|hs|] == hs;
  }

  // ---------- the buffer ----------

  /** The headers that the buffer stands for. */
  ghost function Expand(r: Rules, buffer: seq<CompressedHeader>, prev: Hash): seq<Header> {
    if buffer == [] then []
    else
      var h := buffer[0].GetFullHeader(prev);
      [h] + Expand(r, buffer[1..], r.hash(h))
  }

  lemma {:induction false} ExpandLength(r: Rules, buffer: seq<CompressedHeader>, prev: Hash)
    ensures |Expand(r, buffer, prev)| == |buffer|
    ensures buffer != [] ==> Expand(r, buffer, prev)[|buffer| - 1].bits == buffer[|buffer| - 1].bits
  {
    if |buffer| > 0 { ExpandLength(r, buffer[1..], r.hash(buffer[0].GetFullHeader(prev))); }
  }

  /** A header that links to the buffer survives being stored without its link. */
  lemma {:induction false} ExpandAppend(r: Rules, buffer: seq<CompressedHeader>, prev: Hash, h: Header)
    requires h.prev == TipHash(r, prev, Expand(r, buffer, prev))
    ensures Expand(r, buffer + [Compress(h)], prev) == Expand(r, buffer, prev) + [h]
  {
    var b' := buffer + [Compress(h)];
    if buffer == [] {
      assert b'[1..] == [];
    } else {
      var first := buffer[0].GetFullHeader(prev);
      var rest := Expand(r, buffer[1..], r.hash(first));
      assert Expand(r, buffer, prev) == [first] + rest;
      assert TipHash(r, prev, [first] + rest) == TipHash(r, r.hash(first), rest);
      ExpandAppend(r, buffer[1..], r.hash(first), h);
      assert b'[1..] == buffer[1..] + [Compress(h)];
    }
  }

  // ---------- commitments ----------

  predicate Committed(offset: nat, height: nat) { height % HEADER_COMMITMENT_PERIOD == offset }

  /** The commitment bits of consecutive headers, the first at the given height. */
  ghost function Bits(r: Rules, offset: nat, hs: seq<Header>, height: nat): seq<bool> {
    if hs == [] then []
    else (if Committed(offset, height) then [r.commit(r.hash(hs[0]))] else []) + Bits(r, offset, hs[1..], height + 1)
  }

  lemma {:induction false} BitsAppend(r: Rules, offset: nat, hs: seq<Header>, height: nat, h: Header)
    ensures Bits(r, offset, hs + [h], height) ==
            Bits(r, offset, hs, height) + (if Committed(offset, height + |hs|) then [r.commit(r.hash(h))] else [])
  {
    if hs == [] {
      assert (hs + [h])[1..] == [];
    } else {
      BitsAppend(r, offset, hs[1..], height + 1, h);
      assert (hs + [h])[1..] == hs[1..] + [h];
    }
  }

  /** The bits for the heights that have not been downloaded again yet. */
  ghost function Outstanding(r: Rules, offset: nat, start: Start, presync: seq<Header>, n: nat): seq<bool> {
    if n < |presync| then Bits(r, offset, presync[n..], start.height + 1 + n) else []
  }

  lemma OutstandingNext(r: Rules, offset: nat, start: Start, presync: seq<Header>, n: nat)
    ensures Outstanding(r, offset, start, presync, n) ==
            (if n < |presync| && Committed(offset, start.height + 1 + n) then [r.commit(r.hash(presync[n]))] else [])
            + Outstanding(r, offset, start, presync, n + 1)
  {
    if n < |presync| {
      assert presync[n..][1..] == presync[n + 1..];
      assert Bits(r, offset, presync[n + 1..], start.height + 2 + n) == Outstanding(r, offset, start, presync, n + 1);
    }
  }

  /** The first n redownloaded headers agree with the first pass at every committed height. */
  ghost predicate Agrees(r: Rules, offset: nat, start: Start, presync: seq<Header>, hs: seq<Header>, n: nat) {
    n <= |hs| && forall i :: 0 <= i < n ==> AgreesAt(r, offset, start, presync, hs[i], i)
  }

  ghost predicate AgreesAt(r: Rules, offset: nat, start: Start, presync: seq<Header>, h: Header, i: nat) {
    Committed(offset, start.height + 1 + i) ==> i < |presync| && r.commit(r.hash(h)) == r.commit(r.hash(presync[i]))
  }

  ghost predicate Continuous(r: Rules, hs: seq<Header>) {
    forall i :: 0 < i < |hs| ==> ContinuousAt(r, hs, i)
  }

  ghost predicate ContinuousAt(r: Rules, hs: seq<Header>, i: nat)
    requires 0 < i < |hs|
  {
    hs[i].prev == r.hash(hs[i - 1])
  }

  lemma ContinuousIsLinked(r: Rules, prev: Hash, hs: seq<Header>)
    requires Continuous(r, hs) && (hs != [] ==> hs[0].prev == prev)
    ensures Linked(r, prev, hs)
  {
    forall i | 0 <= i < |hs| ensures LinkedAt(r, prev, hs, i) {
      if i > 0 { assert ContinuousAt(r, hs, i); }
    }
  }

  datatype ProcessingResult = ProcessingResult(headers: seq<Header>, success: bool, requestMore: bool)

  datatype Params = Params(rules: Rules, start: Start, minimumWork: nat, commitOffset: nat, maxCommitments: nat) {
    function StartHash(): Hash { rules.hash(start.header) }
  }

  /** All headers accepted in the first pass, in the second pass, and handed out to the caller; and how many of
    * the second pass had their commitments checked.
    */
  datatype Log = Log(presync: seq<Header>, accepted: seq<Header>, released: seq<Header>, checked: nat)

  ghost predicate GoodChain(p: Params, hs: seq<Header>) {
    Linked(p.rules, p.StartHash(), hs) && DifficultyOk(p.rules, p.start, hs)
  }

  /** The work threshold was reached by the first header after the checked ones. */
  ghost predicate ThresholdReached(p: Params, log: Log) {
    log.checked < |log.accepted| && p.minimumWork <= ChainWork(p.rules, p.start, log.accepted[..log.checked + 1])
  }

  /** The work threshold was reached by one of the first n headers. */
  ghost predicate ReachedBy(p: Params, hs: seq<Header>, n: nat) {
    exists m :: 0 < m <= n && m <= |hs| && p.minimumWork <= ChainWork(p.rules, p.start, hs[..m])
  }

  /** Nothing was handed out with fewer than REDOWNLOAD_BUFFER_SIZE accepted headers on top of it before the work
    * threshold was reached.
    */
  ghost predicate Sheltered(p: Params, log: Log) {
    log.released == [] || |log.released| + REDOWNLOAD_BUFFER_SIZE <= |log.accepted| || ThresholdReached(p, log)
  }

  /** Between messages at most a full buffer is held back, and nothing once the threshold is reached. */
  ghost predicate Prompt(p: Params, log: Log) {
    && |log.accepted| <= |log.released| + REDOWNLOAD_BUFFER_SIZE
    && (ThresholdReached(p, log) ==> log.released == log.accepted)
  }

  /** Holds in every state, also after the sync has ended. */
  ghost predicate Sound(p: Params, log: Log) {
    && GoodChain(p, log.presync) && GoodChain(p, log.accepted)
    && log.released <= log.accepted
    && Agrees(p.rules, p.commitOffset, p.start, log.presync, log.accepted, log.checked)
    && (log.checked == |log.accepted| || ThresholdReached(p, log))
    && (log.accepted != [] ==> p.minimumWork <= ChainWork(p.rules, p.start, log.presync))
    && Sheltered(p, log)
  }

  /** In any state every header of the second pass agrees with the first pass at a committed height, unless the work
    * threshold was reached at or before it.
    */
  lemma EveryHeaderAgrees(p: Params, log: Log, i: nat)
    requires Sound(p, log) && i < |log.accepted|
    ensures || AgreesAt(p.rules, p.commitOffset, p.start, log.presync, log.accepted[i], i)
            || ReachedBy(p, log.accepted, i + 1)
  {
    if i >= log.checked {
      assert ThresholdReached(p, log);
      assert p.minimumWork <= ChainWork(p.rules, p.start, log.accepted[..log.checked + 1]);
    }
  }

  lemma GoodChainGrows(p: Params, hs: seq<Header>, h: Header)
    requires GoodChain(p, hs) && h.prev == TipHash(p.rules, p.StartHash(), hs)
    requires p.rules.permitted(p.start.height + 1 + |hs|, TipBits(p.start, hs), h.bits)
    ensures GoodChain(p, hs + [h])
  {
    LinkedGrows(p.rules, p.StartHash(), hs, h);
    DifficultyGrows(p.rules, p.start, hs, h);
  }

  lemma PresyncGrows(p: Params, log: Log, h: Header)
    requires Sound(p, log) && log.accepted == [] && h.prev == TipHash(p.rules, p.StartHash(), log.presync)
    requires p.rules.permitted(p.start.height + 1 + |log.presync|, TipBits(p.start, log.presync), h.bits)
    ensures Sound(p, log.(presync := log.presync + [h]))
  {
    GoodChainGrows(p, log.presync, h);
  }

  /** A header joins the second pass, with its commitment checked unless the threshold is reached. */
  function Accept(log: Log, h: Header, check: bool): Log {
    log.(accepted := log.accepted + [h], checked := if check then log.checked + 1 else log.checked)
  }

  lemma AcceptChecked(p: Params, log: Log, h: Header)
    requires Sound(p, log) && log.checked == |log.accepted| && h.prev == TipHash(p.rules, p.StartHash(), log.accepted)
    requires p.rules.permitted(p.start.height + 1 + |log.accepted|, TipBits(p.start, log.accepted), h.bits)
    requires p.minimumWork <= ChainWork(p.rules, p.start, log.presync)
    requires AgreesAt(p.rules, p.commitOffset, p.start, log.presync, h, |log.accepted|)
    ensures Sound(p, Accept(log, h, true))
  {
    GoodChainGrows(p, log.accepted, h);
    var hs := log.accepted + [h];
    forall i | 0 <= i < |hs| ensures AgreesAt(p.rules, p.commitOffset, p.start, log.presync, hs[i], i) {
      if i < |log.accepted| { assert hs[i] == log.accepted[i]; }
    }
  }

  lemma AcceptUnchecked(p: Params, log: Log, h: Header)
    requires Sound(p, log) && h.prev == TipHash(p.rules, p.StartHash(), log.accepted)
    requires p.rules.permitted(p.start.height + 1 + |log.accepted|, TipBits(p.start, log.accepted), h.bits)
    requires p.minimumWork <= ChainWork(p.rules, p.start, log.presync)
    requires ThresholdReached(p, log) || (log.checked == |log.accepted|
               && p.minimumWork <= ChainWork(p.rules, p.start, log.accepted + [h]))
    ensures Sound(p, Accept(log, h, false)) && ThresholdReached(p, Accept(log, h, false))
  {
    GoodChainGrows(p, log.accepted, h);
    var hs := log.accepted + [h];
    if log.checked < |log.accepted| {
      assert hs[..log.checked + 1] == log.accepted[..log.checked + 1];
    } else {
      assert hs[..log.checked + 1] == hs;
    }
    forall i | 0 <= i < log.checked ensures AgreesAt(p.rules, p.commitOffset, p.start, log.presync, hs[i], i) {
      assert hs[i] == log.accepted[i];
    }
  }

  lemma Releases(p: Params, log: Log, h: Header)
    requires Sound(p, log) && log.released + [h] <= log.accepted
    requires |log.released| + 1 + REDOWNLOAD_BUFFER_SIZE <= |log.accepted| || ThresholdReached(p, log)
    ensures Sound(p, log.(released := log.released + [h]))
  {
  }

  lemma LastBits(r: Rules, start: Start, released: seq<Header>, buffer: seq<CompressedHeader>, prev: Hash)
    ensures buffer != [] ==> TipBits(start, released + Expand(r, buffer, prev)) == buffer[|buffer| - 1].bits
  {
    ExpandLength(r, buffer, prev);
  }

  lemma TipThroughBuffer(r: Rules, first: Hash, released: seq<Header>, buffer: seq<CompressedHeader>, prev: Hash)
    requires prev == TipHash(r, first, released)
    ensures TipHash(r, first, released + Expand(r, buffer, prev)) == TipHash(r, prev, Expand(r, buffer, prev))
  {
    ExpandLength(r, buffer, prev);
    if buffer == [] { assert released + [] == released; }
  }

  /** At a committed height the queue is empty exactly if the first pass did not get that far. */
  lemma NoneOutstanding(r: Rules, offset: nat, start: Start, presync: seq<Header>, n: nat)
    requires Committed(offset, start.height + 1 + n)
    ensures Outstanding(r, offset, start, presync, n) == [] <==> n >= |presync|
    ensures n < |presync| ==> Outstanding(r, offset, start, presync, n)[0] == r.commit(r.hash(presync[n]))
  {
    OutstandingNext(r, offset, start, presync, n);
  }

  // ---------- the fields of the two passes, and what they say about the log ----------

  datatype Presync = Presync(work: nat, bits: seq<bool>, last: Header, height: nat)

  datatype Redownload = Redownload(
    bits: seq<bool>, buffer: seq<CompressedHeader>, height: nat, last: Hash, first: Hash, work: nat, all: bool)

  ghost predicate TracksPresync(p: Params, hs: seq<Header>, f: Presync) {
    && f.height == p.start.height + |hs|
    && f.last == (if hs == [] then p.start.header else hs[|hs| - 1])
    && f.bits == Bits(p.rules, p.commitOffset, hs, p.start.height + 1)
    && f.work == ChainWork(p.rules, p.start, hs)
  }

  ghost predicate PresyncOk(p: Params, log: Log, f: Presync) {
    && Sound(p, log) && log.accepted == [] && log.checked == 0
    && TracksPresync(p, log.presync, f) && |f.bits| <= p.maxCommitments
  }

  function PresyncNext(p: Params, f: Presync, h: Header): Presync {
    Presync(AddWork(p.rules, f.work, h.bits),
            if Committed(p.commitOffset, f.height + 1) then f.bits + [p.rules.commit(p.rules.hash(h))] else f.bits,
            h, f.height + 1)
  }

  predicate PresyncAccepts(p: Params, f: Presync, h: Header) {
    p.rules.permitted(f.height + 1, f.last.bits, h.bits)
    && (Committed(p.commitOffset, f.height + 1) ==> |PresyncNext(p, f, h).bits| <= p.maxCommitments)
  }

  lemma TracksBitsNext(p: Params, hs: seq<Header>, f: Presync, h: Header)
    requires f.height == p.start.height + |hs| && f.bits == Bits(p.rules, p.commitOffset, hs, p.start.height + 1)
    ensures PresyncNext(p, f, h).bits == Bits(p.rules, p.commitOffset, hs + [h], p.start.height + 1)
  {
    BitsAppend(p.rules, p.commitOffset, hs, p.start.height + 1, h);
  }

  lemma TracksPresyncNext(p: Params, hs: seq<Header>, f: Presync, h: Header)
    requires TracksPresync(p, hs, f)
    ensures TracksPresync(p, hs + [h], PresyncNext(p, f, h))
  {
    TracksBitsNext(p, hs, f, h);
    WorkGrows(p.rules, p.start, hs, h);
  }

  lemma PresyncKeeps(p: Params, log: Log, f: Presync, h: Header)
    requires PresyncOk(p, log, f) && PresyncAccepts(p, f, h) && h.prev == p.rules.hash(f.last)
    ensures PresyncOk(p, log.(presync := log.presync + [h]), PresyncNext(p, f, h))
  {
    TracksPresyncNext(p, log.presync, f, h);
    PresyncGrows(p, log, h);
  }

  /** The first pass over a whole message, and what it adds to the log. */
  ghost function PresyncAll(p: Params, log: Log, f: Presync, hs: seq<Header>): Option<(Log, Presync)>
    decreases |hs|
  {
    if hs == [] then Some((log, f))
    else if !PresyncAccepts(p, f, hs[0]) then None
    else PresyncAll(p, log.(presync := log.presync + [hs[0]]), PresyncNext(p, f, hs[0]), hs[1..])
  }

  lemma {:induction false} PresyncAllKeeps(p: Params, log: Log, f: Presync, hs: seq<Header>)
    requires PresyncOk(p, log, f) && PresyncAll(p, log, f, hs).Some?
    requires Linked(p.rules, p.rules.hash(f.last), hs)
    ensures var (l, g) := PresyncAll(p, log, f, hs).value;
            PresyncOk(p, l, g) && l == log.(presync := log.presync + hs)
    decreases |hs|
  {
    if hs != [] {
      assert LinkedAt(p.rules, p.rules.hash(f.last), hs, 0);
      PresyncKeeps(p, log, f, hs[0]);
      LinkedRest(p.rules, p.rules.hash(f.last), hs);
      PresyncAllKeeps(p, log.(presync := log.presync + [hs[0]]), PresyncNext(p, f, hs[0]), hs[1..]);
    }
    OneByOne(log.presync, hs);
  }

  /** A chain that the first pass takes. */
  ghost predicate FitsPresync(p: Params, hs: seq<Header>) {
    GoodChain(p, hs) && |Bits(p.rules, p.commitOffset, hs, p.start.height + 1)| <= p.maxCommitments
  }

  lemma GoodChainSnoc(p: Params, hs: seq<Header>, h: Header)
    ensures GoodChain(p, hs + [h]) <==>
              && GoodChain(p, hs) && h.prev == TipHash(p.rules, p.StartHash(), hs)
              && p.rules.permitted(p.start.height + 1 + |hs|, TipBits(p.start, hs), h.bits)
  {
    if GoodChain(p, hs + [h]) {
      PrefixIsGood(p, hs + [h], hs);
      assert LinkedAt(p.rules, p.StartHash(), hs + [h], |hs|) && DifficultyOkAt(p.rules, p.start, hs + [h], |hs|);
    } else if GoodChain(p, hs) && h.prev == TipHash(p.rules, p.StartHash(), hs)
              && p.rules.permitted(p.start.height + 1 + |hs|, TipBits(p.start, hs), h.bits) {
      GoodChainGrows(p, hs, h);
    }
  }

  lemma PresyncAcceptsIff(p: Params, log: Log, f: Presync, h: Header)
    requires PresyncOk(p, log, f)
    ensures PresyncAccepts(p, f, h) && h.prev == p.rules.hash(f.last) <==> FitsPresync(p, log.presync + [h])
  {
    GoodChainSnoc(p, log.presync, h);
    TracksBitsNext(p, log.presync, f, h);
  }

  lemma {:induction false} FitsPresyncPrefix(p: Params, hs: seq<Header>, rest: seq<Header>)
    requires FitsPresync(p, hs + rest)
    ensures FitsPresync(p, hs)
    decreases |rest|
  {
    if rest == [] {
      assert hs + rest == hs;
    } else {
      var n := |rest| - 1;
      assert hs + rest == hs + rest[..n] + [rest[n]];
      GoodChainSnoc(p, hs + rest[..n], rest[n]);
      BitsAppend(p.rules, p.commitOffset, hs + rest[..n], p.start.height + 1, rest[n]);
      FitsPresyncPrefix(p, hs, rest[..n]);
    }
  }

  /** The first pass takes a message exactly if the chain with it fits. */
  lemma {:induction false} PresyncAllIff(p: Params, log: Log, f: Presync, hs: seq<Header>)
    requires PresyncOk(p, log, f)
    ensures PresyncAll(p, log, f, hs).Some? && Linked(p.rules, p.rules.hash(f.last), hs) <==>
              FitsPresync(p, log.presync + hs)
    decreases |hs|
  {
    OneByOne(log.presync, hs);
    if hs != [] {
      PresyncAcceptsIff(p, log, f, hs[0]);
      LinkedFirst(p.rules, p.rules.hash(f.last), hs);
      if PresyncAccepts(p, f, hs[0]) && hs[0].prev == p.rules.hash(f.last) {
        PresyncKeeps(p, log, f, hs[0]);
        PresyncAllIff(p, log.(presync := log.presync + [hs[0]]), PresyncNext(p, f, hs[0]), hs[1..]);
      } else if FitsPresync(p, log.presync + hs) {
        FitsPresyncPrefix(p, log.presync + [hs[0]], hs[1..]);
      }
    }
  }

  lemma LinkedFirst(r: Rules, prev: Hash, hs: seq<Header>)
    requires hs != []
    ensures Linked(r, prev, hs) <==> hs[0].prev == prev && Linked(r, r.hash(hs[0]), hs[1..])
  {
    if Linked(r, prev, hs) {
      assert LinkedAt(r, prev, hs, 0);
      LinkedRest(r, prev, hs);
    } else if hs[0].prev == prev && Linked(r, r.hash(hs[0]), hs[1..]) {
      forall i | 0 <= i < |hs| ensures LinkedAt(r, prev, hs, i) {
        if i > 0 { assert LinkedAt(r, r.hash(hs[0]), hs[1..], i - 1); }
      }
    }
  }

  ghost predicate TracksRedownload(p: Params, log: Log, f: Redownload) {
    && log.released + Expand(p.rules, f.buffer, f.first) == log.accepted
    && f.first == TipHash(p.rules, p.StartHash(), log.released)
    && f.last == TipHash(p.rules, p.StartHash(), log.accepted)
    && f.height == p.start.height + |log.accepted|
    && f.work == ChainWork(p.rules, p.start, log.accepted)
  }

  /** The queue holds exactly the bits of the committed heights still to come, until the threshold is reached. */
  ghost predicate QueueOk(p: Params, log: Log, bits: seq<bool>, all: bool) {
    && |bits| <= p.maxCommitments
    && p.minimumWork <= ChainWork(p.rules, p.start, log.presync)
    && (if all then
          ThresholdReached(p, log)
        else
          && log.checked == |log.accepted| && !ReachedBy(p, log.accepted, |log.accepted|)
          && bits == Outstanding(p.rules, p.commitOffset, p.start, log.presync, |log.accepted|))
  }

  ghost predicate RedownloadOk(p: Params, log: Log, f: Redownload) {
    Sound(p, log) && QueueOk(p, log, f.bits, f.all) && TracksRedownload(p, log, f)
  }

  /** The state in which the second pass begins. */
  function Begin(p: Params, f: Presync): Redownload {
    Redownload(f.bits, [], p.start.height, p.StartHash(), p.StartHash(), p.start.work, false)
  }

  lemma BeginIsRight(p: Params, log: Log, f: Presync)
    requires PresyncOk(p, log, f) && p.minimumWork <= f.work
    ensures RedownloadOk(p, log, Begin(p, f))
  {
    assert log.presync[0..] == log.presync;
    assert log.released == [];
    assert Expand(p.rules, [], p.StartHash()) == [];
  }

  predicate AllAfter(p: Params, f: Redownload, h: Header) {
    f.all || p.minimumWork <= AddWork(p.rules, f.work, h.bits)
  }

  /** The header's commitment is compared with the oldest one in the queue. */
  predicate Compares(p: Params, f: Redownload, h: Header) {
    !AllAfter(p, f, h) && Committed(p.commitOffset, f.height + 1)
  }

  function PreviousBits(p: Params, f: Redownload): nat {
    if f.buffer != [] then f.buffer[|f.buffer| - 1].bits else p.start.header.bits
  }

  predicate StoreAccepts(p: Params, f: Redownload, h: Header) {
    && h.prev == f.last && p.rules.permitted(f.height + 1, PreviousBits(p, f), h.bits)
    && (Compares(p, f, h) ==> f.bits != [] && p.rules.commit(p.rules.hash(h)) == f.bits[0])
  }

  function StoreNext(p: Params, f: Redownload, h: Header): Redownload
    requires StoreAccepts(p, f, h)
  {
    Redownload(if Compares(p, f, h) then f.bits[1..] else f.bits, f.buffer + [Compress(h)], f.height + 1,
               p.rules.hash(h), f.first, AddWork(p.rules, f.work, h.bits), AllAfter(p, f, h))
  }

  lemma BufferGrows(p: Params, log: Log, f: Redownload, h: Header)
    requires TracksRedownload(p, log, f) && h.prev == f.last
    ensures log.released + Expand(p.rules, f.buffer + [Compress(h)], f.first) == log.accepted + [h]
  {
    TipThroughBuffer(p.rules, p.StartHash(), log.released, f.buffer, f.first);
    ExpandAppend(p.rules, f.buffer, f.first, h);
    var e := Expand(p.rules, f.buffer, f.first);
    assert log.released + (e + [h]) == log.released + e + [h];
  }

  lemma StoreKeepsTrack(p: Params, log: Log, f: Redownload, h: Header)
    requires TracksRedownload(p, log, f) && StoreAccepts(p, f, h)
    ensures TracksRedownload(p, Accept(log, h, !AllAfter(p, f, h)), StoreNext(p, f, h))
  {
    WorkGrows(p.rules, p.start, log.accepted, h);
    BufferGrows(p, log, f, h);
  }

  /** The popped commitment is the one for the header's own height. */
  lemma StorePops(p: Params, log: Log, f: Redownload, h: Header)
    requires QueueOk(p, log, f.bits, f.all) && TracksRedownload(p, log, f) && StoreAccepts(p, f, h)
             && !AllAfter(p, f, h)
    ensures StoreNext(p, f, h).bits == Outstanding(p.rules, p.commitOffset, p.start, log.presync, |log.accepted| + 1)
    ensures AgreesAt(p.rules, p.commitOffset, p.start, log.presync, h, |log.accepted|)
  {
    OutstandingNext(p.rules, p.commitOffset, p.start, log.presync, |log.accepted|);
    if Committed(p.commitOffset, f.height + 1) {
      NoneOutstanding(p.rules, p.commitOffset, p.start, log.presync, |log.accepted|);
    }
  }

  lemma TrackedBits(p: Params, log: Log, f: Redownload)
    requires TracksRedownload(p, log, f) && (f.buffer == [] ==> log.accepted == [])
    ensures TipBits(p.start, log.accepted) == PreviousBits(p, f)
  {
    LastBits(p.rules, p.start, log.released, f.buffer, f.first);
  }

  lemma StoreKeepsSound(p: Params, log: Log, f: Redownload, h: Header)
    requires RedownloadOk(p, log, f) && (f.buffer == [] ==> log.accepted == []) && StoreAccepts(p, f, h)
    ensures var l := Accept(log, h, !AllAfter(p, f, h));
            Sound(p, l) && (AllAfter(p, f, h) ==> ThresholdReached(p, l))
  {
    TrackedBits(p, log, f);
    if AllAfter(p, f, h) {
      WorkGrows(p.rules, p.start, log.accepted, h);
      AcceptUnchecked(p, log, h);
    } else {
      StorePops(p, log, f, h);
      AcceptChecked(p, log, h);
    }
  }

  lemma StoreKeepsQueue(p: Params, log: Log, f: Redownload, h: Header)
    requires QueueOk(p, log, f.bits, f.all) && TracksRedownload(p, log, f) && StoreAccepts(p, f, h)
    requires !AllAfter(p, f, h)
    ensures QueueOk(p, Accept(log, h, true), StoreNext(p, f, h).bits, false)
  {
    StorePops(p, log, f, h);
    WorkGrows(p.rules, p.start, log.accepted, h);
    ReachedNext(p, log.accepted, h);
  }

  /** Which prefixes reach the threshold when there is one more header. */
  lemma ReachedNext(p: Params, hs: seq<Header>, h: Header)
    ensures ReachedBy(p, hs + [h], |hs| + 1) <==>
              ReachedBy(p, hs, |hs|) || p.minimumWork <= ChainWork(p.rules, p.start, hs + [h])
  {
    var t := hs + [h];
    ReachedSame(p, hs, h, |hs|);
    assert t[..|t|] == t;
    if ReachedBy(p, t, |t|) {
      var m :| 0 < m <= |t| && p.minimumWork <= ChainWork(p.rules, p.start, t[..m]);
      if m <= |hs| { assert ReachedBy(p, t, |hs|); }
    }
  }

  lemma ReachedSame(p: Params, hs: seq<Header>, h: Header, n: nat)
    requires n <= |hs|
    ensures ReachedBy(p, hs + [h], n) <==> ReachedBy(p, hs, n)
  {
    assert forall m :: 0 <= m <= |hs| ==> (hs + [h])[..m] == hs[..m];
  }

  lemma StoreKeeps(p: Params, log: Log, f: Redownload, h: Header)
    requires RedownloadOk(p, log, f) && (f.buffer == [] ==> log.accepted == []) && StoreAccepts(p, f, h)
    ensures RedownloadOk(p, Accept(log, h, !AllAfter(p, f, h)), StoreNext(p, f, h))
  {
    StoreKeepsTrack(p, log, f, h);
    StoreKeepsSound(p, log, f, h);
    if !AllAfter(p, f, h) { StoreKeepsQueue(p, log, f, h); }
  }

  /** The second pass over a whole message, and what it adds to the log. */
  ghost function StoreAll(p: Params, log: Log, f: Redownload, hs: seq<Header>): Option<(Log, Redownload)>
    decreases |hs|
  {
    if hs == [] then Some((log, f))
    else if !StoreAccepts(p, f, hs[0]) then None
    else StoreAll(p, Accept(log, hs[0], !AllAfter(p, f, hs[0])), StoreNext(p, f, hs[0]), hs[1..])
  }

  lemma {:induction false} StoreAllKeeps(p: Params, log: Log, f: Redownload, hs: seq<Header>)
    requires RedownloadOk(p, log, f) && (f.buffer == [] ==> log.accepted == []) && StoreAll(p, log, f, hs).Some?
    ensures var (l, g) := StoreAll(p, log, f, hs).value;
            && RedownloadOk(p, l, g) && (hs != [] ==> g.buffer != [])
            && l.presync == log.presync && l.accepted == log.accepted + hs && l.released == log.released
    decreases |hs|
  {
    if hs != [] {
      StoreKeeps(p, log, f, hs[0]);
      StoreAllKeeps(p, Accept(log, hs[0], !AllAfter(p, f, hs[0])), StoreNext(p, f, hs[0]), hs[1..]);
      assert hs[1..] == [] ==> StoreAll(p, log, f, hs).value.1 == StoreNext(p, f, hs[0]);
    }
    OneByOne(log.accepted, hs);
  }

  ghost predicate CheckedAt(p: Params, presync: seq<Header>, hs: seq<Header>, i: nat)
    requires i < |hs|
  {
    AgreesAt(p.rules, p.commitOffset, p.start, presync, hs[i], i) || ReachedBy(p, hs, i + 1)
  }

  /** A chain that the second pass takes after the given first one. */
  ghost predicate FitsRedownload(p: Params, presync: seq<Header>, hs: seq<Header>) {
    GoodChain(p, hs) && forall i :: 0 <= i < |hs| ==> CheckedAt(p, presync, hs, i)
  }

  lemma FitsRedownloadSnoc(p: Params, presync: seq<Header>, hs: seq<Header>, h: Header)
    ensures FitsRedownload(p, presync, hs + [h]) <==>
              && FitsRedownload(p, presync, hs) && GoodChain(p, hs + [h])
              && (|| AgreesAt(p.rules, p.commitOffset, p.start, presync, h, |hs|) || ReachedBy(p, hs, |hs|)
                  || p.minimumWork <= ChainWork(p.rules, p.start, hs + [h]))
  {
    GoodChainSnoc(p, hs, h);
    ReachedNext(p, hs, h);
    forall i | 0 <= i < |hs| ensures CheckedAt(p, presync, hs + [h], i) <==> CheckedAt(p, presync, hs, i) {
      ReachedSame(p, hs, h, i + 1);
    }
    assert CheckedAt(p, presync, hs + [h], |hs|) <==>
             || AgreesAt(p.rules, p.commitOffset, p.start, presync, h, |hs|) || ReachedBy(p, hs, |hs|)
             || p.minimumWork <= ChainWork(p.rules, p.start, hs + [h]);
    if FitsRedownload(p, presync, hs + [h]) {
      forall i | 0 <= i < |hs| ensures CheckedAt(p, presync, hs, i) { assert CheckedAt(p, presync, hs + [h], i); }
    }
  }

  lemma {:induction false} FitsRedownloadPrefix(p: Params, presync: seq<Header>, hs: seq<Header>, rest: seq<Header>)
    requires FitsRedownload(p, presync, hs + rest)
    ensures FitsRedownload(p, presync, hs)
    decreases |rest|
  {
    if rest == [] {
      assert hs + rest == hs;
    } else {
      var n := |rest| - 1;
      assert hs + rest == hs + rest[..n] + [rest[n]];
      FitsRedownloadSnoc(p, presync, hs + rest[..n], rest[n]);
      FitsRedownloadPrefix(p, presync, hs, rest[..n]);
    }
  }

  lemma AcceptedFits(p: Params, log: Log)
    requires Sound(p, log)
    ensures FitsRedownload(p, log.presync, log.accepted)
  {
    forall i | 0 <= i < |log.accepted| ensures CheckedAt(p, log.presync, log.accepted, i) {
      EveryHeaderAgrees(p, log, i);
    }
  }

  /** The oldest commitment in the queue decides as the first pass itself would. */
  lemma ComparesRightly(p: Params, log: Log, f: Redownload, h: Header)
    requires QueueOk(p, log, f.bits, f.all) && TracksRedownload(p, log, f) && Compares(p, f, h)
    ensures f.bits != [] && p.rules.commit(p.rules.hash(h)) == f.bits[0] <==>
              AgreesAt(p.rules, p.commitOffset, p.start, log.presync, h, |log.accepted|)
  {
    NoneOutstanding(p.rules, p.commitOffset, p.start, log.presync, |log.accepted|);
  }

  lemma AllAfterIff(p: Params, log: Log, f: Redownload, h: Header)
    requires QueueOk(p, log, f.bits, f.all) && TracksRedownload(p, log, f)
    ensures AllAfter(p, f, h) <==>
              || ReachedBy(p, log.accepted, |log.accepted|)
              || p.minimumWork <= ChainWork(p.rules, p.start, log.accepted + [h])
  {
    WorkGrows(p.rules, p.start, log.accepted, h);
    if f.all { assert ReachedBy(p, log.accepted, |log.accepted|); }
  }

  lemma StoreAcceptsIff(p: Params, log: Log, f: Redownload, h: Header)
    requires RedownloadOk(p, log, f) && (f.buffer == [] ==> log.accepted == [])
    ensures StoreAccepts(p, f, h) <==> FitsRedownload(p, log.presync, log.accepted + [h])
  {
    AcceptedFits(p, log);
    FitsRedownloadSnoc(p, log.presync, log.accepted, h);
    GoodChainSnoc(p, log.accepted, h);
    TrackedBits(p, log, f);
    AllAfterIff(p, log, f, h);
    if Compares(p, f, h) { ComparesRightly(p, log, f, h); }
  }

  /** The second pass takes a message exactly if the chain with it fits. */
  lemma {:induction false} StoreAllIff(p: Params, log: Log, f: Redownload, hs: seq<Header>)
    requires RedownloadOk(p, log, f) && (f.buffer == [] ==> log.accepted == [])
    ensures StoreAll(p, log, f, hs).Some? <==> FitsRedownload(p, log.presync, log.accepted + hs)
    decreases |hs|
  {
    OneByOne(log.accepted, hs);
    if hs == [] {
      AcceptedFits(p, log);
    } else {
      StoreAcceptsIff(p, log, f, hs[0]);
      if StoreAccepts(p, f, hs[0]) {
        StoreKeeps(p, log, f, hs[0]);
        StoreAllIff(p, Accept(log, hs[0], !AllAfter(p, f, hs[0])), StoreNext(p, f, hs[0]), hs[1..]);
      } else if FitsRedownload(p, log.presync, log.accepted + hs) {
        FitsRedownloadPrefix(p, log.presync, log.accepted + [hs[0]], hs[1..]);
      }
    }
  }

  predicate Pops(f: Redownload) {
    |f.buffer| > REDOWNLOAD_BUFFER_SIZE || (|f.buffer| > 0 && f.all)
  }

  function PopNext(p: Params, f: Redownload): Redownload
    requires f.buffer != []
  {
    f.(buffer := f.buffer[1..], first := p.rules.hash(f.buffer[0].GetFullHeader(f.first)))
  }

  lemma PopKeepsTrack(p: Params, log: Log, f: Redownload)
    requires TracksRedownload(p, log, f) && f.buffer != []
    ensures var h := f.buffer[0].GetFullHeader(f.first);
            && log.released + [h] <= log.accepted && |log.released| + |f.buffer| == |log.accepted|
            && TracksRedownload(p, log.(released := log.released + [h]), PopNext(p, f))
  {
    var h := f.buffer[0].GetFullHeader(f.first);
    ExpandLength(p.rules, f.buffer, f.first);
    var e := Expand(p.rules, f.buffer[1..], p.rules.hash(h));
    assert log.released + ([h] + e) == log.released + [h] + e;
  }

  lemma PopKeepsQueue(p: Params, log: Log, f: Redownload)
    requires QueueOk(p, log, f.bits, f.all) && f.buffer != []
    ensures QueueOk(p, PopLog(log, f), f.bits, f.all)
  {
  }

  lemma PopKeeps(p: Params, log: Log, f: Redownload)
    requires RedownloadOk(p, log, f) && Pops(f)
    ensures RedownloadOk(p, PopLog(log, f), PopNext(p, f))
  {
    PopKeepsTrack(p, log, f);
    Releases(p, log, f.buffer[0].GetFullHeader(f.first));
    PopKeepsQueue(p, log, f);
  }

  function PopLog(log: Log, f: Redownload): Log
    requires f.buffer != []
  {
    log.(released := log.released + [f.buffer[0].GetFullHeader(f.first)])
  }

  /** Handing out all headers that are ready, and what it adds to the log. */
  ghost function PopAll(p: Params, log: Log, f: Redownload): (Log, Redownload)
    decreases |f.buffer|
  {
    if Pops(f) then PopAll(p, PopLog(log, f), PopNext(p, f)) else (log, f)
  }

  lemma {:induction false} PopAllKeeps(p: Params, log: Log, f: Redownload)
    requires RedownloadOk(p, log, f)
    ensures var (l, g) := PopAll(p, log, f);
            && RedownloadOk(p, l, g) && !Pops(g) && g.all == f.all && (!f.all && f.buffer != [] ==> g.buffer != [])
    decreases |f.buffer|
  {
    if Pops(f) {
      PopKeeps(p, log, f);
      PopAllKeeps(p, PopLog(log, f), PopNext(p, f));
    }
  }

  /** The second pass when all headers that are ready have been handed out. */
  ghost predicate AfterMessage(p: Params, log: Log, f: Redownload) {
    && RedownloadOk(p, log, f) && |f.buffer| <= REDOWNLOAD_BUFFER_SIZE
    && (f.all <==> ThresholdReached(p, log)) && (f.all <==> f.buffer == [])
    && (f.all ==> log.released == log.accepted)
  }

  function Grown(log: Log, hs: seq<Header>, released: seq<Header>, checked: nat): Log {
    log.(accepted := log.accepted + hs, released := log.released + released, checked := checked)
  }

  lemma HeldBack(p: Params, log: Log, f: Redownload)
    requires TracksRedownload(p, log, f)
    ensures |log.accepted| == |log.released| + |f.buffer|
  {
    ExpandLength(p.rules, f.buffer, f.first);
  }

  /** A whole message of the second pass, and everything that is handed out after it. */
  lemma RedownloadKeeps(p: Params, log: Log, f: Redownload, hs: seq<Header>)
    requires RedownloadOk(p, log, f) && (f.buffer == [] ==> log.accepted == [])
    requires hs != [] && StoreAll(p, log, f, hs).Some?
    ensures var (l, g) := StoreAll(p, log, f, hs).value;
            var (l', g') := PopAll(p, l, g);
            && AfterMessage(p, l', g')
            && l.released == log.released && l' == Grown(log, hs, [], l'.checked).(released := l'.released)
  {
    StoreAllKeeps(p, log, f, hs);
    var (l, g) := StoreAll(p, log, f, hs).value;
    PopAllKeeps(p, l, g);
    PopAllLog(p, l, g);
  }

  lemma {:induction false} PopAllLog(p: Params, log: Log, f: Redownload)
    ensures PopAll(p, log, f).0 == log.(released := PopAll(p, log, f).0.released)
    decreases |f.buffer|
  {
    if Pops(f) { PopAllLog(p, PopLog(log, f), PopNext(p, f)); }
  }

  class HeadersSyncState {
    const p: Params

    var chainWork: nat
    var commitments: seq<bool>
    var lastHeader: Header
    var currentHeight: nat
    var buffer: seq<CompressedHeader>
    var bufferLastHeight: nat
    var bufferLastHash: Hash
    var bufferFirstPrevHash: Hash
    var redownloadWork: nat
    var processAll: bool
    var state: State

    ghost var log: Log

    ghost function First(): Presync
      reads this
    {
      Presync(chainWork, commitments, lastHeader, currentHeight)
    }

    ghost function Second(): Redownload
      reads this
    {
      Redownload(commitments, buffer, bufferLastHeight, bufferLastHash, bufferFirstPrevHash, redownloadWork, processAll)
    }

    ghost predicate Valid()
      reads this
    {
      match state
      case PRESYNC =>
        && PresyncOk(p, log, First()) && buffer == [] && !processAll
        && (log.presync == [] || chainWork < p.minimumWork)
      case REDOWNLOAD =>
        && RedownloadOk(p, log, Second()) && !processAll && |buffer| <= REDOWNLOAD_BUFFER_SIZE
        && (buffer == [] ==> log.accepted == []) && log.presync != []
      case FINAL => Sound(p, log) && commitments == [] && buffer == [] && Prompt(p, log)
    }

    constructor (p: Params)
      requires p.commitOffset < HEADER_COMMITMENT_PERIOD
      ensures Valid() && state == PRESYNC && log == Log([], [], [], 0) && this.p == p
    {
      this.p := p;
      chainWork, commitments, lastHeader, currentHeight := p.start.work, [], p.start.header, p.start.height;
      buffer, bufferLastHeight, bufferLastHash, bufferFirstPrevHash := [], 0, 0, 0;
      redownloadWork, processAll, state := 0, false, PRESYNC;
      log := Log([], [], [], 0);
    }

    method Finalize()
      requires Sound(p, log) && Prompt(p, log)
      modifies this
      ensures Valid() && state == FINAL && log == old(log)
    {
      commitments, buffer := [], [];
      lastHeader := Header(0, 0, 0, 0, 0, 0);
      bufferLastHash, bufferFirstPrevHash, processAll, currentHeight := 0, 0, false, 0;
      state := FINAL;
    }

    /** First pass, one header. */
    method ValidateAndProcessSingleHeader(current: Header) returns (ok: bool)
      modifies `chainWork, `commitments, `lastHeader, `currentHeight
      ensures ok == PresyncAccepts(p, old(First()), current)
      ensures ok ==> First() == PresyncNext(p, old(First()), current)
    {
      var nextHeight := currentHeight + 1;
      if !p.rules.permitted(nextHeight, lastHeader.bits, current.bits) {
        return false;
      }
      if nextHeight % HEADER_COMMITMENT_PERIOD == p.commitOffset {
        commitments := commitments + [p.rules.commit(p.rules.hash(current))];
        if |commitments| > p.maxCommitments {
          return false;
        }
      }
      chainWork := AddWork(p.rules, chainWork, current.bits);
      lastHeader := current;
      currentHeight := nextHeight;
      ok := true;
    }

    /** First pass, one message: when the work suffices the second pass begins. */
    method ValidateAndStoreHeadersCommitments(headers: seq<Header>) returns (ok: bool)
      requires state == PRESYNC && Valid() && headers != [] && Continuous(p.rules, headers)
      modifies this
      ensures ok <==> FitsPresync(p, old(log).presync + headers)
      ensures !ok ==> log == old(log)
      ensures ok ==> Valid() && log == old(log).(presync := old(log).presync + headers)
      ensures ok ==> state == if p.minimumWork <= ChainWork(p.rules, p.start, log.presync) then REDOWNLOAD else PRESYNC
    {
      PresyncAllIff(p, log, First(), headers);
      LinkedFirst(p.rules, p.rules.hash(lastHeader), headers);
      if headers[0].prev != p.rules.hash(lastHeader) {
        return false;
      }
      ContinuousIsLinked(p.rules, p.rules.hash(lastHeader), headers);
      ok := ProcessAll(headers);
      if ok && chainWork >= p.minimumWork {
        BeginRedownload();
      }
    }

    /** A message that links to the first pass. */
    method ProcessAll(headers: seq<Header>) returns (ok: bool)
      requires PresyncOk(p, log, First()) && Linked(p.rules, p.rules.hash(lastHeader), headers)
      modifies `chainWork, `commitments, `lastHeader, `currentHeight, `log
      ensures ok <==> PresyncAll(p, old(log), old(First()), headers).Some?
      ensures if ok then PresyncOk(p, log, First()) && log == old(log).(presync := old(log).presync + headers)
              else log == old(log)
    {
      ghost var before := First();
      ok := ProcessEach(headers);
      if ok {
        PresyncAllKeeps(p, log, before, headers);
        log := log.(presync := log.presync + headers);
      }
    }

    method BeginRedownload()
      requires state == PRESYNC && PresyncOk(p, log, First()) && !processAll && p.minimumWork <= chainWork
      requires log.presync != []
      modifies `buffer, `bufferLastHeight, `bufferFirstPrevHash, `bufferLastHash, `redownloadWork, `state
      ensures Valid() && state == REDOWNLOAD
    {
      BeginIsRight(p, log, First());
      buffer := [];
      bufferLastHeight := p.start.height;
      bufferFirstPrevHash := p.StartHash();
      bufferLastHash := p.StartHash();
      redownloadWork := p.start.work;
      state := REDOWNLOAD;
    }

    method ProcessEach(headers: seq<Header>) returns (ok: bool)
      modifies `chainWork, `commitments, `lastHeader, `currentHeight
      ensures ok == PresyncAll(p, log, old(First()), headers).Some?
      ensures ok ==> First() == PresyncAll(p, log, old(First()), headers).value.1
    {
      ghost var l := log;
      for i := 0 to |headers|
        invariant PresyncAll(p, log, old(First()), headers) == PresyncAll(p, l, First(), headers[i..])
      {
        ok := ValidateAndProcessSingleHeader(headers[i]);
        if !ok {
          return;
        }
        l := l.(presync := l.presync + [headers[i]]);
        assert headers[i..][1..] == headers[i + 1..];
      }
      ok := true;
    }

    /** Second pass, one header. */
    method ValidateAndStoreRedownloadedHeader(header: Header) returns (ok: bool)
      modifies `commitments, `buffer, `bufferLastHeight, `bufferLastHash, `redownloadWork, `processAll
      ensures ok == StoreAccepts(p, old(Second()), header)
      ensures ok ==> Second() == StoreNext(p, old(Second()), header)
    {
      var nextHeight := bufferLastHeight + 1;
      if header.prev != bufferLastHash {
        return false;
      }
      var previousBits := if buffer != [] then buffer[|buffer| - 1].bits else p.start.header.bits;
      if !p.rules.permitted(nextHeight, previousBits, header.bits) {
        return false;
      }
      redownloadWork := AddWork(p.rules, redownloadWork, header.bits);
      if redownloadWork >= p.minimumWork {
        processAll := true;
      }
      if !processAll && nextHeight % HEADER_COMMITMENT_PERIOD == p.commitOffset {
        if commitments == [] {
          return false;
        }
        var expected := commitments[0];
        commitments := commitments[1..];
        if p.rules.commit(p.rules.hash(header)) != expected {
          return false;
        }
      }
      buffer := buffer + [Compress(header)];
      bufferLastHeight := nextHeight;
      bufferLastHash := p.rules.hash(header);
      ok := true;
    }

    /** Second pass, one message. */
    method StoreEach(headers: seq<Header>) returns (ok: bool)
      modifies `commitments, `buffer, `bufferLastHeight, `bufferLastHash, `redownloadWork, `processAll, `log
      ensures ok == StoreAll(p, old(log), old(Second()), headers).Some?
      ensures if ok then (log, Second()) == StoreAll(p, old(log), old(Second()), headers).value else log == old(log)
    {
      ghost var l := log;
      for i := 0 to |headers|
        invariant log == old(log)
        invariant StoreAll(p, log, old(Second()), headers) == StoreAll(p, l, Second(), headers[i..])
      {
        ok := ValidateAndStoreRedownloadedHeader(headers[i]);
        if !ok {
          return;
        }
        l := Accept(l, headers[i], !processAll);
        assert headers[i..][1..] == headers[i + 1..];
      }
      log := l;
      ok := true;
    }

    /** Hands out what has enough headers on top of it, or everything once the threshold is reached. */
    method PopHeadersReadyForAcceptance() returns (ret: seq<Header>)
      modifies `buffer, `bufferFirstPrevHash, `log
      ensures (log, Second()) == PopAll(p, old(log), old(Second()))
      ensures log == old(log).(released := old(log).released + ret)
    {
      ret := [];
      while |buffer| > REDOWNLOAD_BUFFER_SIZE || (|buffer| > 0 && processAll)
        invariant PopAll(p, log, Second()) == PopAll(p, old(log), old(Second()))
        invariant log == old(log).(released := old(log).released + ret)
        decreases |buffer|
      {
        log := PopLog(log, Second());
        ret := ret + [buffer[0].GetFullHeader(bufferFirstPrevHash)];
        buffer := buffer[1..];
        bufferFirstPrevHash := p.rules.hash(ret[|ret| - 1]);
      }
    }

    method StoreAndPop(received: seq<Header>) returns (ok: bool, ret: seq<Header>)
      requires RedownloadOk(p, log, Second()) && (buffer == [] ==> log.accepted == []) && received != []
      modifies `commitments, `buffer, `bufferLastHeight, `bufferLastHash, `bufferFirstPrevHash, `redownloadWork,
               `processAll, `log
      ensures ok == StoreAll(p, old(log), old(Second()), received).Some?
      ensures if ok then AfterMessage(p, log, Second()) && log == Grown(old(log), received, ret, log.checked)
              else log == old(log)
    {
      ghost var l, f := log, Second();
      ok := StoreEach(received);
      ret := [];
      if ok {
        RedownloadKeeps(p, l, f, received);
        ret := PopHeadersReadyForAcceptance();
      }
    }

    /** Second pass, one message and what it releases. */
    method Redownloaded(received: seq<Header>, fullMessage: bool) returns (r: ProcessingResult)
      requires state == REDOWNLOAD && Valid() && received != []
      modifies this
      ensures if r.success then log == Grown(old(log), received, r.headers, log.checked)
              else log == old(log) && r.headers == []
      ensures Sound(p, log) && Prompt(p, log)
      ensures r.success <==> FitsRedownload(p, old(log).presync, old(log).accepted + received)
      ensures r.success ==> (r.requestMore <==> fullMessage && !ThresholdReached(p, log))
      ensures r.success && ThresholdReached(p, log) ==> log.released == log.accepted
      ensures r.success && r.requestMore ==> state == REDOWNLOAD && Valid()
    {
      StoreAllIff(p, log, Second(), received);
      HeldBack(p, log, Second());
      var ok, headers := StoreAndPop(received);
      if !ok {
        return ProcessingResult([], false, false);
      }
      HeldBack(p, log, Second());
      var done := buffer == [] && processAll;
      r := ProcessingResult(headers, true, !done && fullMessage);
    }

    method ProcessNextHeaders(received: seq<Header>, fullMessage: bool) returns (r: ProcessingResult)
      requires Valid() && Continuous(p.rules, received)
      modifies this
      ensures Valid() && |commitments| <= p.maxCommitments && |buffer| <= REDOWNLOAD_BUFFER_SIZE
      ensures log.released == old(log).released + r.headers
      ensures !r.success ==> log == old(log)
      ensures received == [] || old(state) == FINAL ==> !r.success && state == old(state)
      ensures received != [] && old(state) != FINAL ==> (state != FINAL <==> r.success && r.requestMore)
      ensures received != [] && old(state) == PRESYNC ==> (r.success <==> FitsPresync(p, old(log).presync + received))
      ensures received != [] && old(state) == REDOWNLOAD ==>
                (r.success <==> FitsRedownload(p, old(log).presync, old(log).accepted + received))
      ensures r.success && old(state) == PRESYNC ==> log == old(log).(presync := old(log).presync + received)
      ensures r.success && old(state) == PRESYNC ==>
                (r.requestMore <==> fullMessage || p.minimumWork <= ChainWork(p.rules, p.start, log.presync))
      ensures r.success && old(state) == REDOWNLOAD ==>
                log.accepted == old(log).accepted + received && log.presync == old(log).presync
      ensures r.success && old(state) == REDOWNLOAD ==> (r.requestMore <==> fullMessage && !ThresholdReached(p, log))
      ensures r.success && old(state) == REDOWNLOAD && ThresholdReached(p, log) ==> log.released == log.accepted
    {
      r := ProcessingResult([], false, false);
      if received == [] || state == FINAL {
        return;
      }
      if state == PRESYNC {
        var ok := ValidateAndStoreHeadersCommitments(received);
        r := ProcessingResult([], ok, ok && (fullMessage || state == REDOWNLOAD));
      } else {
        r := Redownloaded(received, fullMessage);
      }
      if !(r.success && r.requestMore) {
        Finalize();
      }
    }
  }

  type Message = (seq<Header>, bool)

  ghost function Flatten(messages: seq<Message>): seq<Header> {
    if messages == [] then [] else Flatten(messages[..|messages| - 1]) + messages[|messages| - 1].0
  }

  ghost predicate InSecondPass(p: Params, log: Log) {
    log.presync != [] && p.minimumWork <= ChainWork(p.rules, p.start, log.presync)
  }

  /** The headers do not fit what was taken so far. */
  ghost predicate Refuses(p: Params, log: Log, hs: seq<Header>) {
    hs != [] && if InSecondPass(p, log) then !FitsRedownload(p, log.presync, log.accepted + hs)
                else !FitsPresync(p, log.presync + hs)
  }

  /** Nothing more is wanted after a message that was taken: it was not a full one, or the work threshold is reached
    * in the second pass.
    */
  ghost predicate Stops(p: Params, log: Log, full: bool) {
    if InSecondPass(p, log) then log.accepted != [] && (!full || ThresholdReached(p, log))
    else log.presync != [] && !full
  }

  /** The first so many messages were taken, and the synchronisation has ended there or not at all. */
  ghost predicate Took(p: Params, log: Log, messages: seq<Message>, k: nat, taken: nat, ended: bool) {
    && taken <= k <= |messages| && log.presync + log.accepted == Flatten(messages[..taken])
    && (!ended ==> taken == k)
    && (ended ==>
          || (0 < taken && Stops(p, log, messages[taken - 1].1))
          || (taken < k && Refuses(p, log, messages[taken].0)))
  }

  lemma OneMoreTaken(messages: seq<Message>, k: nat)
    requires k < |messages|
    ensures Flatten(messages[..k + 1]) == Flatten(messages[..k]) + messages[k].0
  {
    assert messages[..k + 1][..k] == messages[..k];
  }

  /** What one message does to a synchronisation that has not ended. */
  ghost predicate Moves(p: Params, log: Log, message: Message, log': Log, ended: bool) {
    if message.0 == [] then log' == log && !ended
    else if Refuses(p, log, message.0) then log' == log && ended
    else
      && log'.presync + log'.accepted == (log.presync + log.accepted) + message.0
      && (ended <==> Stops(p, log', message.1))
  }

  method Next(sync: HeadersSyncState, message: Message) returns (headers: seq<Header>)
    requires sync.Valid() && Continuous(sync.p.rules, message.0)
    modifies sync
    ensures sync.Valid() && sync.log.released == old(sync.log).released + headers
    ensures if old(sync.state) == FINAL then sync.log == old(sync.log) && sync.state == FINAL
            else Moves(sync.p, old(sync.log), message, sync.log, sync.state == FINAL)
  {
    ghost var log, state := sync.log, sync.state;
    PassIs(sync);
    var r := sync.ProcessNextHeaders(message.0, message.1);
    headers := r.headers;
    assert (log.presync + log.accepted) + message.0 == log.presync + (log.accepted + message.0);
    assert state == PRESYNC && r.success ==> log.accepted == [] && sync.log.presync != [];
  }

  lemma PassIs(sync: HeadersSyncState)
    requires sync.Valid()
    ensures sync.state == PRESYNC ==> !InSecondPass(sync.p, sync.log) && sync.log.accepted == []
    ensures sync.state == REDOWNLOAD ==> InSecondPass(sync.p, sync.log)
  {
  }

  lemma TookNext(p: Params, log: Log, messages: seq<Message>, k: nat, taken: nat, log': Log, ended: bool)
    returns (taken': nat)
    requires k < |messages| && Took(p, log, messages, k, taken, false) && Moves(p, log, messages[k], log', ended)
    ensures Took(p, log', messages, k + 1, taken', ended)
  {
    OneMoreTaken(messages, k);
    taken' := if Refuses(p, log, messages[k].0) then k else k + 1;
  }

  /** A whole synchronisation: everything handed out, in order, from one message to the next. The messages that were
    * taken are an initial part of those received, and it says what ended it.
    */
  method Synchronise(p: Params, messages: seq<Message>)
    returns (released: seq<Header>, ghost log: Log, ghost taken: nat, ghost ended: bool)
    requires p.commitOffset < HEADER_COMMITMENT_PERIOD
    requires forall k :: 0 <= k < |messages| ==> Continuous(p.rules, messages[k].0)
    ensures Sound(p, log) && released == log.released && Took(p, log, messages, |messages|, taken, ended)
    ensures Linked(p.rules, p.StartHash(), released) && DifficultyOk(p.rules, p.start, released)
    ensures Prompt(p, log)
  {
    var sync := new HeadersSyncState(p);
    released, taken := [], 0;
    for k := 0 to |messages|
      invariant sync.Valid() && sync.p == p && fresh(sync) && released == sync.log.released
      invariant Took(p, sync.log, messages, k, taken, sync.state == FINAL)
    {
      ghost var before, over := sync.log, sync.state == FINAL;
      var headers := Next(sync, messages[k]);
      released := released + headers;
      if !over {
        taken := TookNext(p, before, messages, k, taken, sync.log, sync.state == FINAL);
      }
    }
    log, ended := sync.log, sync.state == FINAL;
    StateIsSound(sync);
    StateIsPrompt(sync);
    PrefixIsGood(p, log.accepted, released);
  }

  lemma StateIsSound(sync: HeadersSyncState)
    requires sync.Valid()
    ensures Sound(sync.p, sync.log)
  {
  }

  lemma StateIsPrompt(sync: HeadersSyncState)
    requires sync.Valid()
    ensures Prompt(sync.p, sync.log)
  {
    if sync.state == REDOWNLOAD { HeldBack(sync.p, sync.log, sync.Second()); }
  }

  lemma PrefixIsGood(p: Params, hs: seq<Header>, front: seq<Header>)
    requires GoodChain(p, hs) && front <= hs
    ensures GoodChain(p, front)
  {
    forall i | 0 <= i < |front|
      ensures LinkedAt(p.rules, p.StartHash(), front, i) && DifficultyOkAt(p.rules, p.start, front, i)
    {
      assert LinkedAt(p.rules, p.StartHash(), hs, i) && DifficultyOkAt(p.rules, p.start, hs, i);
    }
  }
}

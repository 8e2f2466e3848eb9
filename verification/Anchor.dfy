/** The applied anchor (DB_OPs/sync_anchor.go, FastsyncV2/fastsyncv2.go, FastsyncV2/catchup.go,
    FastsyncV2/reconcile_local.go): the block number up to which every transaction is known to
    be applied. Live processing and reconciliation both advance it. */
module Anchor {
  import opened Types
  import opened Markers
  import opened Scan

  // ----- The decision rules -----

  /** Live processing moves the anchor one block at a time. */
  function NextLiveAnchor(current: U64, block: U64): (U64, bool) {
    if block == Inc(current) then (block, true) else (current, false)
  }

  /** Reconciliation moves it to the larger of the two. */
  function NextReconAnchor(current: U64, target: U64): (U64, bool) {
    if target > current then (target, true) else (current, false)
  }

  predicate ShouldAdvanceReconAnchor(reconOk: bool, failed: nat, verified: bool) {
    reconOk && failed == 0 && verified
  }

  function CapAnchorTarget(target: U64, tip: U64): U64 {
    if target > tip then tip else target
  }

  /** The live rule lowers the anchor in exactly one case: block 0 arriving at the last number. */
  lemma LiveNeverLowersExactly(current: U64, block: U64)
    ensures NextLiveAnchor(current, block).0 >= current <==> !(current == MAX_U64 && block == 0)
  {}

  /** The stored anchor and its locked read-decide-write cycles. */
  class AnchorKey {
    var stored: Option<U64>

    constructor ()
      ensures stored == None
    {
      stored := None;
    }

    function Value(): U64
      reads this
    {
      if stored.Some? then stored.value else 0
    }

    /** `advanceAnchor`; `up` says whether the write goes through. */
    method Advance(target: U64, contiguous: bool, up: bool) returns (now: U64, moved: bool)
      modifies this
      ensures moved <==> up && if contiguous then target == Inc(old(Value())) else target > old(Value())
      ensures now == Value() && stored == if moved then Some(target) else old(stored)
      ensures !contiguous && up ==> Value() == Max(old(Value()), target)
    {
      var current := Value();
      var next := if contiguous then NextLiveAnchor(current, target) else NextReconAnchor(current, target);
      if !next.1 || !up {
        return current, false;
      }
      stored := Some(next.0);
      return next.0, true;
    }

    /** `SeedAppliedAnchor` behind its cap: written once, never above the tip, never over an
        existing value. */
    method Seed(legacy: U64, tip: U64) returns (seeded: bool)
      modifies this
      ensures seeded <==> old(stored).None? && legacy != 0 && tip != 0
      ensures stored == if seeded then Some(Min(legacy, tip)) else old(stored)
    {
      var capped := CapAnchorTarget(legacy, tip);
      if capped == 0 || stored.Some? {
        return false;
      }
      stored := Some(capped);
      return true;
    }
  }

  /** `effectiveReconRange`: where reconciliation has to start. */
  function ReconFrom(anchor: U64, from: U64): U64 {
    if Inc(anchor) > from then Inc(anchor) else from
  }

  /** It leaves out exactly the blocks the anchor covers, unless the anchor is at the last number. */
  lemma ReconFromExactly(anchor: U64, from: U64, n: nat)
    requires anchor < MAX_U64
    ensures ReconFrom(anchor, from) <= n <==> from <= n && anchor < n
  {}

  /** `markReconComplete`: never past the local head, and only once the queue has drained; then the
      anchor does get there, unless the write fails. */
  method MarkReconComplete(key: AnchorKey, toBlock: U64, tip: U64, drained: bool, up: bool) returns (covered: bool)
    modifies key
    ensures key.stored == if drained && up && Min(toBlock, tip) > old(key.Value()) then Some(Min(toBlock, tip))
                          else old(key.stored)
    ensures drained && up ==> key.Value() == Max(old(key.Value()), Min(toBlock, tip))
    ensures covered <==> drained && (up || old(key.Value()) >= Min(toBlock, tip))
  {
    var target := CapAnchorTarget(toBlock, tip);
    if !drained {
      return false;
    }
    var now, moved := key.Advance(target, false, up);
    return now >= target;
  }

  /** Reconciliation was clean, the queue has drained, and every block of a range that is not empty is
      stored and complete. */
  ghost predicate Proven(store: BlockStore, reconOk: bool, failed: nat, fromBlock: nat, upTo: nat, drained: bool) {
    && reconOk && failed == 0 && drained && fromBlock <= upTo
    && forall n: nat :: fromBlock <= n <= upTo ==> Whole(store, n)
  }

  /** `advanceReconAnchorIfProven`: the anchor moves, to the end of the range capped at the local head,
      if and only if the range is proven, the write goes through and the anchor is below. */
  method AdvanceReconAnchorIfProven(key: AnchorKey, store: BlockStore, tip: U64, reconOk: bool, failed: nat,
                                    fromBlock: U64, toBlock: U64, drained: bool, up: bool) returns (covered: bool)
    requires Numbered(store)
    modifies key
    ensures var to := Min(toBlock, tip);
            var proven := Proven(store, reconOk, failed, fromBlock, to, drained);
            && (covered <==> proven && (up || old(key.Value()) >= to))
            && key.stored == if proven && up && to > old(key.Value()) then Some(to) else old(key.stored)
  {
    var to := CapAnchorTarget(toBlock, tip);
    if to < fromBlock {
      return false;
    }
    var verified := false;
    if reconOk && failed == 0 {
      verified := DataComplete(store, fromBlock, to);
    }
    if !ShouldAdvanceReconAnchor(reconOk, failed, verified) {
      return false;
    }
    covered := MarkReconComplete(key, to, tip, drained, up);
  }

  /** The data check: nothing to fetch means that every block is stored and complete. */
  method DataComplete(store: BlockStore, fromBlock: nat, toBlock: nat) returns (complete: bool)
    requires Numbered(store) && fromBlock <= toBlock
    ensures complete <==> forall n: nat :: fromBlock <= n <= toBlock ==> Whole(store, n)
  {
    var ranges, counters, stop := BuildDataMissingTag(store, fromBlock, toBlock, toBlock + 1);
    assert stop == toBlock + 1;
    forall n: nat | fromBlock <= n <= toBlock ensures Whole(store, n) <==> !InRanges(ranges, n) {
      EarlyStopLeavesNothingOut(store, fromBlock, toBlock + 1, stop, ranges, n);
    }
    complete := ranges == [];
    if !complete {
      assert InRanges(ranges, ranges[0].start);
    }
  }

  /** After a clean catch-up the marker goes to the remote tip and the anchor to that tip capped at
      the local head. The marker stays covered by the anchor exactly when the cap did not bite. */
  lemma CatchUpMarkerExactly(anchor: U64, marker: U64, remoteTip: U64, head: U64)
    requires marker <= anchor
    ensures Max(marker, remoteTip) <= NextReconAnchor(anchor, CapAnchorTarget(remoteTip, head)).0
            <==> remoteTip <= head || remoteTip <= anchor
  {}

  // ----- Handing blocks off -----

  datatype Ref = Ref(number: nat, hash: Hash)

  /** A stored block with a transaction that is not applied. */
  predicate HasPending(store: BlockStore, markers: MarkerDb, legacy: MarkerDb, n: nat) {
    n in store && exists t :: t in store[n].txs && !IsApplied(markers, legacy, t.hash)
  }

  /** The blocks of [lo, hi) with work outstanding, in ascending order. */
  function Refs(store: BlockStore, markers: MarkerDb, legacy: MarkerDb, lo: nat, hi: nat): seq<Ref>
    decreases hi - lo
  {
    if hi <= lo then []
    else Refs(store, markers, legacy, lo, hi - 1)
         + if HasPending(store, markers, legacy, hi - 1) then [Ref(hi - 1, store[hi - 1].hash)] else []
  }

  lemma {:induction false} RefsAreOutstanding(store: BlockStore, markers: MarkerDb, legacy: MarkerDb, lo: nat, hi: nat)
    ensures forall r :: r in Refs(store, markers, legacy, lo, hi) <==>
              lo <= r.number < hi && HasPending(store, markers, legacy, r.number) && r.hash == store[r.number].hash
    ensures NumbersAscend(Refs(store, markers, legacy, lo, hi))
    decreases hi - lo
  {
    if lo < hi {
      RefsAreOutstanding(store, markers, legacy, lo, hi - 1);
      AscendsOneMore(Refs(store, markers, legacy, lo, hi - 1), Refs(store, markers, legacy, lo, hi), hi - 1);
    }
  }

  ghost predicate NumbersAscend(refs: seq<Ref>) {
    forall i, j :: 0 <= i < j < |refs| ==> refs[i].number < refs[j].number
  }

  lemma AscendsOneMore(front: seq<Ref>, refs: seq<Ref>, n: nat)
    requires NumbersAscend(front) && forall r :: r in front ==> r.number < n
    requires refs == front || (|refs| == |front| + 1 && refs[..|front|] == front && refs[|front|].number == n)
    ensures NumbersAscend(refs)
  {
    forall i, j | 0 <= i < j < |refs| ensures refs[i].number < refs[j].number {
      assert refs[i] == front[i] && front[i] in front;
    }
  }

  /** `reconcileBlocksLocally`, up to the enqueue. */
  method ReconcileBlocksLocally(store: BlockStore, markers: MarkerDb, legacy: MarkerDb, fromBlock: nat, toBlock: nat)
    returns (refs: seq<Ref>)
    requires Numbered(store)
    ensures refs == Refs(store, markers, legacy, fromBlock, toBlock + 1)
  {
    var iter := new BlockIterator(store, fromBlock, toBlock, toBlock + 1);
    refs := [];
    var more := true;
    while more
      invariant fresh(iter) && iter.store == store && iter.end == toBlock
      invariant Progress(iter.current, iter.left, fromBlock, toBlock, toBlock + 1)
      invariant refs == Refs(store, markers, legacy, fromBlock, iter.current)
      invariant !more ==> iter.current > toBlock || iter.left == 0
      decreases more, iter.left
    {
      ghost var start := iter.current;
      var batch := iter.Next();
      more := batch != [];
      refs := RefsInBatch(batch, refs, store, markers, legacy, fromBlock, start);
    }
    assert iter.current > toBlock;
  }

  function BatchHashes(batch: seq<Option<Block>>): seq<Hash> {
    if batch == [] then []
    else
      var last := batch[|batch| - 1];
      BatchHashes(batch[..|batch| - 1]) + if last.Some? then Hashes(last.value.txs) else []
  }

  lemma {:induction false} BatchHashesCover(batch: seq<Option<Block>>, k: nat, t: Tx)
    requires k < |batch| && batch[k].Some? && t in batch[k].value.txs
    ensures t.hash in BatchHashes(batch)
  {
    var n := |batch| - 1;
    if k < n {
      BatchHashesCover(batch[..n], k, t);
    } else {
      var i :| 0 <= i < |batch[k].value.txs| && batch[k].value.txs[i] == t;
      assert Hashes(batch[k].value.txs)[i] == t.hash;
    }
  }

  /** One batch: a marker lookup for all its transactions, then block by block. */
  method RefsInBatch(batch: seq<Option<Block>>, refs0: seq<Ref>, ghost store: BlockStore, markers: MarkerDb,
                     legacy: MarkerDb,
                     ghost lo: nat, ghost start: nat)
    returns (refs: seq<Ref>)
    requires Numbered(store) && Shows(batch, store, start) && lo <= start
    requires refs0 == Refs(store, markers, legacy, lo, start)
    ensures refs == Refs(store, markers, legacy, lo, start + |batch|)
  {
    var applied := FilterProcessedTxMarkers(markers, legacy, BatchHashes(batch));
    refs := refs0;
    for k := 0 to |batch|
      invariant refs == Refs(store, markers, legacy, lo, start + k)
    {
      if batch[k].Some? {
        var blk := batch[k].value;
        forall t | t in blk.txs ensures t.hash in applied <==> IsApplied(markers, legacy, t.hash) {
          BatchHashesCover(batch, k, t);
        }
        if exists t :: t in blk.txs && t.hash !in applied {
          refs := refs + [Ref(blk.number, blk.hash)];
        }
      }
    }
  }
}

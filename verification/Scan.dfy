/** Catch-up scanning (FastsyncV2/catchup.go, DB_OPs/Nodeinfo/immudb_block_iterator.go): which
    blocks of a range must be fetched, found in one pass over the local store. */
module Scan {
  import opened Types

  type BlockStore = map<nat, Block>

  /** Every block is stored under its own number. */
  predicate Numbered(store: BlockStore) { forall n :: n in store ==> store[n].number == n }

  const CATCH_UP_BATCH: nat := 500

  // ----- The block iterator -----

  function BlockAt(store: BlockStore, n: nat): Option<Block> { if n in store then Some(store[n]) else None }

  /** Position `k` is block `from + k`, or None when the store has no such block. */
  ghost predicate Shows(batch: seq<Option<Block>>, store: BlockStore, from: nat) {
    forall k :: 0 <= k < |batch| ==> batch[k] == BlockAt(store, from + k)
  }

  /** `dbBlockIterator`. It ends at `end`, or earlier after `left` more windows. */
  class BlockIterator {
    const store: BlockStore
    const end: nat
    var current: nat
    var left: nat

    constructor (s: BlockStore, from: nat, to: nat, windows: nat)
      ensures store == s && end == to && current == from && left == windows
    {
      store, end, current, left := s, to, from, windows;
    }

    method Next() returns (batch: seq<Option<Block>>)
      modifies this
      ensures batch == [] <==> old(current) > end || old(left) == 0
      ensures Shows(batch, store, old(current)) && current == old(current) + |batch|
      ensures batch != [] ==> left == old(left) - 1 && current <= end + 1
      ensures batch != [] ==>
                |batch| == if end + 1 - old(current) < CATCH_UP_BATCH then end + 1 - old(current) else CATCH_UP_BATCH
      ensures batch == [] ==> left == old(left)
    {
      if current > end || left == 0 {
        return [];
      }
      var batchEnd := if current + CATCH_UP_BATCH - 1 > end then end else current + CATCH_UP_BATCH - 1;
      var first := current;
      batch := seq(batchEnd - first + 1, k requires 0 <= k => BlockAt(store, first + k));
      current, left := batchEnd + 1, left - 1;
    }
  }

  /** The last block of a window as the node computes it in uint64. */
  function WindowEnd(current: U64, end: U64): U64 {
    var last := (current + CATCH_UP_BATCH - 1) % (MAX_U64 + 1);
    if last > end then end else last
  }

  /** It is the intended one, and the block after it has a number. */
  predicate RightWindow(current: U64, end: U64) {
    && WindowEnd(current, end) == (if current + CATCH_UP_BATCH - 1 > end then end else current + CATCH_UP_BATCH - 1)
    && WindowEnd(current, end) < MAX_U64
  }

  /** Every window of a scan is the intended one exactly if the scan ends at least a window below
      2^64. Further up the sum wraps and the scan does not get past the top. */
  lemma WindowsExactly(from: U64, end: U64)
    requires from <= end
    ensures (forall current: U64 :: from <= current <= end ==> RightWindow(current, end)) <==>
            end <= MAX_U64 - CATCH_UP_BATCH + 1
  {
    if end > MAX_U64 - CATCH_UP_BATCH + 1 {
      assert !RightWindow(end, end);
    }
  }

  // ----- Ranges -----

  datatype Range = Range(start: nat, end: nat)

  ghost predicate InRanges(rs: seq<Range>, n: nat) {
    exists i :: 0 <= i < |rs| && rs[i].start <= n <= rs[i].end
  }

  /** `rs` lists exactly the numbers of [lo, hi) that satisfy `want`: ascending, disjoint, and
      never two ranges where one would do. */
  ghost predicate Exact(rs: seq<Range>, lo: nat, hi: nat, want: nat -> bool) {
    && (forall i :: 0 <= i < |rs| ==> lo <= rs[i].start <= rs[i].end < hi)
    && (forall i, j :: 0 <= i < j < |rs| ==> rs[i].end + 1 < rs[j].start)
    && (forall n :: lo <= n < hi ==> (InRanges(rs, n) <==> want(n)))
  }

  /** A range that starts at `hi` cannot touch an earlier one. */
  ghost predicate Fenced(lo: nat, hi: nat, want: nat -> bool) { lo < hi ==> !want(hi - 1) }

  lemma NoRanges(lo: nat, want: nat -> bool)
    ensures Exact([], lo, lo, want) && Fenced(lo, lo, want)
  {}

  lemma Skip(rs: seq<Range>, lo: nat, s: nat, t: nat, want: nat -> bool)
    requires Exact(rs, lo, s, want) && lo <= s <= t && forall n :: s <= n < t ==> !want(n)
    ensures Exact(rs, lo, t, want)
  {
    forall n | lo <= n < t ensures InRanges(rs, n) <==> want(n) {
      assert s <= n ==> !InRanges(rs, n);
    }
  }

  lemma Add(rs: seq<Range>, lo: nat, s: nat, t: nat, want: nat -> bool)
    requires Exact(rs, lo, s, want) && Fenced(lo, s, want) && lo <= s < t && forall n :: s <= n < t ==> want(n)
    ensures Exact(rs + [Range(s, t - 1)], lo, t, want)
  {
    var out := rs + [Range(s, t - 1)];
    forall i | 0 <= i < |rs| ensures rs[i].end + 1 < s {
      assert InRanges(rs, rs[i].end);
    }
    forall n | lo <= n < t ensures InRanges(out, n) <==> want(n) {
      if s <= n {
        assert out[|rs|].start <= n <= out[|rs|].end;
      } else {
        Kept(rs, Range(s, t - 1), n);
      }
    }
  }

  lemma Kept(rs: seq<Range>, r: Range, n: nat)
    requires n < r.start
    ensures InRanges(rs + [r], n) <==> InRanges(rs, n)
  {
    var out := rs + [r];
    if InRanges(rs, n) {
      var i :| 0 <= i < |rs| && rs[i].start <= n <= rs[i].end;
      assert out[i] == rs[i];
    }
  }

  /** No listed range could be longer. */
  lemma Maximal(rs: seq<Range>, lo: nat, hi: nat, want: nat -> bool, i: nat)
    requires Exact(rs, lo, hi, want) && i < |rs|
    ensures rs[i].start == lo || !want(rs[i].start - 1)
    ensures rs[i].end == hi - 1 || !want(rs[i].end + 1)
  {
    assert rs[i].start > lo ==> !InRanges(rs, rs[i].start - 1);
    assert !InRanges(rs, rs[i].end + 1);
  }

  // ----- Missing headers -----

  function Absent(store: BlockStore): nat -> bool { (n: nat) => n !in store }

  /** Where the scan stands: everything below `cursor` is settled, and [cursor, p) is a gap
      whose end has not been seen. */
  ghost predicate Gaps(store: BlockStore, lo: nat, cursor: nat, p: nat, rs: seq<Range>) {
    && lo <= cursor <= p && Exact(rs, lo, cursor, Absent(store)) && Fenced(lo, cursor, Absent(store))
    && forall n :: cursor <= n < p ==> n !in store
  }

  /** A block at `b` ends the gap that starts at `cursor`, if there is one. */
  function AddGap(rs: seq<Range>, cursor: nat, b: nat): seq<Range> {
    if b > cursor then rs + [Range(cursor, b - 1)] else rs
  }

  lemma GapsAbsent(store: BlockStore, lo: nat, cursor: nat, p: nat, rs: seq<Range>)
    requires Gaps(store, lo, cursor, p, rs) && p !in store
    ensures Gaps(store, lo, cursor, p + 1, rs)
  {}

  lemma GapsPresent(store: BlockStore, lo: nat, cursor: nat, p: nat, rs: seq<Range>)
    requires Gaps(store, lo, cursor, p, rs) && p in store
    ensures Gaps(store, lo, p + 1, p + 1, AddGap(rs, cursor, p))
  {
    if p > cursor {
      Add(rs, lo, cursor, p, Absent(store));
      Skip(rs + [Range(cursor, p - 1)], lo, p, p + 1, Absent(store));
    } else {
      Skip(rs, lo, p, p + 1, Absent(store));
    }
  }

  /** The blocks an iterator that stopped before `stop` got to see. */
  function Seen(store: BlockStore, stop: nat): BlockStore { map n | n in store && n < stop :: store[n] }

  /** The scan of [from, tip] ended at `stop`: at the tip, unless the windows ran out. */
  predicate Stopped(from: nat, tip: nat, windows: nat, stop: nat) {
    from <= stop <= tip + 1 && (stop == tip + 1 || stop == from + CATCH_UP_BATCH * windows)
  }

  /** Listed as missing are exactly the blocks that are not stored, and those the scan did not reach. */
  lemma MissingExactly(store: BlockStore, lo: nat, hi: nat, stop: nat, rs: seq<Range>, n: nat)
    requires Exact(rs, lo, hi, Absent(Seen(store, stop))) && lo <= n < hi
    ensures InRanges(rs, n) <==> n !in store || n >= stop
  {
    assert InRanges(rs, n) <==> Absent(Seen(store, stop))(n);
  }

  /** `buildMissingTag`: the absent blocks of [fromBlock, remoteTip]. Blocks the iterator did not
      reach count as absent. */
  method BuildMissingTag(store: BlockStore, fromBlock: nat, remoteTip: nat, windows: nat)
    returns (ranges: seq<Range>, ghost stop: nat)
    requires Numbered(store)
    ensures fromBlock > remoteTip ==> ranges == []
    ensures fromBlock <= remoteTip ==> Stopped(fromBlock, remoteTip, windows, stop)
                                       && Exact(ranges, fromBlock, remoteTip + 1, Absent(Seen(store, stop)))
  {
    var iter := new BlockIterator(store, fromBlock, remoteTip, windows);
    ranges, stop := [], fromBlock;
    var cursor: nat := fromBlock;
    NoRanges(fromBlock, Absent(store));
    var more := true;
    while more
      invariant fresh(iter) && iter.store == store && iter.end == remoteTip
      invariant Progress(iter.current, iter.left, fromBlock, remoteTip, windows)
      invariant Gaps(store, fromBlock, cursor, iter.current, ranges)
      invariant fromBlock > remoteTip ==> ranges == [] && cursor == fromBlock
      invariant !more ==> iter.current > remoteTip || iter.left == 0
      decreases more, iter.left
    {
      ghost var start := iter.current;
      var batch := iter.Next();
      more := batch != [];
      cursor, ranges := GapsInBatch(batch, cursor, ranges, store, fromBlock, start);
    }
    stop := iter.current;
    if cursor <= remoteTip {
      GapsEnd(store, fromBlock, cursor, stop, remoteTip, ranges);
      ranges := ranges + [Range(cursor, remoteTip)];
    } else if fromBlock <= remoteTip {
      SeenExact(store, fromBlock, cursor, stop, ranges);
    }
  }

  /** Full windows so far, or the tip reached. */
  predicate Progress(current: nat, left: nat, from: nat, tip: nat, windows: nat) {
    && left <= windows && from <= current
    && (current == from + CATCH_UP_BATCH * (windows - left) || current == tip + 1)
    && (from <= tip ==> current <= tip + 1) && (from > tip ==> current == from)
  }

  lemma SeenExact(store: BlockStore, lo: nat, cursor: nat, stop: nat, rs: seq<Range>)
    requires Exact(rs, lo, cursor, Absent(store)) && cursor <= stop
    ensures Exact(rs, lo, cursor, Absent(Seen(store, stop)))
  {
    forall n | lo <= n < cursor ensures InRanges(rs, n) <==> Absent(Seen(store, stop))(n) {
      assert Absent(store)(n) == Absent(Seen(store, stop))(n);
    }
  }

  lemma GapsEnd(store: BlockStore, lo: nat, cursor: nat, stop: nat, tip: nat, rs: seq<Range>)
    requires Gaps(store, lo, cursor, stop, rs) && cursor <= tip
    ensures Exact(rs + [Range(cursor, tip)], lo, tip + 1, Absent(Seen(store, stop)))
  {
    var want := Absent(Seen(store, stop));
    SeenExact(store, lo, cursor, stop, rs);
    assert lo < cursor ==> !want(cursor - 1);
    Add(rs, lo, cursor, tip + 1, want);
  }

  /** One batch of that scan. */
  method GapsInBatch(batch: seq<Option<Block>>, cursor0: nat, ranges0: seq<Range>,
                     ghost store: BlockStore, ghost lo: nat, ghost start: nat)
    returns (cursor: nat, ranges: seq<Range>)
    requires Numbered(store) && Shows(batch, store, start) && Gaps(store, lo, cursor0, start, ranges0)
    ensures Gaps(store, lo, cursor, start + |batch|, ranges)
    ensures batch == [] ==> cursor == cursor0 && ranges == ranges0
  {
    cursor, ranges := cursor0, ranges0;
    for k := 0 to |batch|
      invariant Gaps(store, lo, cursor, start + k, ranges)
      invariant k == 0 ==> cursor == cursor0 && ranges == ranges0
    {
      cursor, ranges := GapsAt(batch[k], cursor, ranges, store, lo, start + k);
    }
  }

  /** The body of that scan. */
  method GapsAt(slot: Option<Block>, cursor0: nat, ranges0: seq<Range>, ghost store: BlockStore, ghost lo: nat,
                ghost p: nat)
    returns (cursor: nat, ranges: seq<Range>)
    requires Numbered(store) && slot == BlockAt(store, p) && Gaps(store, lo, cursor0, p, ranges0)
    ensures Gaps(store, lo, cursor, p + 1, ranges)
  {
    if slot.None? {
      GapsAbsent(store, lo, cursor0, p, ranges0);
      return cursor0, ranges0;
    }
    var b: nat := slot.value.number;
    GapsPresent(store, lo, cursor0, p, ranges0);
    return b + 1, AddGap(ranges0, cursor0, b);
  }

  // ----- Missing data -----

  datatype Kind = IsAbsent | NoProof | GasNoTx | Complete

  /** What the scan finds at number `n`. */
  function KindAt(store: BlockStore, n: nat): Kind {
    if n !in store then IsAbsent
    else if |store[n].starkProof| == 0 then NoProof
    else if store[n].gasUsed > 0 && |store[n].txs| == 0 then GasNoTx
    else Complete
  }

  /** `blockNeedsDataSync`: false exactly for complete blocks. */
  predicate BlockNeedsDataSync(blk: Block) {
    |blk.starkProof| == 0 || (blk.gasUsed > 0 && |blk.txs| == 0)
  }

  function NeedsData(store: BlockStore): nat -> bool { (n: nat) => n !in store || BlockNeedsDataSync(store[n]) }

  /** Stored with a proof, and with transactions if it used gas. */
  predicate Whole(store: BlockStore, n: nat) {
    n in store && |store[n].starkProof| > 0 && (store[n].gasUsed == 0 || |store[n].txs| > 0)
  }

  /** What the scan makes of a block, on the block's own fields. */
  lemma KindExactly(store: BlockStore, n: nat)
    ensures NeedsData(store)(n) <==> !Whole(store, n)
    ensures KindAt(store, n) == Complete <==> Whole(store, n)
    ensures KindAt(store, n) == IsAbsent <==> n !in store
    ensures KindAt(store, n) == NoProof <==> n in store && |store[n].starkProof| == 0
    ensures KindAt(store, n) == GasNoTx <==>
            n in store && |store[n].starkProof| > 0 && store[n].gasUsed > 0 && |store[n].txs| == 0
  {}

  /** How many numbers of [lo, hi) are of one kind. */
  function Tally(store: BlockStore, kind: Kind, lo: nat, hi: nat): nat
    decreases hi - lo
  {
    if hi <= lo then 0 else Tally(store, kind, lo, hi - 1) + (if KindAt(store, hi - 1) == kind then 1 else 0)
  }

  datatype Counters = Counters(absent: nat, noProof: nat, gasNoTx: nat, complete: nat)

  ghost predicate Counted(store: BlockStore, lo: nat, hi: nat, c: Counters) {
    && c.absent == Tally(store, IsAbsent, lo, hi) && c.noProof == Tally(store, NoProof, lo, hi)
    && c.gasNoTx == Tally(store, GasNoTx, lo, hi) && c.complete == Tally(store, Complete, lo, hi)
  }

  /** Every number of the range is counted once. */
  lemma {:induction false} CountersSum(store: BlockStore, lo: nat, hi: nat, c: Counters)
    requires lo <= hi && Counted(store, lo, hi, c)
    ensures c.absent + c.noProof + c.gasNoTx + c.complete == hi - lo
    decreases hi - lo
  {
    if lo < hi {
      CountersSum(store, lo, hi - 1, Counters(Tally(store, IsAbsent, lo, hi - 1), Tally(store, NoProof, lo, hi - 1),
                                              Tally(store, GasNoTx, lo, hi - 1), Tally(store, Complete, lo, hi - 1)));
    }
  }

  lemma {:induction false} CountAbsent(store: BlockStore, lo: nat, cursor: nat, p: nat, c: Counters)
    requires lo <= cursor <= p && Counted(store, lo, cursor, c) && forall n :: cursor <= n < p ==> n !in store
    ensures Counted(store, lo, p, c.(absent := c.absent + (p - cursor)))
    decreases p - cursor
  {
    if cursor < p {
      CountAbsent(store, lo, cursor, p - 1, c);
    }
  }

  datatype Run = Run(cursor: nat, open: Option<nat>, ranges: seq<Range>, counters: Counters)

  predicate OpenBelow(r: Run) { r.open.Some? ==> r.open.value < r.cursor }

  /** The start of the part that is not settled yet. */
  function Edge(r: Run): nat { if r.open.Some? then r.open.value else r.cursor }

  ghost predicate Runs(store: BlockStore, lo: nat, p: nat, r: Run) {
    var want := NeedsData(store);
    && lo <= Edge(r) <= r.cursor <= p
    && Exact(r.ranges, lo, Edge(r), want) && Fenced(lo, Edge(r), want)
    && (forall n :: Edge(r) <= n < r.cursor ==> want(n))
    && (forall n :: r.cursor <= n < p ==> n !in store)
    && Counted(store, lo, r.cursor, r.counters)
  }

  /** Absent blocks up to `p` start a run or extend the open one. */
  function AddAbsent(r: Run, p: nat): Run
    requires r.cursor <= p
  {
    if p == r.cursor then r
    else Run(p, Some(Edge(r)), r.ranges, r.counters.(absent := r.counters.absent + (p - r.cursor)))
  }

  lemma AbsentRuns(store: BlockStore, lo: nat, p: nat, r: Run)
    requires Runs(store, lo, p, r)
    ensures Runs(store, lo, p, AddAbsent(r, p)) && AddAbsent(r, p).cursor == p
  {
    CountAbsent(store, lo, r.cursor, p, r.counters);
  }

  function Count(c: Counters, k: Kind): Counters {
    match k
    case IsAbsent => c.(absent := c.absent + 1)
    case NoProof => c.(noProof := c.noProof + 1)
    case GasNoTx => c.(gasNoTx := c.gasNoTx + 1)
    case Complete => c.(complete := c.complete + 1)
  }

  /** Closing the open run just before `hi`. */
  function Close(r: Run): seq<Range>
    requires OpenBelow(r)
  {
    if r.open.Some? then r.ranges + [Range(r.open.value, r.cursor - 1)] else r.ranges
  }

  lemma Closed(store: BlockStore, lo: nat, r: Run)
    requires Runs(store, lo, r.cursor, r) && OpenBelow(r)
    ensures Exact(Close(r), lo, r.cursor, NeedsData(store))
  {
    if r.open.Some? {
      Add(r.ranges, lo, r.open.value, r.cursor, NeedsData(store));
    }
  }

  /** The block at the cursor extends the run or closes it. */
  function AddPresent(r: Run, k: Kind): Run
    requires OpenBelow(r)
  {
    var next := r.cursor + 1;
    if k == Complete then Run(next, None, Close(r), Count(r.counters, k))
    else Run(next, Some(Edge(r)), r.ranges, Count(r.counters, k))
  }

  lemma PresentRuns(store: BlockStore, lo: nat, r: Run)
    requires Runs(store, lo, r.cursor, r) && r.cursor in store && OpenBelow(r)
    ensures Runs(store, lo, r.cursor + 1, AddPresent(r, KindAt(store, r.cursor)))
  {
    if KindAt(store, r.cursor) == Complete {
      Closed(store, lo, r);
      Skip(Close(r), lo, r.cursor, r.cursor + 1, NeedsData(store));
    }
  }

  /** `buildDataMissingTag`: the absent or incomplete blocks of [fromBlock, remoteTip], and how
      many blocks of each kind the scan met. */
  method BuildDataMissingTag(store: BlockStore, fromBlock: nat, remoteTip: nat, windows: nat)
    returns (ranges: seq<Range>, counters: Counters, ghost stop: nat)
    requires Numbered(store)
    ensures fromBlock > remoteTip ==> ranges == [] && counters == Counters(0, 0, 0, 0)
    ensures fromBlock <= remoteTip ==> Stopped(fromBlock, remoteTip, windows, stop)
                                       && Exact(ranges, fromBlock, remoteTip + 1, NeedsData(Seen(store, stop)))
                                       && Counted(Seen(store, stop), fromBlock, remoteTip + 1, counters)
  {
    var iter := new BlockIterator(store, fromBlock, remoteTip, windows);
    var r := Run(fromBlock, None, [], Counters(0, 0, 0, 0));
    NoRanges(fromBlock, NeedsData(store));
    var more := true;
    while more
      invariant fresh(iter) && iter.store == store && iter.end == remoteTip
      invariant Progress(iter.current, iter.left, fromBlock, remoteTip, windows)
      invariant Runs(store, fromBlock, iter.current, r) && OpenBelow(r)
      invariant fromBlock > remoteTip ==> r == Run(fromBlock, None, [], Counters(0, 0, 0, 0))
      invariant !more ==> iter.current > remoteTip || iter.left == 0
      decreases more, iter.left
    {
      ghost var start := iter.current;
      var batch := iter.Next();
      more := batch != [];
      r := RunsInBatch(batch, r, store, fromBlock, start);
    }
    stop := iter.current;
    if fromBlock <= remoteTip {
      RunsEnd(store, fromBlock, stop, remoteTip, r);
      r := AddAbsent(r, remoteTip + 1);
    }
    ranges, counters := Close(r), r.counters;
  }

  /** One batch of that scan. */
  method RunsInBatch(batch: seq<Option<Block>>, r0: Run, ghost store: BlockStore, ghost lo: nat, ghost start: nat)
    returns (r: Run)
    requires Numbered(store) && Shows(batch, store, start) && Runs(store, lo, start, r0) && OpenBelow(r0)
    ensures Runs(store, lo, start + |batch|, r) && OpenBelow(r)
    ensures batch == [] ==> r == r0
  {
    r := r0;
    for k := 0 to |batch|
      invariant Runs(store, lo, start + k, r) && OpenBelow(r)
      invariant k == 0 ==> r == r0
    {
      r := RunsAt(batch[k], r, store, lo, start + k);
    }
  }

  method RunsAt(slot: Option<Block>, r0: Run, ghost store: BlockStore, ghost lo: nat, ghost p: nat) returns (r: Run)
    requires Numbered(store) && slot == BlockAt(store, p) && Runs(store, lo, p, r0) && OpenBelow(r0)
    ensures Runs(store, lo, p + 1, r) && OpenBelow(r)
  {
    if slot.None? {
      NoBlockRuns(store, lo, p, r0);
      return r0;
    }
    BlockRuns(store, lo, p, r0);
    r := ScanBlock(slot.value, r0, store);
  }

  lemma NoBlockRuns(store: BlockStore, lo: nat, p: nat, r: Run)
    requires Runs(store, lo, p, r) && p !in store
    ensures Runs(store, lo, p + 1, r)
  {}

  lemma BlockRuns(store: BlockStore, lo: nat, p: nat, r: Run)
    requires Runs(store, lo, p, r) && p in store && OpenBelow(r)
    ensures Runs(store, lo, p + 1, AddPresent(AddAbsent(r, p), KindAt(store, p)))
  {
    AbsentRuns(store, lo, p, r);
    PresentRuns(store, lo, AddAbsent(r, p));
  }

  /** The body of that scan: absent blocks first, then the block itself. */
  method ScanBlock(blk: Block, r0: Run, ghost store: BlockStore) returns (r: Run)
    requires r0.cursor <= blk.number && OpenBelow(r0) && BlockAt(store, blk.number) == Some(blk)
    ensures r == AddPresent(AddAbsent(r0, blk.number), KindAt(store, blk.number)) && OpenBelow(r)
  {
    var b := blk.number;
    var ranges, open, c := r0.ranges, r0.open, r0.counters;
    if b > r0.cursor {
      c := c.(absent := c.absent + (b - r0.cursor));
      if open.None? {
        open := Some(r0.cursor);
      }
    }
    if |blk.starkProof| == 0 {
      c := c.(noProof := c.noProof + 1);
    } else if blk.gasUsed > 0 && |blk.txs| == 0 {
      c := c.(gasNoTx := c.gasNoTx + 1);
    } else {
      c := c.(complete := c.complete + 1);
    }
    if BlockNeedsDataSync(blk) {
      if open.None? {
        open := Some(b);
      }
    } else if open.Some? {
      ranges := ranges + [Range(open.value, b - 1)];
      open := None;
    }
    r := Run(b + 1, open, ranges, c);
  }

  /** What was not reached reads as absent. */
  lemma SeenRuns(store: BlockStore, lo: nat, stop: nat, tip: nat, r: Run)
    requires Runs(store, lo, stop, r) && stop <= tip + 1
    ensures Runs(Seen(store, stop), lo, tip + 1, AddAbsent(r, tip + 1))
  {
    var seen := Seen(store, stop);
    SeenNeeds(store, lo, stop, r);
    SeenCounted(store, lo, r.cursor, stop, r.counters);
    AbsentRuns(seen, lo, tip + 1, r);
  }

  lemma RunsEnd(store: BlockStore, lo: nat, stop: nat, tip: nat, r: Run)
    requires Runs(store, lo, stop, r) && stop <= tip + 1 && OpenBelow(r)
    ensures var end := AddAbsent(r, tip + 1);
            && OpenBelow(end)
            && Exact(Close(end), lo, tip + 1, NeedsData(Seen(store, stop)))
            && Counted(Seen(store, stop), lo, tip + 1, end.counters)
  {
    SeenRuns(store, lo, stop, tip, r);
    Closed(Seen(store, stop), lo, AddAbsent(r, tip + 1));
  }

  lemma SeenNeeds(store: BlockStore, lo: nat, stop: nat, r: Run)
    requires Runs(store, lo, stop, r)
    ensures var want := NeedsData(Seen(store, stop));
            && Exact(r.ranges, lo, Edge(r), want) && Fenced(lo, Edge(r), want)
            && (forall n :: Edge(r) <= n < r.cursor ==> want(n))
            && (forall n :: r.cursor <= n ==> n !in Seen(store, stop))
  {
    var seen := Seen(store, stop);
    assert forall n: nat :: n < stop ==> NeedsData(seen)(n) == NeedsData(store)(n);
  }

  lemma {:induction false} SeenCounted(store: BlockStore, lo: nat, hi: nat, stop: nat, c: Counters)
    requires hi <= stop
    requires Counted(store, lo, hi, c)
    ensures Counted(Seen(store, stop), lo, hi, c)
  {
    forall k: Kind ensures Tally(Seen(store, stop), k, lo, hi) == Tally(store, k, lo, hi) {
      SeenTally(store, k, lo, hi, stop);
    }
  }

  lemma {:induction false} SeenTally(store: BlockStore, k: Kind, lo: nat, hi: nat, stop: nat)
    requires hi <= stop
    ensures Tally(Seen(store, stop), k, lo, hi) == Tally(store, k, lo, hi)
    decreases hi - lo
  {
    if lo < hi {
      SeenTally(store, k, lo, hi - 1, stop);
    }
  }

  /** Seeing fewer blocks never leaves a missing one out. */
  lemma EarlyStopLeavesNothingOut(store: BlockStore, lo: nat, hi: nat, stop: nat, rs: seq<Range>, n: nat)
    requires Exact(rs, lo, hi, NeedsData(Seen(store, stop))) && lo <= n < hi
    ensures InRanges(rs, n) <==> n >= stop || !Whole(store, n)
  {
    KindExactly(store, n);
    KindExactly(Seen(store, stop), n);
  }
}

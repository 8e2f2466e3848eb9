/** Cursor pagination over the accounts (DB_OPs/account_immuclient.go) and the state fingerprint
    built on it (DB_OPs/state_fingerprint.go). */
module Pagination {
  import opened Types
  import opened Sums
  import opened Ledger
  import opened Deltas
  import opened Markers
  import opened LedgerRuns
  import opened LedgerAgreement

  /** One key of the account range, in ascending key order; None does not decode. */
  datatype Stored = Stored(key: nat, value: Option<Account>)

  ghost predicate Sorted(rows: seq<Stored>) { forall i, j :: 0 <= i < j < |rows| ==> rows[i].key < rows[j].key }

  const INTERNAL_BATCH: nat := 1000
  const PAGE_SIZE: nat := 1000

  predicate Accepts(r: Stored, prefix: string) { r.value.Some? && prefix <= r.value.value.did }

  /** The rows a listing returns, from a stretch of the key range. */
  function Pick(rows: seq<Stored>, prefix: string): seq<Stored> {
    if rows == [] then []
    else Pick(rows[..|rows| - 1], prefix) + if Accepts(rows[|rows| - 1], prefix) then [rows[|rows| - 1]] else []
  }

  /** A listing returns, in key order, exactly the rows that decode and whose DID starts with the prefix. */
  lemma {:induction false} PickExactly(rows: seq<Stored>, prefix: string)
    requires Sorted(rows)
    ensures forall r :: r in Pick(rows, prefix) <==> r in rows && r.value.Some? && prefix <= r.value.value.did
    ensures Sorted(Pick(rows, prefix))
  {
    if rows != [] {
      var front, last := rows[..|rows| - 1], rows[|rows| - 1];
      PickExactly(front, prefix);
      assert forall r :: r in rows <==> r in front || r == last;
      var picked := Pick(front, prefix);
      forall i | 0 <= i < |picked| ensures picked[i].key < last.key {
        assert picked[i] in picked;
      }
    }
  }

  /** How many rows lie before the cursor, or up to and including it. */
  function Before(rows: seq<Stored>, seek: Option<nat>, including: bool): (p: nat)
    ensures p <= |rows|
  {
    if rows == [] || seek.None? then 0
    else if (if including then rows[0].key <= seek.value else rows[0].key < seek.value)
    then 1 + Before(rows[1..], seek, including)
    else 0
  }

  lemma {:induction false} BeforeSplits(rows: seq<Stored>, k: nat, including: bool)
    requires Sorted(rows)
    ensures var p := Before(rows, Some(k), including);
            forall i :: 0 <= i < |rows| ==> (i < p <==> if including then rows[i].key <= k else rows[i].key < k)
  {
    if rows != [] {
      BeforeSplits(rows[1..], k, including);
      assert forall i :: 1 <= i < |rows| ==> rows[i] == rows[1..][i - 1] && rows[0].key < rows[i].key;
    }
  }

  /** Row `p - 1` as a cursor: everything up to it lies behind. */
  lemma CursorAt(rows: seq<Stored>, p: nat)
    requires Sorted(rows) && 0 < p <= |rows|
    ensures Before(rows, Some(rows[p - 1].key), true) == p
    ensures Before(rows, Some(rows[p - 1].key), false) == p - 1
  {
    var k := rows[p - 1].key;
    BeforeSplits(rows, k, true);
    BeforeSplits(rows, k, false);
    var q := Before(rows, Some(k), false);
    assert p >= 2 ==> rows[p - 2].key < k;
    var r := Before(rows, Some(k), true);
    assert r < |rows| ==> rows[r].key > k;
    assert p < |rows| ==> rows[p].key > k;
  }

  /** The server's ascending scan. Whether the seek key itself is returned varies. */
  function Scan(rows: seq<Stored>, seek: Option<nat>, inclusive: bool): (r: seq<Stored>) {
    var start := Before(rows, seek, !inclusive);
    rows[start..if start + INTERNAL_BATCH > |rows| then |rows| else start + INTERNAL_BATCH]
  }

  /** A seek behind `p` rows: the scan returns rows `p..`, with row `p - 1` first if it is the
      seek key and seeking is inclusive. */
  ghost predicate Behind(rows: seq<Stored>, seek: Option<nat>, p: nat) {
    p == Before(rows, seek, true)
  }

  lemma ScanBehind(rows: seq<Stored>, seek: Option<nat>, inclusive: bool, p: nat)
    requires Sorted(rows) && Behind(rows, seek, p)
    ensures var r := Scan(rows, seek, inclusive);
            var skip := if seek.Some? && r != [] && r[0].key == seek.value then 1 else 0;
            && skip <= p && p - skip + |r| <= |rows| && r == rows[p - skip..p - skip + |r|]
            && (|r| < INTERNAL_BATCH ==> p - skip + |r| == |rows|) && |r| <= INTERNAL_BATCH
  {
    if seek.Some? {
      Adjacent(rows, seek.value);
    }
  }

  /** At most one row carries the cursor's key, and it is the last one behind it. */
  lemma Adjacent(rows: seq<Stored>, k: nat)
    requires Sorted(rows)
    ensures var p, q := Before(rows, Some(k), true), Before(rows, Some(k), false);
            if q < |rows| && rows[q].key == k then p == q + 1 else p == q
    ensures Before(rows, Some(k), true) < |rows| ==> rows[Before(rows, Some(k), true)].key != k
  {
    BeforeSplits(rows, k, true);
    BeforeSplits(rows, k, false);
    var p, q := Before(rows, Some(k), true), Before(rows, Some(k), false);
    assert q < |rows| ==> rows[q].key >= k;
    assert q + 1 < |rows| ==> rows[q].key < rows[q + 1].key;
    assert p < |rows| ==> rows[p].key > k;
  }

  lemma PickSnoc(rows: seq<Stored>, p: nat, q: nat, prefix: string)
    requires p <= q < |rows|
    ensures Pick(rows[p..q + 1], prefix)
            == Pick(rows[p..q], prefix) + if Accepts(rows[q], prefix) then [rows[q]] else []
  {
    assert rows[p..q + 1][..q - p] == rows[p..q];
  }

  lemma {:induction false} PickConcat(rows: seq<Stored>, p: nat, q: nat, r: nat, prefix: string)
    requires p <= q <= r <= |rows|
    ensures Pick(rows[p..r], prefix) == Pick(rows[p..q], prefix) + Pick(rows[q..r], prefix)
    decreases r
  {
    if q == r {
      assert rows[q..r] == [];
    } else {
      PickConcat(rows, p, q, r - 1, prefix);
      PickSnoc(rows, p, r - 1, prefix);
      PickSnoc(rows, q, r - 1, prefix);
      Reassociate(Pick(rows[p..q], prefix), Pick(rows[q..r - 1], prefix),
                  if Accepts(rows[r - 1], prefix) then [rows[r - 1]] else []);
    }
  }

  /** A page taken from the rows behind `p`: the accepted rows of rows[p..q], at most `limit`, and
      everything there is if fewer; a full page ends right at its last row. */
  ghost predicate Page(rows: seq<Stored>, p: nat, q: nat, limit: nat, prefix: string, page: seq<Stored>) {
    && p <= q <= |rows| && page == Pick(rows[p..q], prefix) && |page| <= limit
    && (|page| == limit > 0 ==> p < q && Accepts(rows[q - 1], prefix) && page[|page| - 1] == rows[q - 1])
  }

  /** `ListAccountsPaginatedFrom`. The rows of the page are returned with their keys; the cursor is
      the key of the last one. */
  method ListAccountsPaginatedFrom(rows: seq<Stored>, limit: nat, seek: Option<nat>, prefix: string, inclusive: bool)
    returns (page: seq<Stored>, last: Option<nat>, ghost q: nat)
    requires Sorted(rows)
    ensures Page(rows, Before(rows, seek, true), q, limit, prefix, page)
    ensures 0 < limit && |page| < limit ==> q == |rows|
    ensures last == if page == [] then None else Some(page[|page| - 1].key)
  {
    ghost var p := Before(rows, seek, true);
    page, last, q := [], None, p;
    assert rows[p..p] == [];
    var current := seek;
    var more := limit > 0;
    while more
      invariant Page(rows, p, q, limit, prefix, page)
      invariant more ==> |page| < limit && Behind(rows, current, q)
      invariant !more ==> |page| == limit || q == |rows|
      invariant last == if page == [] then None else Some(page[|page| - 1].key)
      decreases more, |rows| - q
    {
      more, current, page, last, q := TakeScan(rows, limit, current, prefix, inclusive, page, last, p, q);
    }
  }

  /** One scan and how many of its rows lie behind the cursor. */
  method FetchScan(rows: seq<Stored>, seek: Option<nat>, inclusive: bool, ghost p: nat)
    returns (entries: seq<Stored>, start: nat)
    requires Sorted(rows) && Behind(rows, seek, p)
    ensures start <= 1 && start <= |entries| <= INTERNAL_BATCH && start <= p && Window(rows, p - start, entries)
    ensures |entries| < INTERNAL_BATCH ==> p - start + |entries| == |rows|
  {
    ScanBehind(rows, seek, inclusive, p);
    entries := Scan(rows, seek, inclusive);
    start := if seek.Some? && entries != [] && entries[0].key == seek.value then 1 else 0;
    SliceIsWindow(rows, p - start, entries);
  }

  /** One scan request and the rows taken from it. */
  method TakeScan(rows: seq<Stored>, limit: nat, seek: Option<nat>, prefix: string, inclusive: bool,
                  page0: seq<Stored>, last0: Option<nat>, ghost p: nat, ghost q0: nat)
    returns (more: bool, current: Option<nat>, page: seq<Stored>, last: Option<nat>, ghost q: nat)
    requires Sorted(rows) && Behind(rows, seek, q0)
    requires Page(rows, p, q0, limit, prefix, page0) && |page0| < limit
    requires last0 == if page0 == [] then None else Some(page0[|page0| - 1].key)
    ensures Page(rows, p, q, limit, prefix, page)
    ensures last == if page == [] then None else Some(page[|page| - 1].key)
    ensures more ==> |page| < limit && Behind(rows, current, q) && q0 < q
    ensures !more ==> |page| == limit || q == |rows|
  {
    more, current, page, last, q := false, seek, page0, last0, q0;
    var entries, start := FetchScan(rows, seek, inclusive, q0);
    if |entries| > 0 {
      page, last, q := TakeRows(entries, start, limit, prefix, page, last, rows, p, q);
      if |page| < limit && |entries| >= INTERNAL_BATCH {
        more, current := true, Some(entries[|entries| - 1].key);
        CursorAt(rows, q);
      }
    }
  }

  /** The inner loop over one scan. */
  method TakeRows(entries: seq<Stored>, start: nat, limit: nat, prefix: string, page0: seq<Stored>, last0: Option<nat>,
                  ghost rows: seq<Stored>, ghost p: nat, ghost q0: nat)
    returns (page: seq<Stored>, last: Option<nat>, ghost q: nat)
    requires start <= |entries| && start <= q0 && Window(rows, q0 - start, entries)
    requires Page(rows, p, q0, limit, prefix, page0) && |page0| < limit
    requires last0 == if page0 == [] then None else Some(page0[|page0| - 1].key)
    ensures Page(rows, p, q, limit, prefix, page) && q0 <= q
    ensures |page| < limit ==> q == q0 - start + |entries|
    ensures last == if page == [] then None else Some(page[|page| - 1].key)
  {
    page, last, q := page0, last0, q0;
    var i := start;
    while i < |entries| && |page| < limit
      invariant start <= i <= |entries| && q == q0 - start + i
      invariant Page(rows, p, q, limit, prefix, page)
      invariant last == if page == [] then None else Some(page[|page| - 1].key)
    {
      page, last := TakeRow(entries[i], limit, prefix, page, last, rows, p, q);
      i := i + 1;
      q := q + 1;
    }
  }

  /** The entries are the rows from `lo` on. */
  ghost predicate Window(rows: seq<Stored>, lo: nat, entries: seq<Stored>) {
    lo + |entries| <= |rows| && forall k :: 0 <= k < |entries| ==> entries[k] == rows[lo + k]
  }

  lemma SliceIsWindow(rows: seq<Stored>, lo: nat, entries: seq<Stored>)
    requires lo + |entries| <= |rows| && entries == rows[lo..lo + |entries|]
    ensures Window(rows, lo, entries)
  {}

  /** The body of that loop. */
  method TakeRow(r: Stored, limit: nat, prefix: string, page0: seq<Stored>, last0: Option<nat>,
                 ghost rows: seq<Stored>, ghost p: nat, ghost q: nat)
    returns (page: seq<Stored>, last: Option<nat>)
    requires q < |rows| && rows[q] == r && Page(rows, p, q, limit, prefix, page0) && |page0| < limit
    requires last0 == if page0 == [] then None else Some(page0[|page0| - 1].key)
    ensures Page(rows, p, q + 1, limit, prefix, page)
    ensures last == if page == [] then None else Some(page[|page| - 1].key)
  {
    page, last := page0, last0;
    PageStep(rows, p, q, limit, prefix, page0);
    if Accepts(r, prefix) {
      page := page + [r];
      last := Some(r.key);
    }
  }

  function AddRow(page: seq<Stored>, r: Stored, prefix: string): seq<Stored> {
    if Accepts(r, prefix) then page + [r] else page
  }

  lemma PageStep(rows: seq<Stored>, p: nat, q: nat, limit: nat, prefix: string, page: seq<Stored>)
    requires Page(rows, p, q, limit, prefix, page) && |page| < limit && q < |rows|
    ensures Page(rows, p, q + 1, limit, prefix, AddRow(page, rows[q], prefix))
  {
    PickSnoc(rows, p, q, prefix);
  }

  // ----- The fingerprint -----

  /** One hashed line. */
  datatype Line = Line(addr: Address, row: Row)

  function LineOf(acc: Account): Line {
    Line(acc.address, Row(if acc.balance == "" then "0" else acc.balance, acc.txNonce, acc.txCountSent))
  }

  function Lines(page: seq<Stored>): seq<Line> {
    if page == [] then []
    else Lines(page[..|page| - 1]) + if page[|page| - 1].value.Some? then [LineOf(page[|page| - 1].value.value)] else []
  }

  lemma {:induction false} LinesConcat(a: seq<Stored>, b: seq<Stored>)
    ensures Lines(a + b) == Lines(a) + Lines(b)
  {
    if b == [] {
      assert a + b == a;
    } else {
      assert (a + b)[..|a + b| - 1] == a + b[..|b| - 1];
      LinesConcat(a, b[..|b| - 1]);
    }
  }

  /** `ComputeAccountStateFingerprint`, up to the digest of the lines: the pages concatenate to
      one full scan, every account that decodes once, in ascending key order. */
  method FingerprintLines(rows: seq<Stored>, inclusive: bool) returns (lines: seq<Line>)
    requires Sorted(rows)
    ensures lines == Lines(Pick(rows, ""))
  {
    lines := [];
    var cursor: Option<nat> := None;
    ghost var p: nat := 0;
    assert rows[0..0] == [];
    var more := true;
    while more
      invariant p <= |rows| && lines == Lines(Pick(rows[0..p], ""))
      invariant more ==> Behind(rows, cursor, p)
      invariant !more ==> p == |rows|
      decreases more, |rows| - p
    {
      var page, next, q := ListAccountsPaginatedFrom(rows, PAGE_SIZE, cursor, "", inclusive);
      var hashed := HashPage(page);
      PickConcat(rows, 0, p, q, "");
      LinesConcat(Pick(rows[0..p], ""), page);
      lines := lines + hashed;
      if |page| == 0 || next.None? || |page| < PAGE_SIZE {
        more := false;
      } else {
        CursorAt(rows, q);
        cursor := next;
      }
      p := q;
    }
    assert rows[0..|rows|] == rows;
  }

  method HashPage(page: seq<Stored>) returns (lines: seq<Line>)
    ensures lines == Lines(page)
  {
    lines := [];
    for i := 0 to |page|
      invariant lines == Lines(page[..i])
    {
      assert page[..i + 1][..i] == page[..i];
      if page[i].value.Some? {
        lines := lines + [LineOf(page[i].value.value)];
      }
    }
    assert page[..|page|] == page;
  }

  // ----- Equal states, equal fingerprints -----

  /** The accounts of `docs` in ascending order of address. */
  ghost predicate Enumerates(rows: seq<Stored>, docs: Docs) {
    && Sorted(rows)
    && (forall i :: 0 <= i < |rows| ==> rows[i].key in docs && rows[i].value == Some(docs[rows[i].key]))
    && (forall a :: a in docs ==> exists i :: 0 <= i < |rows| && rows[i].key == a)
  }

  predicate HasKey(rows: seq<Stored>, k: nat) { exists i :: 0 <= i < |rows| && rows[i].key == k }

  /** Two sorted stretches with the same keys and, key by key, the same line. */
  ghost predicate Matching(a: seq<Stored>, b: seq<Stored>) {
    && Sorted(a) && Sorted(b) && (forall k: nat :: HasKey(a, k) <==> HasKey(b, k))
    && (forall i, j :: 0 <= i < |a| && 0 <= j < |b| && a[i].key == b[j].key ==>
          a[i].value.Some? && b[j].value.Some? && LineOf(a[i].value.value) == LineOf(b[j].value.value))
  }

  lemma LastMatches(a: seq<Stored>, b: seq<Stored>)
    requires Matching(a, b) && a != []
    ensures b != [] && a[|a| - 1].key == b[|b| - 1].key
  {
    assert HasKey(a, a[|a| - 1].key);
    var j :| 0 <= j < |b| && b[j].key == a[|a| - 1].key;
    assert HasKey(b, b[|b| - 1].key);
    var i :| 0 <= i < |a| && a[i].key == b[|b| - 1].key;
  }

  lemma FrontKeys(a: seq<Stored>, k: nat)
    requires Sorted(a) && a != []
    ensures HasKey(a[..|a| - 1], k) <==> HasKey(a, k) && k != a[|a| - 1].key
  {
    var front := a[..|a| - 1];
    if HasKey(a, k) && k != a[|a| - 1].key {
      var i :| 0 <= i < |a| && a[i].key == k;
      assert front[i].key == k;
    }
  }

  lemma FrontMatches(a: seq<Stored>, b: seq<Stored>)
    requires Matching(a, b) && a != [] && b != [] && a[|a| - 1].key == b[|b| - 1].key
    ensures Matching(a[..|a| - 1], b[..|b| - 1])
  {
    var frontA, frontB := a[..|a| - 1], b[..|b| - 1];
    forall k: nat ensures HasKey(frontA, k) <==> HasKey(frontB, k) {
      FrontKeys(a, k);
      FrontKeys(b, k);
    }
  }

  lemma {:induction false} MatchingLines(a: seq<Stored>, b: seq<Stored>)
    requires Matching(a, b)
    ensures Lines(Pick(a, "")) == Lines(Pick(b, ""))
  {
    if a == [] {
      assert forall i :: 0 <= i < |b| ==> HasKey(b, b[i].key);
    } else {
      LastMatches(a, b);
      FrontMatches(a, b);
      MatchingLines(a[..|a| - 1], b[..|b| - 1]);
      LinesConcat(Pick(a[..|a| - 1], ""), [a[|a| - 1]]);
      LinesConcat(Pick(b[..|b| - 1], ""), [b[|b| - 1]]);
      OneLine(a[|a| - 1]);
      OneLine(b[|b| - 1]);
    }
  }

  lemma OneLine(r: Stored)
    requires r.value.Some?
    ensures Lines([r]) == [LineOf(r.value.value)] && Accepts(r, "")
  {
    assert [r][..0] == [];
    assert Lines([r][..0]) == [];
  }

  /** The same accounts, with the same row each. */
  ghost predicate SameRows(a: Docs, b: Docs) { forall x: Address :: RowOf(a, x) == RowOf(b, x) }

  /** Nodes that agree on every row of state hash the same lines, however they paginate. */
  lemma SameStateSameFingerprint(a: Docs, b: Docs, rowsA: seq<Stored>, rowsB: seq<Stored>)
    requires Keyed(a) && Keyed(b) && Enumerates(rowsA, a) && Enumerates(rowsB, b)
    requires SameRows(a, b)
    ensures Lines(Pick(rowsA, "")) == Lines(Pick(rowsB, ""))
  {
    forall k: nat ensures HasKey(rowsA, k) <==> HasKey(rowsB, k) {
      assert RowOf(a, k) == RowOf(b, k);
      assert HasKey(rowsA, k) <==> k in a;
      assert HasKey(rowsB, k) <==> k in b;
    }
    forall i, j | 0 <= i < |rowsA| && 0 <= j < |rowsB| && rowsA[i].key == rowsB[j].key
      ensures LineOf(rowsA[i].value.value) == LineOf(rowsB[j].value.value)
    {
      assert RowOf(a, rowsA[i].key) == RowOf(b, rowsA[i].key);
    }
    MatchingLines(rowsA, rowsB);
  }

  lemma LineSnoc(rows: seq<Stored>, front: seq<Stored>, last: Stored)
    requires rows == front + [last] && last.value.Some?
    ensures Lines(Pick(rows, "")) == Lines(Pick(front, "")) + [LineOf(last.value.value)]
  {
    assert rows[..|front|] == front;
    LinesConcat(Pick(front, ""), [last]);
    OneLine(last);
  }

  /** A complete listing gives one line per row. */
  lemma {:induction false} LinePerRow(rows: seq<Stored>)
    requires forall i :: 0 <= i < |rows| ==> rows[i].value.Some?
    ensures |Lines(Pick(rows, ""))| == |rows|
    ensures forall i :: 0 <= i < |rows| ==> Lines(Pick(rows, ""))[i] == LineOf(rows[i].value.value)
  {
    if rows != [] {
      var front, last := rows[..|rows| - 1], rows[|rows| - 1];
      LinePerRow(front);
      LineSnoc(rows, front, last);
    }
  }

  lemma SameLines(rowsA: seq<Stored>, rowsB: seq<Stored>)
    requires forall i :: 0 <= i < |rowsA| ==> rowsA[i].value.Some?
    requires forall i :: 0 <= i < |rowsB| ==> rowsB[i].value.Some?
    requires Lines(Pick(rowsA, "")) == Lines(Pick(rowsB, ""))
    ensures PairedLines(rowsA, rowsB) && PairedLines(rowsB, rowsA)
  {
    LinePerRow(rowsA);
    LinePerRow(rowsB);
    var lines := Lines(Pick(rowsA, ""));
    forall i | 0 <= i < |rowsA| ensures LineOf(rowsA[i].value.value) == LineOf(rowsB[i].value.value) {
      assert lines[i] == LineOf(rowsA[i].value.value);
    }
  }

  ghost predicate PairedLines(a: seq<Stored>, b: seq<Stored>) {
    && |a| == |b|
    && forall i :: 0 <= i < |a| ==> a[i].value.Some? && b[i].value.Some?
                                    && LineOf(a[i].value.value) == LineOf(b[i].value.value)
  }

  lemma PairedRow(a: Docs, b: Docs, rowsA: seq<Stored>, rowsB: seq<Stored>, x: Address)
    requires Keyed(a) && Keyed(b) && Enumerates(rowsA, a) && Enumerates(rowsB, b) && x in a
    requires PairedLines(rowsA, rowsB)
    ensures RowOf(a, x) == RowOf(b, x)
  {
    var i :| 0 <= i < |rowsA| && rowsA[i].key == x;
    assert LineOf(rowsA[i].value.value) == LineOf(rowsB[i].value.value);
    assert b[rowsB[i].key].address == rowsB[i].key;
  }

  lemma SameFingerprintSameState(a: Docs, b: Docs, rowsA: seq<Stored>, rowsB: seq<Stored>)
    requires Keyed(a) && Keyed(b) && Enumerates(rowsA, a) && Enumerates(rowsB, b)
    requires PairedLines(rowsA, rowsB) && PairedLines(rowsB, rowsA)
    ensures SameRows(a, b)
  {
    forall x: Address ensures RowOf(a, x) == RowOf(b, x) {
      if x in a {
        PairedRow(a, b, rowsA, rowsB, x);
      } else if x in b {
        PairedRow(b, a, rowsB, rowsA, x);
      }
    }
  }

  /** Two nodes hash the same lines if and only if they agree on every row of state. */
  lemma FingerprintExactly(a: Docs, b: Docs, rowsA: seq<Stored>, rowsB: seq<Stored>)
    requires Keyed(a) && Keyed(b) && Enumerates(rowsA, a) && Enumerates(rowsB, b)
    ensures Lines(Pick(rowsA, "")) == Lines(Pick(rowsB, "")) <==> SameRows(a, b)
  {
    if Lines(Pick(rowsA, "")) == Lines(Pick(rowsB, "")) {
      SameLines(rowsA, rowsB);
      SameFingerprintSameState(a, b, rowsA, rowsB);
    }
    if SameRows(a, b) {
      SameStateSameFingerprint(a, b, rowsA, rowsB);
    }
  }

  // ----- Fingerprints of runs -----

  /** Both runs take sound steps of one chain and end with the same transactions applied; the rows
      list the accounts they end with. */
  ghost predicate SameApplied(base: Db, legacy: MarkerDb, chain: Hash -> Effect, p: seq<Step>, q: seq<Step>,
                              rowsP: seq<Stored>, rowsQ: seq<Stored>) {
    && Keyed(base.docs) && (forall s :: s in p + q ==> Sound(s) && On(chain, s))
    && (forall h: Hash :: IsApplied(Run(base, legacy, p).markers, legacy, h)
                          <==> IsApplied(Run(base, legacy, q).markers, legacy, h))
    && Enumerates(rowsP, Run(base, legacy, p).docs) && Enumerates(rowsQ, Run(base, legacy, q).docs)
  }

  lemma RunsKeyed(base: Db, legacy: MarkerDb, chain: Hash -> Effect, p: seq<Step>, q: seq<Step>, rowsP: seq<Stored>,
                  rowsQ: seq<Stored>)
    requires SameApplied(base, legacy, chain, p, q, rowsP, rowsQ)
    ensures Keyed(Run(base, legacy, p).docs) && Keyed(Run(base, legacy, q).docs)
    ensures forall s :: s in p ==> Sound(s) && On(chain, s)
    ensures forall s :: s in q ==> Sound(s) && On(chain, s)
  {
    assert forall s :: s in p ==> s in p + q;
    assert forall s :: s in q ==> s in p + q;
    var _ := LedgerInvariant(base, legacy, p, chain);
    var _ := LedgerInvariant(base, legacy, q, chain);
  }

  /** An account that makes no difference: it was there, or an applied transaction touches it, or
      live commits of both runs name it as receiver or of neither. */
  ghost predicate Alike(base: Db, legacy: MarkerDb, chain: Hash -> Effect, p: seq<Step>, q: seq<Step>, x: Address) {
    x in base.docs || TouchedSince(base, legacy, chain, Run(base, legacy, p).markers, x)
    || (x in RunSlack(base, legacy, p).created <==> x in RunSlack(base, legacy, q).created)
  }

  /** Nodes that applied the same transactions, in any order and any mix of live execution,
      reconciliation, replays and interruptions, hash the same lines if and only if no receiver
      was opened for nothing by one of them alone. */
  lemma FingerprintsAgreeExactly(base: Db, legacy: MarkerDb, chain: Hash -> Effect, p: seq<Step>, q: seq<Step>,
                                 rowsP: seq<Stored>, rowsQ: seq<Stored>)
    requires SameApplied(base, legacy, chain, p, q, rowsP, rowsQ) && forall x: Address :: PlainText(base.docs, x)
    requires RunSlack(base, legacy, p).wrapped == {} && RunSlack(base, legacy, q).wrapped == {}
    ensures Lines(Pick(rowsP, "")) == Lines(Pick(rowsQ, ""))
            <==> forall x: Address :: Alike(base, legacy, chain, p, q, x)
  {
    RunsKeyed(base, legacy, chain, p, q, rowsP, rowsQ);
    var (a, b) := (Run(base, legacy, p).docs, Run(base, legacy, q).docs);
    FingerprintExactly(a, b, rowsP, rowsQ);
    forall x: Address ensures RowOf(a, x) == RowOf(b, x) <==> Alike(base, legacy, chain, p, q, x) {
      assert PlainText(base.docs, x);
      RunsAgree(base, legacy, chain, p, q, x);
    }
  }

  /** So nodes whose live steps open no receiver for nothing and wrap no nonce hash the same lines,
      however live execution and catching up mix. */
  lemma MixedRunsSameFingerprint(base: Db, legacy: MarkerDb, chain: Hash -> Effect, p: seq<Step>, q: seq<Step>,
                                 rowsP: seq<Stored>, rowsQ: seq<Stored>)
    requires SameApplied(base, legacy, chain, p, q, rowsP, rowsQ) && forall x: Address :: PlainText(base.docs, x)
    requires forall s :: s in p + q ==> Harmless(base.docs, s)
    ensures Lines(Pick(rowsP, "")) == Lines(Pick(rowsQ, ""))
  {
    RunsKeyed(base, legacy, chain, p, q, rowsP, rowsQ);
    forall x: Address ensures RowOf(Run(base, legacy, p).docs, x) == RowOf(Run(base, legacy, q).docs, x) {
      assert PlainText(base.docs, x);
      MixedRunsAgree(base, legacy, chain, p, q, x);
    }
    SameStateSameFingerprint(Run(base, legacy, p).docs, Run(base, legacy, q).docs, rowsP, rowsQ);
  }

  /** Nodes that only reconciled hash the same lines whatever text the base stores. */
  lemma SameAppliedSameFingerprint(base: Db, legacy: MarkerDb, chain: Hash -> Effect, p: seq<Step>, q: seq<Step>,
                                   rowsP: seq<Stored>, rowsQ: seq<Stored>)
    requires SameApplied(base, legacy, chain, p, q, rowsP, rowsQ) && forall s :: s in p + q ==> s.Recon?
    ensures Lines(Pick(rowsP, "")) == Lines(Pick(rowsQ, ""))
  {
    RunsKeyed(base, legacy, chain, p, q, rowsP, rowsQ);
    assert forall s :: s in p ==> s in p + q;
    assert forall s :: s in q ==> s in p + q;
    ReconRunsAreTight(base, legacy, p);
    ReconRunsAreTight(base, legacy, q);
    forall x: Address ensures RowOf(Run(base, legacy, p).docs, x) == RowOf(Run(base, legacy, q).docs, x) {
      RunsAgree(base, legacy, chain, p, q, x);
    }
    SameStateSameFingerprint(Run(base, legacy, p).docs, Run(base, legacy, q).docs, rowsP, rowsQ);
  }
}

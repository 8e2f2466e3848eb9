/** Block references on their way through the queue: cut into entries
    (DB_OPs/Nodeinfo/immudb_account_manager.go), applied entry by entry
    (DB_OPs/Nodeinfo/account_sync_worker.go), and what a confirmed drain then means for the
    reconciliation that handed them off. */
module DrainWorker {
  import opened Types
  import opened Markers
  import opened Ledger
  import opened LedgerRuns
  import opened AccountsDb
  import opened Anchor
  import opened AnchorRuns
  import D = Drain
  import Scan

  const MAX_RECORDS: nat := 500

  function Joined(entries: seq<seq<Ref>>): seq<Ref> {
    if entries == [] then [] else Joined(entries[..|entries| - 1]) + entries[|entries| - 1]
  }

  /** Those of the first `n` references that are kept. */
  function Chosen(refs: seq<Ref>, keep: nat -> bool, n: nat): seq<Ref>
    requires n <= |refs|
  {
    if n == 0 then [] else Chosen(refs, keep, n - 1) + if keep(n - 1) then [refs[n - 1]] else []
  }

  /** Reference `i` belongs to a chunk that could be enqueued, or that could not. */
  function InChunk(up: nat -> bool, sent: bool): nat -> bool { (i: nat) => up(i / MAX_RECORDS) == sent }

  /** `EnqueueBlockRecons`. Reference `i` travels, in order, in an entry of at most 500 if its chunk
      `i / 500` could be enqueued, and is reported as failed otherwise. */
  method EnqueueBlockRecons(refs: seq<Ref>, up: nat -> bool) returns (entries: seq<seq<Ref>>, failed: seq<Ref>)
    ensures forall e :: e in entries ==> 0 < |e| <= MAX_RECORDS
    ensures Joined(entries) == Chosen(refs, InChunk(up, true), |refs|)
    ensures failed == Chosen(refs, InChunk(up, false), |refs|)
    ensures multiset(Joined(entries)) + multiset(failed) == multiset(refs)
  {
    entries, failed := [], [];
    var start, k := 0, 0;
    while start < |refs|
      invariant 0 <= start <= |refs| && (start == MAX_RECORDS * k || start == |refs|)
      invariant forall e :: e in entries ==> 0 < |e| <= MAX_RECORDS
      invariant Joined(entries) == Chosen(refs, InChunk(up, true), start)
      invariant failed == Chosen(refs, InChunk(up, false), start)
    {
      var end := if start + MAX_RECORDS > |refs| then |refs| else start + MAX_RECORDS;
      var chunk := refs[start..end];
      ChosenChunk(refs, up, true, start, end, k);
      ChosenChunk(refs, up, false, start, end, k);
      if up(k) {
        JoinedSnoc(entries, chunk);
        entries := entries + [chunk];
      } else {
        failed := failed + chunk;
      }
      start, k := end, k + 1;
    }
    ChosenAll(refs, InChunk(up, true), InChunk(up, false), |refs|);
    assert refs[..|refs|] == refs;
  }

  lemma {:induction false} ChosenChunk(refs: seq<Ref>, up: nat -> bool, sent: bool, start: nat, end: nat, k: nat)
    requires start == MAX_RECORDS * k && start <= end <= |refs| && end <= start + MAX_RECORDS
    ensures Chosen(refs, InChunk(up, sent), end)
            == Chosen(refs, InChunk(up, sent), start) + if up(k) == sent then refs[start..end] else []
    decreases end
  {
    if start < end {
      ChosenChunk(refs, up, sent, start, end - 1, k);
      assert (end - 1) / MAX_RECORDS == k;
      assert refs[start..end] == refs[start..end - 1] + [refs[end - 1]];
    }
  }

  /** Every reference is in exactly one entry or reported as failed. */
  lemma {:induction false} ChosenAll(refs: seq<Ref>, p: nat -> bool, q: nat -> bool, n: nat)
    requires n <= |refs| && forall i: nat :: p(i) <==> !q(i)
    ensures SharedOut(Chosen(refs, p, n), Chosen(refs, q, n), refs[..n])
  {
    if n > 0 {
      ChosenAll(refs, p, q, n - 1);
      ChosenSnoc(refs, p, n);
      ChosenSnoc(refs, q, n);
      SliceSnoc(refs, n);
      ShareOut(Chosen(refs, p, n - 1), Chosen(refs, q, n - 1), refs[..n - 1], refs[n - 1], Chosen(refs, p, n),
               Chosen(refs, q, n), refs[..n]);
    }
  }

  ghost predicate SharedOut(sent: seq<Ref>, failed: seq<Ref>, all: seq<Ref>) {
    multiset(sent) + multiset(failed) == multiset(all)
  }

  lemma SliceSnoc(refs: seq<Ref>, n: nat)
    requires 0 < n <= |refs|
    ensures refs[..n] == refs[..n - 1] + [refs[n - 1]]
  {}

  lemma ChosenSnoc(refs: seq<Ref>, keep: nat -> bool, n: nat)
    requires 0 < n <= |refs|
    ensures keep(n - 1) ==> Chosen(refs, keep, n) == Chosen(refs, keep, n - 1) + [refs[n - 1]]
    ensures !keep(n - 1) ==> Chosen(refs, keep, n) == Chosen(refs, keep, n - 1)
  {}

  lemma ShareOut(sent: seq<Ref>, failed: seq<Ref>, all: seq<Ref>, r: Ref, sent': seq<Ref>, failed': seq<Ref>,
                 all': seq<Ref>)
    requires SharedOut(sent, failed, all) && all' == all + [r]
    requires (sent' == sent + [r] && failed' == failed) || (sent' == sent && failed' == failed + [r])
    ensures SharedOut(sent', failed', all')
  {}

  lemma JoinedSnoc(entries: seq<seq<Ref>>, chunk: seq<Ref>)
    ensures Joined(entries + [chunk]) == Joined(entries) + chunk
  {
    assert (entries + [chunk])[..|entries|] == entries;
  }

  // ----- Applying one entry -----

  /** Step `k` reconciles the stored block that reference `k` names. */
  ghost predicate EntrySteps(store: Scan.BlockStore, refs: seq<Ref>, steps: seq<Step>) {
    && |steps| <= |refs|
    && forall k :: 0 <= k < |steps| ==> Sound(steps[k]) && Names(store, refs[k], steps[k])
  }

  ghost predicate Names(store: Scan.BlockStore, r: Ref, step: Step) {
    r.number in store && step.Recon? && step.blk == store[r.number] && step.wanted == Some(r.hash)
  }

  ghost predicate AllRefsMarked(store: Scan.BlockStore, refs: seq<Ref>, markers: MarkerDb, legacy: MarkerDb) {
    forall r :: r in refs ==> r.number in store && AllMarked(store[r.number].txs, markers, legacy)
  }

  /** The steps led from `before` to `now`, and the blocks of `refs` are marked. */
  ghost predicate InEntry(before: Db, legacy: MarkerDb, store: Scan.BlockStore, refs: seq<Ref>, steps: seq<Step>,
                          now: Db) {
    && Keyed(now.docs) && now == Run(before, legacy, steps) && |steps| == |refs| && EntrySteps(store, refs, steps)
    && AllRefsMarked(store, refs, now.markers, legacy)
  }

  /** The block references of one entry, in turn, until the first that fails; `oks(k)` is how many
      ExecAlls of reference `k` go through. The entry counts as applied if and only if every block
      reported success, and then every transaction of every block is marked. */
  method ApplyEntry(db: AccountsDb, legacy: MarkerDb, store: Scan.BlockStore, refs: seq<Ref>, oks: nat -> nat,
                    appliedAt: int)
    returns (ok: bool, ghost steps: seq<Step>)
    requires Keyed(db.docs) && Clock(appliedAt) && forall n :: n in store ==> DistinctHashes(store[n].txs)
    modifies db
    ensures EntrySteps(store, refs, steps) && db.State() == Run(old(db.State()), legacy, steps)
    ensures ok ==> |steps| == |refs| && AllRefsMarked(store, refs, db.markers, legacy)
    ensures !ok ==> exists k :: StopsAt(old(db.State()), legacy, store, refs, oks, appliedAt, steps, k)
  {
    ok, steps := true, [];
    ghost var before := db.State();
    for k := 0 to |refs|
      invariant InEntry(before, legacy, store, refs[..k], steps, db.State())
    {
      ghost var front := steps;
      ok, steps := ApplyRef(db, legacy, store, refs[k], oks(k), appliedAt, before, refs[..k], steps);
      assert refs[..k + 1] == refs[..k] + [refs[k]];
      if !ok {
        assert StopsAt(before, legacy, store, refs, oks, appliedAt, steps, k) by {
          assert steps[..k] == front;
        }
        return false, steps;
      }
    }
    assert refs[..|refs|] == refs;
    ok := true;
  }

  /** Every block before reference `k` was reconciled and is marked, and reference `k` could not be: its
      block is missing, or its reconciliation reports failure. */
  ghost predicate StopsAt(before: Db, legacy: MarkerDb, store: Scan.BlockStore, refs: seq<Ref>, oks: nat -> nat,
                          appliedAt: int, steps: seq<Step>, k: nat) {
    && k < |refs| && k <= |steps|
    && var mid := Run(before, legacy, steps[..k]);
       && AllRefsMarked(store, refs[..k], mid.markers, legacy)
       && FailsOn(mid, legacy, store, refs[k], oks(k), appliedAt)
       && |steps| == if refs[k].number in store then k + 1 else k
  }

  predicate FailsOn(db: Db, legacy: MarkerDb, store: Scan.BlockStore, r: Ref, execs: nat, at: int) {
    r.number in store ==> !ApplyRecon(db, legacy, store[r.number], Some(r.hash), execs, at).1
  }

  /** One reference: a block that is missing or stored under another hash fails. */
  method ApplyRef(db: AccountsDb, legacy: MarkerDb, store: Scan.BlockStore, r: Ref, execs: nat, appliedAt: int,
                  ghost before: Db, ghost refs: seq<Ref>, ghost steps: seq<Step>)
    returns (ok: bool, ghost next: seq<Step>)
    requires Clock(appliedAt) && forall n :: n in store ==> DistinctHashes(store[n].txs)
    requires InEntry(before, legacy, store, refs, steps, db.State())
    modifies db
    ensures EntrySteps(store, refs + [r], next) && db.State() == Run(before, legacy, next)
    ensures ok ==> InEntry(before, legacy, store, refs + [r], next, db.State())
    ensures ok <==> !FailsOn(old(db.State()), legacy, store, r, execs, appliedAt)
    ensures |next| == (if r.number in store then |steps| + 1 else |steps|) && next[..|steps|] == steps
  {
    if r.number !in store {
      return false, steps;
    }
    var blk := store[r.number];
    ghost var mid, step := db.State(), Recon(blk, Some(r.hash), execs, appliedAt);
    ok := db.ApplyBlockRecon(legacy, blk, Some(r.hash), execs, appliedAt);
    next := steps + [step];
    OneMoreStep(before, legacy, store, refs, r, steps, step, mid);
  }

  lemma OneMoreStep(before: Db, legacy: MarkerDb, store: Scan.BlockStore, refs: seq<Ref>, r: Ref, steps: seq<Step>,
                    step: Step, mid: Db)
    requires InEntry(before, legacy, store, refs, steps, mid) && Sound(step) && Names(store, r, step)
    ensures var (now, ok) := ApplyRecon(mid, legacy, step.blk, step.wanted, step.ok, step.reconAt);
            && EntrySteps(store, refs + [r], steps + [step]) && now == Run(before, legacy, steps + [step])
            && (ok ==> InEntry(before, legacy, store, refs + [r], steps + [step], now))
  {
    var (now, ok) := ApplyRecon(mid, legacy, step.blk, step.wanted, step.ok, step.reconAt);
    assert (steps + [step])[..|steps|] == steps;
    CommitGrows(mid, legacy, step);
    if ok {
      var _ := ReconOnce(mid, legacy, step.blk, step.wanted, step.ok, step.reconAt);
      MarkedMore(store, refs, r, mid.markers, now.markers, legacy);
    }
  }

  lemma MarkedMore(store: Scan.BlockStore, refs: seq<Ref>, r: Ref, before: MarkerDb, after: MarkerDb, legacy: MarkerDb)
    requires AllRefsMarked(store, refs, before, legacy) && r.number in store
             && AllMarked(store[r.number].txs, after, legacy)
    requires forall h: Hash :: IsApplied(before, legacy, h) ==> IsApplied(after, legacy, h)
    ensures AllRefsMarked(store, refs + [r], after, legacy)
  {}

  // ----- What a confirmed drain means for the anchor -----

  /** The session's references travel in entries up to `target`, and the blocks of an entry that was
      applied are marked. */
  ghost predicate Carried(s: Node, legacy: MarkerDb, entries: map<nat, seq<Ref>>, target: nat, q: D.Queue)
    requires s.session.Some?
  {
    && (forall r :: r in s.session.value.refs ==> exists i :: i in entries && 1 <= i <= target && r in entries[i])
    && (forall i :: i in entries && i in q.applied ==> AllRefsMarked(s.store, entries[i], s.db.markers, legacy))
  }

  /** A confirmed drain makes the advance safe if every entry up to the target went through and the
      blocks of the range did not change since the hand-off. The queue's mark alone does not say
      the first. */
  lemma ConfirmedAdvanceIsCareful(chain: Chain, legacy: MarkerDb, s: Node, states: seq<D.Queue>, events: seq<D.Event>,
                                  target: nat, entries: map<nat, seq<Ref>>)
    requires Sane(chain, legacy, s) && Allowed(chain, legacy, s, Advance) && Unchanged(s)
    requires D.Run(states, events) && D.DrainConfirmed(states[|events|], target)
    requires Carried(s, legacy, entries, target, states[|events|])
    requires forall i :: 1 <= i <= target ==> D.WentThrough(events, i)
    ensures Careful(chain, legacy, s, Advance)
  {
    D.ConfirmedExactly(states, events, target);
    forall r | r in s.session.value.refs ensures BlockApplied(chain, s.db.markers, legacy, r.number) {
      var i :| i in entries && 1 <= i <= target && r in entries[i];
      assert AllRefsMarked(s.store, entries[i], s.db.markers, legacy);
    }
    AppliedRefsAreEnough(chain, legacy, s);
  }

  lemma AppliedRefsAreEnough(chain: Chain, legacy: MarkerDb, s: Node)
    requires Sane(chain, legacy, s) && Allowed(chain, legacy, s, Advance) && Unchanged(s)
    requires forall r :: r in s.session.value.refs ==> BlockApplied(chain, s.db.markers, legacy, r.number)
    ensures Careful(chain, legacy, s, Advance)
  {
    var session := s.session.value;
    forall n: nat | 1 <= n && Uncovered(session, Target(s), n) ensures BlockApplied(chain, s.db.markers, legacy, n) {
      assert Scan.BlockAt(session.store, n) == Scan.BlockAt(s.store, n) && !Scan.NeedsData(s.store)(n);
    }
  }
}

/** Runs in which marker lookups fail. `processTransaction` goes on without the answer
    (messaging/BlockProcessing/Processing.go). */
module Attempts {
  import opened Types
  import opened Sums
  import opened Deltas
  import opened Partition
  import opened Markers
  import opened Ledger
  import opened LedgerMeaning
  import opened LedgerRuns
  import opened LiveProgress

  /** A step together with whether its marker could be read. */
  datatype Attempt = Attempt(step: Step, lookup: bool)

  function ExecAttempt(db: Db, legacy: MarkerDb, a: Attempt): Db {
    match a.step
    case Live(fees, tx, seconds, carried, at) =>
      var r := AttemptTx(db, legacy, fees, tx, seconds, carried, at, a.lookup, true);
      if r.Committed? then r.db else db
    case Recon(_, _, _, _) => Exec(db, legacy, a.step)
  }

  function RunAttempts(db: Db, legacy: MarkerDb, attempts: seq<Attempt>): Db {
    if attempts == [] then db
    else ExecAttempt(RunAttempts(db, legacy, attempts[..|attempts| - 1]), legacy, attempts[|attempts| - 1])
  }

  function StepsOf(attempts: seq<Attempt>): seq<Step> {
    if attempts == [] then [] else StepsOf(attempts[..|attempts| - 1]) + [attempts[|attempts| - 1].step]
  }

  /** No live step has the last nonce, and a transaction that was applied before the run started and
      is tried without a lookup left its sender's nonce behind it. */
  ghost predicate Settled(base: Db, legacy: MarkerDb, a: Attempt) {
    a.step.Live? ==>
      && a.step.tx.nonce != MAX_U64
      && (!a.lookup && a.step.tx.from.Some? && IsApplied(base.markers, legacy, a.step.tx.hash) ==>
            NonceOf(base.docs, a.step.tx.from.value) > a.step.tx.nonce)
  }

  lemma {:induction false} NoLastNonceNoWrap(db: Db, legacy: MarkerDb, steps: seq<Step>)
    requires forall s :: s in steps && s.Live? ==> s.tx.nonce != MAX_U64
    ensures RunSlack(db, legacy, steps).wrapped == {}
  {
    if steps != [] {
      assert steps[|steps| - 1] in steps;
      NoLastNonceNoWrap(db, legacy, steps[..|steps| - 1]);
    }
  }

  /** Without its lookup, a transaction that is applied is refused. */
  lemma AppliedIsRefused(base: Db, legacy: MarkerDb, chain: Hash -> Effect, steps: seq<Step>, a: Attempt)
    requires Keyed(base.docs) && forall s :: s in steps ==> Sound(s) && On(chain, s)
    requires forall s :: s in steps && s.Live? ==> s.tx.nonce != MAX_U64
    requires a.step.Live? && On(chain, a.step) && Settled(base, legacy, a) && !a.lookup
    requires IsApplied(Run(base, legacy, steps).markers, legacy, a.step.tx.hash)
    ensures ExecAttempt(Run(base, legacy, steps), legacy, a) == Run(base, legacy, steps)
  {
    var db, st := Run(base, legacy, steps), a.step;
    NoLastNonceNoWrap(base, legacy, steps);
    if IsApplied(base.markers, legacy, st.tx.hash) {
      if LiveShape(st.fees, st.tx) {
        NonceNeverFalls(base, legacy, chain, steps, st.tx.from.value);
        StaleIsRefused(db, legacy, st.fees, st.tx, st.seconds, st.carried, st.liveAt, true);
      }
    } else {
      FailedLookupIsHarmless(base, legacy, steps, chain, st.fees, st.tx, st.seconds, st.carried, st.liveAt, true);
    }
  }

  lemma NonceNeverFalls(base: Db, legacy: MarkerDb, chain: Hash -> Effect, steps: seq<Step>, x: Address)
    requires Keyed(base.docs) && forall s :: s in steps ==> Sound(s)
    requires x !in RunSlack(base, legacy, steps).wrapped
    ensures NonceOf(Run(base, legacy, steps).docs, x) >= NonceOf(base.docs, x) && Keyed(Run(base, legacy, steps).docs)
  {
    var log := LedgerInvariant(base, legacy, steps, chain);
    assert Moves(base.docs, log, RunSlack(base, legacy, steps), Run(base, legacy, steps).docs, x);
  }

  /** Failing lookups change nothing: a run in which any of them fail ends in the same database as the
      run in which all succeed, so everything proved of runs holds of it. */
  lemma {:induction false} LookupsDoNotMatter(base: Db, legacy: MarkerDb, chain: Hash -> Effect, attempts: seq<Attempt>)
    requires Keyed(base.docs)
    requires forall a :: a in attempts ==> Sound(a.step) && On(chain, a.step) && Settled(base, legacy, a)
    ensures RunAttempts(base, legacy, attempts) == Run(base, legacy, StepsOf(attempts))
    ensures forall s :: s in StepsOf(attempts) ==> exists a :: a in attempts && a.step == s
  {
    if attempts != [] {
      var front, a := attempts[..|attempts| - 1], attempts[|attempts| - 1];
      assert forall b :: b in attempts <==> b in front || b == a;
      LookupsDoNotMatter(base, legacy, chain, front);
      StepOfAttempt(base, legacy, chain, StepsOf(front), a);
    }
  }

  lemma StepOfAttempt(base: Db, legacy: MarkerDb, chain: Hash -> Effect, steps: seq<Step>, a: Attempt)
    requires Keyed(base.docs) && forall s :: s in steps ==> Sound(s) && On(chain, s)
    requires forall s :: s in steps && s.Live? ==> s.tx.nonce != MAX_U64
    requires On(chain, a.step) && Settled(base, legacy, a)
    ensures ExecAttempt(Run(base, legacy, steps), legacy, a) == Run(base, legacy, steps + [a.step])
  {
    assert (steps + [a.step])[..|steps|] == steps;
    if a.step.Live? && !a.lookup && IsApplied(Run(base, legacy, steps).markers, legacy, a.step.tx.hash) {
      AppliedIsRefused(base, legacy, chain, steps, a);
    }
  }

  // ----- Putting runs together -----

  lemma {:induction false} AttemptsConcat(db: Db, legacy: MarkerDb, a: seq<Attempt>, b: seq<Attempt>)
    ensures RunAttempts(db, legacy, a + b) == RunAttempts(RunAttempts(db, legacy, a), legacy, b)
    ensures StepsOf(a + b) == StepsOf(a) + StepsOf(b)
  {
    if b == [] {
      assert a + b == a;
    } else {
      var front, last := b[..|b| - 1], b[|b| - 1];
      AttemptsConcat(db, legacy, a, front);
      assert b == front + [last];
      ConcatOneMore(db, legacy, a, front, last, RunAttempts(db, legacy, a));
    }
  }

  lemma ConcatOneMore(db: Db, legacy: MarkerDb, a: seq<Attempt>, front: seq<Attempt>, last: Attempt, mid: Db)
    requires RunAttempts(db, legacy, a + front) == RunAttempts(mid, legacy, front)
    requires StepsOf(a + front) == StepsOf(a) + StepsOf(front)
    ensures RunAttempts(db, legacy, a + (front + [last])) == RunAttempts(mid, legacy, front + [last])
    ensures StepsOf(a + (front + [last])) == StepsOf(a) + StepsOf(front + [last])
  {
    Reassociate(a, front, [last]);
    Reassociate(StepsOf(a), StepsOf(front), [last.step]);
    OneAttempt(db, legacy, a + front, last);
    OneAttempt(mid, legacy, front, last);
  }

  lemma OneAttempt(db: Db, legacy: MarkerDb, run: seq<Attempt>, a: Attempt)
    ensures RunAttempts(db, legacy, run + [a]) == ExecAttempt(RunAttempts(db, legacy, run), legacy, a)
    ensures StepsOf(run + [a]) == StepsOf(run) + [a.step]
  {
    assert (run + [a])[..|run|] == run;
  }

  /** The run is the run of its steps. */
  predicate Plain(db: Db, legacy: MarkerDb, run: seq<Attempt>) {
    RunAttempts(db, legacy, run) == Run(db, legacy, StepsOf(run))
  }

  lemma PlainMore(db: Db, legacy: MarkerDb, run: seq<Attempt>, a: Attempt)
    requires Plain(db, legacy, run)
    requires var now := Run(db, legacy, StepsOf(run));
             ExecAttempt(now, legacy, a) == Exec(now, legacy, a.step)
    ensures Plain(db, legacy, run + [a])
  {
    OneAttempt(db, legacy, run, a);
    assert (StepsOf(run) + [a.step])[..|StepsOf(run)|] == StepsOf(run);
  }

  lemma LookupSucceeds(now: Db, legacy: MarkerDb, a: Attempt)
    requires a.lookup
    ensures ExecAttempt(now, legacy, a) == Exec(now, legacy, a.step)
  {}

  /** Lookups that succeed make no difference. */
  lemma {:induction false} LookupsSucceed(db: Db, legacy: MarkerDb, run: seq<Attempt>, more: seq<Attempt>)
    requires Plain(db, legacy, run) && forall a :: a in more ==> a.lookup
    ensures Plain(db, legacy, run + more)
  {
    if more == [] {
      assert run + more == run;
    } else {
      var front, last := more[..|more| - 1], more[|more| - 1];
      LookupsSucceed(db, legacy, run, front);
      assert last in more && more == front + [last];
      Reassociate(run, front, [last]);
      SucceedsOneMore(db, legacy, run + front, last);
    }
  }

  lemma SucceedsOneMore(db: Db, legacy: MarkerDb, run: seq<Attempt>, a: Attempt)
    requires Plain(db, legacy, run) && a.lookup
    ensures Plain(db, legacy, run + [a])
  {
    LookupSucceeds(Run(db, legacy, StepsOf(run)), legacy, a);
    PlainMore(db, legacy, run, a);
  }

  // ----- Markers only grow -----

  lemma {:induction false} GroupsKeepMarkers(db: Db, legacy: MarkerDb, blk: Block, groups: seq<seq<Hash>>, i: nat,
                                             ok: nat, at: int, goal: (Db, bool), h: Hash)
    requires Clock(at) && GroupsLead(db, blk, groups, i, ok, at, goal) && IsApplied(db.markers, legacy, h)
    ensures IsApplied(goal.0.markers, legacy, h)
    decreases |groups| - i
  {
    if i < |groups| {
      GroupsUnfold(db, blk, groups, i, ok, at, goal);
      if i < ok && CommitGroup(db, blk, groups[i], at).Some? {
        MarkReads(db.markers, legacy, groups[i], at, h);
        GroupsKeepMarkers(CommitGroup(db, blk, groups[i], at).value, legacy, blk, groups, i + 1, ok, at, goal, h);
      }
    }
  }

  lemma AttemptKeepsMarkers(db: Db, legacy: MarkerDb, a: Attempt, h: Hash)
    requires Sound(a.step) && IsApplied(db.markers, legacy, h)
    ensures IsApplied(ExecAttempt(db, legacy, a).markers, legacy, h)
  {
    match a.step
    case Live(fees, tx, seconds, carried, at) => MarkReads(db.markers, legacy, [tx.hash], at, h);
    case Recon(blk, wanted, ok, at) =>
      if wanted.None? || wanted.value == blk.hash {
        var groups := Groups(blk, Pending(db, legacy, blk), GROUP_BUDGET);
        assert groups[0..] == groups;
        GroupsKeepMarkers(db, legacy, blk, groups, 0, ok, at, CommitGroups(db, blk, groups, ok, at), h);
      }
  }

  lemma {:induction false} AttemptsKeepMarkers(db: Db, legacy: MarkerDb, run: seq<Attempt>, h: Hash)
    requires (forall a :: a in run ==> Sound(a.step)) && IsApplied(db.markers, legacy, h)
    ensures IsApplied(RunAttempts(db, legacy, run).markers, legacy, h)
  {
    if run != [] {
      assert run[|run| - 1] in run;
      AttemptsKeepMarkers(db, legacy, run[..|run| - 1], h);
      AttemptKeepsMarkers(RunAttempts(db, legacy, run[..|run| - 1]), legacy, run[|run| - 1], h);
    }
  }
}

/** Processing a whole block live (messaging/BlockProcessing/Processing.go): commit transaction
    by transaction, and on the first refusal revoke what was committed and restore the accounts
    the block touched. */
module BlockProcessing {
  import opened Types
  import opened Fees
  import opened Deltas
  import opened Markers
  import opened Ledger
  import opened LedgerRuns
  import opened Rollback
  import opened AccountsDb
  import opened Attempts
  import opened Admission
  import V = Validation

  /** Nothing in the block is nil. */
  predicate Complete(blk: Block) {
    && blk.fees.coinbase.Some? && blk.fees.zkvm.Some?
    && forall t :: t in blk.txs ==> t.from.Some? && t.to.Some?
  }

  /** The accounts a block snapshots: senders, receivers and the two fee accounts. Weighted fee
      recipients are not among them. */
  function Affected(blk: Block): set<Address>
    requires Complete(blk)
  {
    (set t | t in blk.txs :: t.from.value) + (set t | t in blk.txs :: t.to.value)
      + {blk.fees.coinbase.value, blk.fees.zkvm.value}
  }

  /** The live step a block makes of one of its transactions. */
  function LiveStep(blk: Block, tx: Tx, carried: map<Address, U64>, appliedAt: int): Step {
    Live(blk.fees, tx, blk.timestamp, carried, appliedAt)
  }

  /** What the database answers while a block is processed: `prefilter` says whether its markers
      could be read, `lookup(i)` and `up(i)` whether the marker check and the ExecAll of
      transaction `i` go through, and `revokeOk` and `failing` how far a rollback gets. */
  datatype Calls = Calls(prefilter: bool, lookup: nat -> bool, up: nat -> bool, revokeOk: nat, failing: set<Address>)

  /** The state-apply lock is taken per transaction, so other writers may commit before transaction
      `i` (`between(i)`) and between a refusal and the rollback (`late`). */
  datatype Others = Others(between: nat -> seq<Attempt>, late: seq<Attempt>)

  ghost predicate Foreign(others: Others, a: Attempt) {
    a in others.late || exists i: nat :: a in others.between(i)
  }

  ghost predicate SoundOthers(others: Others) { forall a :: Foreign(others, a) ==> Sound(a.step) }

  /** No other writer commits. */
  ghost predicate Quiet(others: Others) { forall a :: !Foreign(others, a) }

  ghost predicate Answered(calls: Calls, others: Others) {
    (forall i: nat :: calls.lookup(i)) && forall a :: Foreign(others, a) ==> a.lookup
  }

  /** A step of the block itself. */
  predicate OwnStep(blk: Block, s: Step) { s.Live? && s.tx in blk.txs && s.fees == blk.fees }

  /** What one call leaves behind. `run` is what was committed or tried since the snapshot, by the block
      and by others. The block was applied in full with every transaction marked, or it was rolled
      back: `revoked` were unmarked before, and if anything was restored they include every step
      of the block itself. */
  ghost predicate BlockDone(before: Db, legacy: MarkerDb, blk: Block, others: Others, run: seq<Attempt>, ev: Event,
                            applied: bool, after: Db)
  {
    && (forall a :: a in run ==> Sound(a.step) && (OwnStep(blk, a.step) || Foreign(others, a)))
    && (applied ==> after == RunAttempts(before, legacy, run) && AllMarked(legacy, blk, after.markers))
    && (!applied ==>
          && ev.Failed? && ev.during == StepsOf(run)
          && after == RolledBack(before, RunAttempts(before, legacy, run), ev.revoked, ev.restored)
          && (forall h :: h in ev.revoked ==> !IsApplied(before.markers, legacy, h))
          && (ev.restored != {} ==> forall a :: a in run ==> Foreign(others, a) || a.step.tx.hash in ev.revoked))
  }

  ghost predicate AllMarked(legacy: MarkerDb, blk: Block, markers: MarkerDb) {
    forall t :: t in blk.txs ==> IsApplied(markers, legacy, t.hash)
  }

  // ----- The course of a block, said in advance -----

  /** One call: where it starts, and everything it is given. */
  datatype Job = Job(before: Db, legacy: MarkerDb, blk: Block, carried: map<Address, U64>, appliedAt: int, calls: Calls,
                     others: Others)

  /** Transaction `i` is passed over: its hash was marked when the block started, or came earlier in it. */
  ghost predicate Skips(job: Job, i: nat)
    requires i < |job.blk.txs|
  {
    var h := job.blk.txs[i].hash;
    IsApplied(job.before.markers, job.legacy, h) || h in HashSet(job.blk.txs[..i])
  }

  function HashSet(txs: seq<Tx>): set<Hash> { set t | t in txs :: t.hash }

  /** The hashes of the block that were marked when it started. */
  function MarkedAtStart(job: Job): set<Hash> {
    set t | t in job.blk.txs && IsApplied(job.before.markers, job.legacy, t.hash) :: t.hash
  }

  function Own(job: Job, i: nat): Attempt
    requires i < |job.blk.txs|
  {
    Attempt(LiveStep(job.blk, job.blk.txs[i], job.carried, job.appliedAt), job.calls.lookup(i))
  }

  /** What has been tried when the first `i` transactions are behind it: theirs in block order, each
      after what other writers did in between. */
  ghost function Course(job: Job, i: nat): seq<Attempt>
    requires i <= |job.blk.txs|
  {
    if i == 0 then []
    else Course(job, i - 1) + job.others.between(i - 1) + if Skips(job, i - 1) then [] else [Own(job, i - 1)]
  }

  ghost function OwnHashes(job: Job, i: nat): seq<Hash>
    requires i <= |job.blk.txs|
  {
    if i == 0 then []
    else OwnHashes(job, i - 1) + if Skips(job, i - 1) then [] else [job.blk.txs[i - 1].hash]
  }

  /** Transaction `k` is not passed over, and refused where its turn comes. */
  ghost predicate RefusedAt(job: Job, k: nat)
    requires k < |job.blk.txs|
  {
    && !Skips(job, k)
    && AttemptTx(RunAttempts(job.before, job.legacy, Course(job, k) + job.others.between(k)), job.legacy, job.blk.fees,
                 job.blk.txs[k], job.blk.timestamp, job.carried, job.appliedAt, job.calls.lookup(k),
                 job.calls.up(k)).Refused?
  }

  /** Transaction `k` is the first to be refused. The markers of the block's own transactions are revoked
      in chunks of 500 as far as the database lets it, and only after the last one are accounts restored:
      all of the snapshot, unless a write fails. */
  ghost predicate FailsAt(job: Job, k: nat, run: seq<Attempt>, ev: Event)
    requires Complete(job.blk)
  {
    && k < |job.blk.txs| && RefusedAt(job, k) && (forall j: nat :: j < k ==> !RefusedAt(job, j))
    && run == Course(job, k) + job.others.between(k) + job.others.late && ev.Failed?
    && Undoes(job, OwnHashes(job, k), ev.revoked, ev.restored)
  }

  ghost predicate Undoes(job: Job, own: seq<Hash>, revoked: seq<Hash>, restored: set<Address>)
    requires Complete(job.blk)
  {
    var n := Min(|own|, 500 * job.calls.revokeOk);
    && revoked == own[..n] && (n < |own| ==> restored == {})
    && restored <= Affected(job.blk) && restored !! job.calls.failing
    && (n == |own| && Affected(job.blk) !! job.calls.failing ==> restored == Affected(job.blk))
  }

  /** How the call ends: without the prefilter nothing is tried; otherwise the block is applied if and
      only if no transaction is refused. */
  ghost predicate Ends(job: Job, applied: bool, run: seq<Attempt>, ev: Event)
    requires Complete(job.blk)
  {
    if !job.calls.prefilter then !applied && run == []
    else if applied then run == Course(job, |job.blk.txs|) && forall k: nat :: k < |job.blk.txs| ==> !RefusedAt(job, k)
    else exists k: nat :: FailsAt(job, k, run, ev)
  }

  /** `ProcessBlockTransactions`. `run` names what was tried since the snapshot, and on failure `ev`
      how far the rollback got; `Ends` says what both are. A block is rolled back exactly if a
      transaction is refused. If every lookup is answered or no other writer interferes, the run is
      the run of its steps. A validated block whose accounts are ready is applied if the database answers and nobody
      interferes, and a rollback finishes if the database answers. */
  method ProcessBlockTransactions(db: AccountsDb, legacy: MarkerDb, blk: Block, carried: map<Address, U64>,
                                  appliedAt: int, calls: Calls, others: Others,
                                  ghost allowNew: bool, ghost genuine: Tx -> bool)
    returns (applied: bool, ghost run: seq<Attempt>, ghost ev: Event)
    requires Complete(blk) && Clock(appliedAt) && SoundOthers(others)
    modifies db
    ensures BlockDone(old(db.State()), legacy, blk, others, run, ev, applied, db.State())
    ensures Ends(Job(old(db.State()), legacy, blk, carried, appliedAt, calls, others), applied, run, ev)
    ensures Quiet(others) || Answered(calls, others) ==> Plain(old(db.State()), legacy, run)
    ensures Expected(old(db.State()), legacy, blk, carried, allowNew, genuine) ==>
              Answers(calls, |blk.txs|) && Quiet(others) ==> applied
  {
    ghost var before := db.State();
    run, ev := [], Failed([], [], {});
    if !calls.prefilter {
      NothingDone(before, legacy, blk, others);
      return false, run, ev;
    }
    var snapshot := db.docs;
    var liveApplied := FilterProcessedTxMarkers(db.markers, legacy, Hashes(blk.txs));
    ghost var view := ViewOf(before, legacy, blk, carried, calls, others, allowNew, genuine);
    FirstStep(view, carried, appliedAt, calls, liveApplied, allowNew, genuine);
    FirstKnown(JobOf(view, carried, appliedAt, calls), liveApplied);
    applied, run, ev := ProcessPending(db, legacy, blk, carried, appliedAt, liveApplied, snapshot, calls, others, view);
  }

  /** What follows the snapshot and the reading of the markers. */
  method ProcessPending(db: AccountsDb, legacy: MarkerDb, blk: Block, carried: map<Address, U64>, appliedAt: int,
                        liveApplied: set<Hash>, snapshot: Docs, calls: Calls, others: Others, ghost v: View)
    returns (applied: bool, ghost run: seq<Attempt>, ghost ev: Event)
    requires Complete(blk) && Fits(v, carried, appliedAt, calls) && v.legacy == legacy && v.blk == blk
    requires v.others == others && v.before.docs == snapshot
    requires calls.prefilter && OnCourse(v, carried, appliedAt, calls, 0, liveApplied, [], [], db.State())
    modifies db
    ensures BlockDone(v.before, legacy, blk, others, run, ev, applied, db.State())
    ensures Ends(JobOf(v, carried, appliedAt, calls), applied, run, ev)
    ensures v.plain ==> Plain(v.before, legacy, run)
    ensures v.expected ==> applied
  {
    ghost var job := JobOf(v, carried, appliedAt, calls);
    var refused, done;
    ghost var k;
    refused, done, run, k := ExecuteAll(db, legacy, blk, carried, appliedAt, liveApplied, calls, others, v);
    ev := Failed([], [], {});
    if refused {
      LateAnswered(v, carried, appliedAt, calls);
      run, ev := RollBlockBack(db, blk, done, snapshot, calls, others, legacy, v, run, job);
      assert FailsAt(job, k, run, ev);
    }
    applied := !refused;
  }

  ghost predicate Answers(calls: Calls, n: nat) { calls.prefilter && forall i: nat :: i < n ==> calls.up(i) }

  /** What the proof keeps of a call: where it started, whether others are quiet, whether the run is
      known to be plain, and whether the block is expected to be applied. */
  datatype View = View(before: Db, legacy: MarkerDb, blk: Block, others: Others, quiet: bool, plain: bool,
                       expected: bool)

  ghost predicate Fits(v: View, carried: map<Address, U64>, appliedAt: int, calls: Calls) {
    && SoundOthers(v.others) && (v.quiet <==> Quiet(v.others)) && (v.expected ==> v.quiet) && (v.quiet ==> v.plain)
    && (v.plain ==> v.quiet || Answered(calls, v.others)) && (v.expected ==> Answers(calls, |v.blk.txs|))
    && (v.expected ==> Smooth(v.before, v.legacy, v.blk, carried, appliedAt)) && Clock(appliedAt)
  }

  ghost function ViewOf(before: Db, legacy: MarkerDb, blk: Block, carried: map<Address, U64>, calls: Calls,
                        others: Others, allowNew: bool, genuine: Tx -> bool): View {
    View(before, legacy, blk, others, Quiet(others), Quiet(others) || Answered(calls, others),
         && Expected(before, legacy, blk, carried, allowNew, genuine)
         && Answers(calls, |blk.txs|) && Quiet(others))
  }

  ghost function JobOf(v: View, carried: map<Address, U64>, appliedAt: int, calls: Calls): Job {
    Job(v.before, v.legacy, v.blk, carried, appliedAt, calls, v.others)
  }

  lemma LateAnswered(v: View, carried: map<Address, U64>, appliedAt: int, calls: Calls)
    requires Fits(v, carried, appliedAt, calls)
    ensures v.plain ==> forall a :: a in v.others.late ==> a.lookup
  {
    assert forall a :: a in v.others.late ==> Foreign(v.others, a);
  }

  /** The other writers of one moment. */
  method LetOthersRun(db: AccountsDb, legacy: MarkerDb, attempts: seq<Attempt>)
    modifies db
    ensures db.State() == RunAttempts(old(db.State()), legacy, attempts)
  {
    var next := RunAttempts(Db(db.docs, db.markers), legacy, attempts);
    db.docs, db.markers := next.docs, next.markers;
  }

  /** The transactions in order, skipping what was marked at the start and repeats of a hash, until
      the first refusal. */
  method ExecuteAll(db: AccountsDb, legacy: MarkerDb, blk: Block, carried: map<Address, U64>, appliedAt: int,
                    liveApplied: set<Hash>, calls: Calls, others: Others, ghost v: View)
    returns (refused: bool, done: seq<Hash>, ghost run: seq<Attempt>, ghost k: nat)
    requires Fits(v, carried, appliedAt, calls) && v.legacy == legacy && v.blk == blk && v.others == others
    requires OnCourse(v, carried, appliedAt, calls, 0, liveApplied, [], [], db.State())
    modifies db
    ensures RanUntil(v, JobOf(v, carried, appliedAt, calls), refused, k, done, run, db.State())
  {
    done, run := [], [];
    var known := liveApplied;
    for i := 0 to |blk.txs|
      invariant OnCourse(v, carried, appliedAt, calls, i, known, done, run, db.State())
    {
      refused, known, done, run := ExecuteTurn(db, legacy, blk, carried, appliedAt, i, known, done, calls, others, v,
                                               run);
      if refused {
        return true, done, run, i;
      }
    }
    OnCourseDone(v, carried, appliedAt, calls, known, done, run, db.State());
    refused, k := false, |blk.txs|;
  }

  /** One turn: the other writers, then the transaction. */
  method ExecuteTurn(db: AccountsDb, legacy: MarkerDb, blk: Block, carried: map<Address, U64>, appliedAt: int, i: nat,
                     known: set<Hash>, done: seq<Hash>, calls: Calls, others: Others, ghost v: View,
                     ghost run: seq<Attempt>)
    returns (refused: bool, known': set<Hash>, done': seq<Hash>, ghost run': seq<Attempt>)
    requires Fits(v, carried, appliedAt, calls) && v.legacy == legacy && v.blk == blk && v.others == others
    requires i < |blk.txs| && OnCourse(v, carried, appliedAt, calls, i, known, done, run, db.State())
    modifies db
    ensures refused ==> RanUntil(v, JobOf(v, carried, appliedAt, calls), true, i, done', run', db.State())
    ensures !refused ==> OnCourse(v, carried, appliedAt, calls, i + 1, known', done', run', db.State())
  {
    ghost var between := Interleave(db, legacy, carried, appliedAt, i, known, done, calls, others, v, run);
    refused, known', done', run' := ExecuteNext(db, legacy, blk, carried, appliedAt, i, known, done, calls, v, between);
  }

  /** The other writers before transaction `i`. */
  method Interleave(db: AccountsDb, legacy: MarkerDb, ghost carried: map<Address, U64>, ghost appliedAt: int, i: nat,
                    ghost known: set<Hash>, ghost done: seq<Hash>, ghost calls: Calls, others: Others, ghost v: View,
                    ghost run: seq<Attempt>)
    returns (ghost run': seq<Attempt>)
    requires Fits(v, carried, appliedAt, calls) && v.legacy == legacy && v.others == others && i < |v.blk.txs|
    requires InStep(v, carried, appliedAt, i, known, done, run, db.State())
    modifies db
    ensures InStep(v, carried, appliedAt, i, known, done, run', db.State())
    ensures run' == run + others.between(i)
  {
    LetOthersRun(db, legacy, others.between(i));
    OthersStep(v, carried, appliedAt, calls, i, known, done, run, db.State());
    run' := run + others.between(i);
  }

  /** One transaction of the loop. It is skipped if its hash is among the `known`: marked when the
      block started, or already met in it. Otherwise it is refused exactly if its attempt is; one
      that another writer has applied in the meantime counts as done. */
  method ExecuteNext(db: AccountsDb, legacy: MarkerDb, blk: Block, carried: map<Address, U64>, appliedAt: int, i: nat,
                     known: set<Hash>, done: seq<Hash>, calls: Calls, ghost v: View, ghost run: seq<Attempt>)
    returns (refused: bool, known': set<Hash>, done': seq<Hash>, ghost run': seq<Attempt>)
    requires Fits(v, carried, appliedAt, calls) && v.legacy == legacy && v.blk == blk && i < |blk.txs|
    requires InStep(v, carried, appliedAt, i, known, done, run, db.State())
    requires var job := JobOf(v, carried, appliedAt, calls);
             Knows(job, i, known, done) && run == Course(job, i) + v.others.between(i)
    modifies db
    ensures refused <==>
              && blk.txs[i].hash !in known
              && AttemptTx(old(db.State()), legacy, blk.fees, blk.txs[i], blk.timestamp, carried, appliedAt,
                           calls.lookup(i), calls.up(i)).Refused?
    ensures refused ==> !v.expected && Ran(v, run', done', db.State())
    ensures !refused ==> InStep(v, carried, appliedAt, i + 1, known', done', run', db.State())
    ensures var job := JobOf(v, carried, appliedAt, calls);
            if refused then Halts(job, i, done', run')
            else !RefusedAt(job, i) && Knows(job, i + 1, known', done') && run' == Course(job, i + 1)
  {
    ghost var job := JobOf(v, carried, appliedAt, calls);
    var tx := blk.txs[i];
    refused, known', done', run' := false, known, done, run;
    if tx.hash in known {
      PassedOver(job, i, known, done, run);
      SkipStep(v, carried, appliedAt, calls, i, known, done, run, db.State());
      return;
    }
    ghost var mid := db.State();
    refused := db.ProcessTransaction(legacy, blk.fees, tx, blk.timestamp, carried, appliedAt, calls.lookup(i),
                                     calls.up(i));
    if refused {
      RefusedStep(v, carried, appliedAt, calls, i, known, done, run, mid);
      KnownExactly(job, i, known, done);
    } else {
      NextStep(v, carried, appliedAt, calls, i, known, done, run, mid, db.State());
      Tried(job, i, known, done, run);
      known', done' := known + {tx.hash}, done + [tx.hash];
      run' := run + [Attempt(LiveStep(blk, tx, carried, appliedAt), calls.lookup(i))];
    }
  }

  // ----- The loop keeps to the course -----

  ghost predicate NoneRefused(job: Job, k: nat)
    requires k <= |job.blk.txs|
  {
    forall j: nat :: j < k ==> !RefusedAt(job, j)
  }

  /** Before transaction `i`: known are the hashes marked at the start and those of the first `i`, and
      `done` lists those that were tried. */
  ghost predicate Knows(job: Job, i: nat, known: set<Hash>, done: seq<Hash>) {
    && i <= |job.blk.txs| && done == OwnHashes(job, i)
    && known == MarkedAtStart(job) + HashSet(job.blk.txs[..i])
  }

  /** Before transaction `i`, nothing has been refused and what was tried is as foreseen. */
  ghost predicate OnCourse(v: View, carried: map<Address, U64>, appliedAt: int, calls: Calls, i: nat, known: set<Hash>,
                           done: seq<Hash>, run: seq<Attempt>, now: Db) {
    && InStep(v, carried, appliedAt, i, known, done, run, now)
    && var job := JobOf(v, carried, appliedAt, calls);
       Knows(job, i, known, done) && run == Course(job, i) && NoneRefused(job, i)
  }

  /** The loop ended at transaction `k`, which was refused, or behind the last one. */
  ghost predicate RanUntil(v: View, job: Job, refused: bool, k: nat, done: seq<Hash>, run: seq<Attempt>, now: Db) {
    && Ran(v, run, done, now) && k <= |job.blk.txs| && NoneRefused(job, k)
    && (if refused then !v.expected && Halts(job, k, done, run)
        else k == |job.blk.txs| && run == Course(job, k)
             && BlockDone(v.before, v.legacy, v.blk, v.others, run, Failed([], [], {}), true, now))
  }

  lemma OnCourseDone(v: View, carried: map<Address, U64>, appliedAt: int, calls: Calls, known: set<Hash>,
                     done: seq<Hash>, run: seq<Attempt>, now: Db)
    requires OnCourse(v, carried, appliedAt, calls, |v.blk.txs|, known, done, run, now)
    ensures RanUntil(v, JobOf(v, carried, appliedAt, calls), false, |v.blk.txs|, done, run, now)
  {
    InStepDone(v, carried, appliedAt, known, done, run, now);
  }

  /** Transaction `k` has just been refused. */
  ghost predicate Halts(job: Job, k: nat, done: seq<Hash>, run: seq<Attempt>) {
    k < |job.blk.txs| && RefusedAt(job, k) && done == OwnHashes(job, k)
    && run == Course(job, k) + job.others.between(k)
  }

  lemma FirstKnown(job: Job, liveApplied: set<Hash>)
    requires liveApplied == set h | h in Hashes(job.blk.txs) && IsApplied(job.before.markers, job.legacy, h)
    ensures Knows(job, 0, liveApplied, [])
  {
    HashesMembers(job.blk.txs);
    assert job.blk.txs[..0] == [];
    assert liveApplied == MarkedAtStart(job);
  }

  /** The loop passes over a transaction exactly if it is known, and then knows nothing new. */
  lemma KnownExactly(job: Job, i: nat, known: set<Hash>, done: seq<Hash>)
    requires Knows(job, i, known, done) && i < |job.blk.txs|
    ensures job.blk.txs[i].hash in known <==> Skips(job, i)
    ensures Knows(job, i + 1, known + {job.blk.txs[i].hash},
                  if Skips(job, i) then done else done + [job.blk.txs[i].hash])
    ensures job.blk.txs[i].hash in known ==> known + {job.blk.txs[i].hash} == known
  {
    var txs := job.blk.txs;
    assert txs[i] in txs && txs[..i + 1] == txs[..i] + [txs[i]];
    assert HashSet(txs[..i + 1]) == HashSet(txs[..i]) + {txs[i].hash};
  }

  lemma PassedOver(job: Job, i: nat, known: set<Hash>, done: seq<Hash>, run: seq<Attempt>)
    requires Knows(job, i, known, done) && i < |job.blk.txs| && job.blk.txs[i].hash in known
    requires run == Course(job, i) + job.others.between(i)
    ensures !RefusedAt(job, i) && Knows(job, i + 1, known, done) && run == Course(job, i + 1)
  {
    KnownExactly(job, i, known, done);
    assert run + [] == run;
  }

  lemma Tried(job: Job, i: nat, known: set<Hash>, done: seq<Hash>, run: seq<Attempt>)
    requires Knows(job, i, known, done) && i < |job.blk.txs| && job.blk.txs[i].hash !in known
    requires run == Course(job, i) + job.others.between(i)
    ensures Knows(job, i + 1, known + {job.blk.txs[i].hash}, done + [job.blk.txs[i].hash])
    ensures run + [Own(job, i)] == Course(job, i + 1)
  {
    KnownExactly(job, i, known, done);
  }

  // ----- The loop, one transaction at a time -----

  /** Among the hashes of the block, what was marked before is known, what is known is marked, and the
      first `i` are known. If nobody interferes, the known are exactly the marked. */
  ghost predicate MarkedUpTo(v: View, i: nat, known: set<Hash>, markers: MarkerDb) {
    && (forall h :: h in Hashes(v.blk.txs) && IsApplied(v.before.markers, v.legacy, h) ==> h in known)
    && (forall h :: h in Hashes(v.blk.txs) && h in known ==> IsApplied(markers, v.legacy, h))
    && (v.quiet ==> forall h :: h in Hashes(v.blk.txs) && IsApplied(markers, v.legacy, h) ==> h in known)
    && forall j :: 0 <= j < i && j < |v.blk.txs| ==> v.blk.txs[j].hash in known
  }

  /** `run` led here, from sound attempts of the block and of others. `done` lists the hashes of the
      block's own for revocation, and nothing that was marked before. */
  ghost predicate Ran(v: View, run: seq<Attempt>, done: seq<Hash>, now: Db) {
    && (forall a :: a in run ==>
          Sound(a.step) && (Foreign(v.others, a) || (OwnStep(v.blk, a.step) && a.step.tx.hash in done)))
    && (forall h :: h in done ==> !IsApplied(v.before.markers, v.legacy, h)) && |done| <= |v.blk.txs|
    && now == RunAttempts(v.before, v.legacy, run) && (v.plain ==> Plain(v.before, v.legacy, run))
  }

  /** Before transaction `i`. An expected block has executed every transaction so far. */
  ghost predicate InStep(v: View, carried: map<Address, U64>, appliedAt: int, i: nat, known: set<Hash>, done: seq<Hash>,
                         run: seq<Attempt>, now: Db) {
    && i <= |v.blk.txs| && |done| <= i && Ran(v, run, done, now) && MarkedUpTo(v, i, known, now.markers)
    && (v.expected ==> OnTrack(v.blk, carried, appliedAt, i, known, StepsOf(run)))
  }

  lemma FirstStep(v: View, carried: map<Address, U64>, appliedAt: int, calls: Calls, liveApplied: set<Hash>,
                  allowNew: bool, genuine: Tx -> bool)
    requires liveApplied == set h | h in Hashes(v.blk.txs) && IsApplied(v.before.markers, v.legacy, h)
    requires v == ViewOf(v.before, v.legacy, v.blk, carried, calls, v.others, allowNew, genuine)
    requires Clock(appliedAt) && SoundOthers(v.others)
    ensures Fits(v, carried, appliedAt, calls) && InStep(v, carried, appliedAt, 0, liveApplied, [], [], v.before)
  {
    assert v.blk.txs[..0] == [];
    if v.expected {
      ExpectedIsSmooth(v.before, v.legacy, v.blk, carried, appliedAt, allowNew, genuine);
      forall h | h in Hashes(v.blk.txs) ensures !IsApplied(v.before.markers, v.legacy, h) {
        var k :| 0 <= k < |v.blk.txs| && Hashes(v.blk.txs)[k] == h;
        assert v.blk.txs[k] in v.blk.txs;
      }
    }
  }

  lemma SkipStep(v: View, carried: map<Address, U64>, appliedAt: int, calls: Calls, i: nat, known: set<Hash>,
                 done: seq<Hash>, run: seq<Attempt>, now: Db)
    requires Fits(v, carried, appliedAt, calls) && i < |v.blk.txs| && v.blk.txs[i].hash in known
    requires InStep(v, carried, appliedAt, i, known, done, run, now)
    ensures !v.expected && InStep(v, carried, appliedAt, i + 1, known, done, run, now)
  {}

  /** What other writers commit in between. */
  lemma OthersStep(v: View, carried: map<Address, U64>, appliedAt: int, calls: Calls, i: nat, known: set<Hash>,
                   done: seq<Hash>, run: seq<Attempt>, now: Db)
    requires Fits(v, carried, appliedAt, calls) && i < |v.blk.txs|
    requires InStep(v, carried, appliedAt, i, known, done, run, RunAttempts(v.before, v.legacy, run))
    requires now == RunAttempts(RunAttempts(v.before, v.legacy, run), v.legacy, v.others.between(i))
    ensures InStep(v, carried, appliedAt, i, known, done, run + v.others.between(i), now)
  {
    var more := v.others.between(i);
    assert forall a :: a in more ==> Foreign(v.others, a);
    if v.quiet {
      FirstIsThere(more);
      assert run + more == run;
    } else {
      OthersRan(v, run, done, more, now);
      OthersMarked(v, i, known, RunAttempts(v.before, v.legacy, run), more, now);
    }
  }

  lemma FirstIsThere(more: seq<Attempt>)
    ensures more == [] || more[0] in more
  {}

  lemma OthersRan(v: View, run: seq<Attempt>, done: seq<Hash>, more: seq<Attempt>, now: Db)
    requires Ran(v, run, done, RunAttempts(v.before, v.legacy, run)) && SoundOthers(v.others)
    requires forall a :: a in more ==> Foreign(v.others, a) && (v.plain ==> a.lookup)
    requires now == RunAttempts(RunAttempts(v.before, v.legacy, run), v.legacy, more)
    ensures Ran(v, run + more, done, now)
  {
    AttemptsConcat(v.before, v.legacy, run, more);
    if v.plain {
      LookupsSucceed(v.before, v.legacy, run, more);
    }
  }

  lemma OthersMarked(v: View, i: nat, known: set<Hash>, mid: Db, more: seq<Attempt>, now: Db)
    requires MarkedUpTo(v, i, known, mid.markers) && !v.quiet && forall a :: a in more ==> Sound(a.step)
    requires now == RunAttempts(mid, v.legacy, more)
    ensures MarkedUpTo(v, i, known, now.markers)
  {
    forall h | h in Hashes(v.blk.txs) && h in known ensures IsApplied(now.markers, v.legacy, h) {
      AttemptsKeepMarkers(mid, v.legacy, more, h);
    }
  }

  lemma UnknownWasUnmarked(v: View, i: nat, known: set<Hash>, markers: MarkerDb)
    requires MarkedUpTo(v, i, known, markers) && i < |v.blk.txs| && v.blk.txs[i].hash !in known
    ensures !IsApplied(v.before.markers, v.legacy, v.blk.txs[i].hash)
    ensures v.quiet ==> !IsApplied(markers, v.legacy, v.blk.txs[i].hash)
  {
    assert Hashes(v.blk.txs)[i] == v.blk.txs[i].hash;
  }

  /** An expected block is not refused. */
  lemma RefusedStep(v: View, carried: map<Address, U64>, appliedAt: int, calls: Calls, i: nat, known: set<Hash>,
                    done: seq<Hash>, run: seq<Attempt>, mid: Db)
    requires Fits(v, carried, appliedAt, calls) && i < |v.blk.txs| && v.blk.txs[i].hash !in known
    requires InStep(v, carried, appliedAt, i, known, done, run, mid)
    requires AttemptTx(mid, v.legacy, v.blk.fees, v.blk.txs[i], v.blk.timestamp, carried, appliedAt, calls.lookup(i),
                       calls.up(i)).Refused?
    ensures !v.expected
  {
    UnknownWasUnmarked(v, i, known, mid.markers);
    if v.expected {
      OnTrackCommits(v.before, v.legacy, v.blk, carried, appliedAt, i, known, StepsOf(run), calls.lookup(i));
      assert false;
    }
  }

  lemma OnTrackCommits(before: Db, legacy: MarkerDb, blk: Block, carried: map<Address, U64>, appliedAt: int, i: nat,
                       known: set<Hash>, steps: seq<Step>, lookup: bool)
    requires Smooth(before, legacy, blk, carried, appliedAt) && i < |blk.txs|
    requires OnTrack(blk, carried, appliedAt, i, known, steps)
    ensures AttemptTx(Run(before, legacy, steps), legacy, blk.fees, blk.txs[i], blk.timestamp, carried, appliedAt,
                      lookup, true).Committed?
  {
    assert ProcessTx(Run(before, legacy, steps), legacy, blk.fees, blk.txs[i], blk.timestamp, carried,
                     appliedAt).Committed?;
  }

  lemma NextStep(v: View, carried: map<Address, U64>, appliedAt: int, calls: Calls, i: nat, known: set<Hash>,
                 done: seq<Hash>, run: seq<Attempt>, mid: Db, now: Db)
    requires Fits(v, carried, appliedAt, calls) && i < |v.blk.txs| && v.blk.txs[i].hash !in known
    requires InStep(v, carried, appliedAt, i, known, done, run, mid)
    requires var r := AttemptTx(mid, v.legacy, v.blk.fees, v.blk.txs[i], v.blk.timestamp, carried, appliedAt,
                                calls.lookup(i), calls.up(i));
             !r.Refused? && now == if r.Committed? then r.db else mid
    ensures InStep(v, carried, appliedAt, i + 1, known + {v.blk.txs[i].hash}, done + [v.blk.txs[i].hash],
                   run + [Attempt(LiveStep(v.blk, v.blk.txs[i], carried, appliedAt), calls.lookup(i))], now)
  {
    var tx := v.blk.txs[i];
    var a := Attempt(LiveStep(v.blk, tx, carried, appliedAt), calls.lookup(i));
    UnknownWasUnmarked(v, i, known, mid.markers);
    AttemptMarks(mid, v.legacy, v.blk, tx, carried, appliedAt, calls.lookup(i), calls.up(i), now);
    NextMarked(v, i, known, mid.markers, now.markers);
    NextRan(v, run, done, mid, tx, a, now);
    OneAttempt(v.before, v.legacy, run, a);
    TrackOneMore(v.blk, carried, appliedAt, i, known, StepsOf(run));
  }

  lemma AttemptMarks(mid: Db, legacy: MarkerDb, blk: Block, tx: Tx, carried: map<Address, U64>, appliedAt: int,
                     lookup: bool, up: bool, now: Db)
    requires Clock(appliedAt)
    requires var r := AttemptTx(mid, legacy, blk.fees, tx, blk.timestamp, carried, appliedAt, lookup, up);
             !r.Refused? && now == if r.Committed? then r.db else mid
    ensures forall h :: IsApplied(now.markers, legacy, h) <==> IsApplied(mid.markers, legacy, h) || h == tx.hash
    ensures now == ExecAttempt(mid, legacy, Attempt(LiveStep(blk, tx, carried, appliedAt), lookup))
  {
    forall h ensures IsApplied(now.markers, legacy, h) <==> IsApplied(mid.markers, legacy, h) || h == tx.hash {
      MarkReads(mid.markers, legacy, [tx.hash], appliedAt, h);
    }
  }

  lemma NextMarked(v: View, i: nat, known: set<Hash>, mid: MarkerDb, now: MarkerDb)
    requires MarkedUpTo(v, i, known, mid) && i < |v.blk.txs|
    requires forall h :: IsApplied(now, v.legacy, h) <==> IsApplied(mid, v.legacy, h) || h == v.blk.txs[i].hash
    ensures MarkedUpTo(v, i + 1, known + {v.blk.txs[i].hash}, now)
  {}

  lemma NextRan(v: View, run: seq<Attempt>, done: seq<Hash>, mid: Db, tx: Tx, a: Attempt, now: Db)
    requires Ran(v, run, done, mid) && |done| < |v.blk.txs| && Sound(a.step) && OwnStep(v.blk, a.step)
             && a.step.tx == tx
    requires !IsApplied(v.before.markers, v.legacy, tx.hash) && now == ExecAttempt(mid, v.legacy, a)
    requires v.plain ==> a.lookup || !IsApplied(mid.markers, v.legacy, tx.hash)
    ensures Ran(v, run + [a], done + [tx.hash], now)
  {
    OneAttempt(v.before, v.legacy, run, a);
    if v.plain {
      PlainMore(v.before, v.legacy, run, a);
    }
    forall b | b in run + [a]
      ensures Sound(b.step)
      ensures Foreign(v.others, b) || (OwnStep(v.blk, b.step) && b.step.tx.hash in done + [tx.hash])
    {
      assert b in run || b == a;
    }
  }

  lemma InStepDone(v: View, carried: map<Address, U64>, appliedAt: int, known: set<Hash>, done: seq<Hash>,
                   run: seq<Attempt>, now: Db)
    requires InStep(v, carried, appliedAt, |v.blk.txs|, known, done, run, now)
    ensures BlockDone(v.before, v.legacy, v.blk, v.others, run, Failed([], [], {}), true, now)
  {
    HashesMembers(v.blk.txs);
  }

  lemma NothingDone(before: Db, legacy: MarkerDb, blk: Block, others: Others)
    ensures BlockDone(before, legacy, blk, others, [], Failed([], [], {}), false, before)
  {
    assert Restore(before.docs, before.docs, {}) == before.docs;
    assert Mark(before.markers, [], REVOKED) == before.markers;
  }

  /** A validated block whose accounts are ready for it. */
  ghost predicate Expected(db: Db, legacy: MarkerDb, blk: Block, carried: map<Address, U64>, allowNew: bool,
                           genuine: Tx -> bool) {
    Admitted(db, legacy, blk.fees, blk.txs, carried) && V.Accepted(db.docs, blk.txs, allowNew, genuine)
  }

  /** The first `i` transactions have all been executed, none skipped. */
  ghost predicate OnTrack(blk: Block, carried: map<Address, U64>, appliedAt: int, i: nat, seen: set<Hash>,
                          run: seq<Step>) {
    && i <= |blk.txs| && run == LiveSteps(blk.fees, blk.txs[..i], blk.timestamp, carried, appliedAt)
    && forall h :: h in seen ==> exists j :: 0 <= j < i && blk.txs[j].hash == h
  }

  /** As long as nothing was skipped, the next transaction is not yet known and commits. */
  ghost predicate Smooth(before: Db, legacy: MarkerDb, blk: Block, carried: map<Address, U64>, appliedAt: int) {
    forall i: nat, seen: set<Hash>, run: seq<Step> ::
      i < |blk.txs| && OnTrack(blk, carried, appliedAt, i, seen, run) ==>
        && blk.txs[i].hash !in seen
        && ProcessTx(Run(before, legacy, run), legacy, blk.fees, blk.txs[i], blk.timestamp, carried,
                     appliedAt).Committed?
  }

  lemma ExpectedIsSmooth(before: Db, legacy: MarkerDb, blk: Block, carried: map<Address, U64>, appliedAt: int,
                         allowNew: bool, genuine: Tx -> bool)
    requires Expected(before, legacy, blk, carried, allowNew, genuine) && Clock(appliedAt)
    ensures Smooth(before, legacy, blk, carried, appliedAt)
  {
    forall i: nat, seen: set<Hash>, run: seq<Step> | i < |blk.txs| && OnTrack(blk, carried, appliedAt, i, seen, run)
      ensures blk.txs[i].hash !in seen
      ensures ProcessTx(Run(before, legacy, run), legacy, blk.fees, blk.txs[i], blk.timestamp, carried,
                        appliedAt).Committed?
    {
      AcceptedBlockCommits(before, legacy, blk.fees, blk.txs, allowNew, genuine, blk.timestamp, carried, appliedAt, i);
    }
  }

  lemma TrackOneMore(blk: Block, carried: map<Address, U64>, appliedAt: int, i: nat, seen: set<Hash>, run: seq<Step>)
    requires i < |blk.txs|
    ensures OnTrack(blk, carried, appliedAt, i, seen, run) ==>
              OnTrack(blk, carried, appliedAt, i + 1, seen + {blk.txs[i].hash},
                      run + [LiveStep(blk, blk.txs[i], carried, appliedAt)])
  {
    StepsSnoc(blk.fees, blk.txs, i, blk.timestamp, carried, appliedAt);
  }

  // ----- The rollback -----

  /** Revoke first; restore only once every marker is revoked. Other writers may have committed since
      the refusal. */
  method RollBlockBack(db: AccountsDb, blk: Block, done: seq<Hash>, snapshot: Docs, calls: Calls, others: Others,
                       legacy: MarkerDb, ghost v: View, ghost run: seq<Attempt>, ghost job: Job)
    returns (ghost run': seq<Attempt>, ghost ev: Event)
    requires Complete(blk) && v.legacy == legacy && v.blk == blk && v.others == others && SoundOthers(others)
    requires Ran(v, run, done, db.State()) && v.before.docs == snapshot && job.blk == blk && job.calls == calls
    requires v.plain ==> forall a :: a in others.late ==> a.lookup
    modifies db
    ensures BlockDone(v.before, legacy, blk, others, run', ev, false, db.State()) && run' == run + others.late
    ensures v.plain ==> Plain(v.before, legacy, run')
    ensures ev.Failed? && Undoes(job, done, ev.revoked, ev.restored)
  {
    LetOthersRun(db, legacy, others.late);
    OthersRan(v, run, done, others.late, db.State());
    run' := run + others.late;
    var complete, n := db.RevokeTxProcessedMarkers(done, calls.revokeOk);
    if complete {
      var restored;
      db.docs, restored := RollbackState(db.docs, snapshot, Affected(blk), calls.failing);
      ev := Failed(StepsOf(run'), done[..n], restored);
      RolledBackInOrder(v, run', done, n, restored, db.State());
    } else {
      assert Restore(db.docs, snapshot, {}) == db.docs;
      ev := Failed(StepsOf(run'), done[..n], {});
      RolledBackInOrder(v, run', done, n, {}, db.State());
    }
  }

  lemma RolledBackInOrder(v: View, run: seq<Attempt>, done: seq<Hash>, n: nat, restored: set<Address>, now: Db)
    requires Ran(v, run, done, RunAttempts(v.before, v.legacy, run)) && n <= |done| && (restored != {} ==> n == |done|)
    requires now == RolledBack(v.before, RunAttempts(v.before, v.legacy, run), done[..n], restored)
    ensures BlockDone(v.before, v.legacy, v.blk, v.others, run, Failed(StepsOf(run), done[..n], restored), false, now)
  {
    if n == |done| {
      assert done[..n] == done;
    }
  }

  // ----- What a failed block is -----

  /** What other writers committed since the snapshot and touches a restored account is revoked. */
  ghost predicate OthersApart(before: Db, legacy: MarkerDb, others: Others, run: seq<Attempt>, ev: Event)
    requires ev.Failed?
  {
    forall a, e :: a in run && Foreign(others, a) && Carries(a.step, e) && CommittedBy(before, legacy, ev.during, e) ==>
      e.hash in ev.revoked || Touched(e) !! ev.restored
  }

  lemma {:induction false} StepOfRun(run: seq<Attempt>, s: Step)
    ensures s in StepsOf(run) <==> exists a :: a in run && a.step == s
  {
    if run != [] {
      var front, last := run[..|run| - 1], run[|run| - 1];
      assert forall a :: a in run <==> a in front || a == last;
      StepOfRun(front, s);
    }
  }

  /** A failed block whose run is the run of its steps is one event of a run with rollbacks, and it is
      orderly, so that nothing is skipped, if and only if the others kept apart; if nobody
      interferes it always is. */
  lemma FailedBlockExactly(before: Db, legacy: MarkerDb, blk: Block, others: Others, run: seq<Attempt>, ev: Event,
                           after: Db)
    requires BlockDone(before, legacy, blk, others, run, ev, false, after) && Plain(before, legacy, run)
    ensures after == ExecEvent(before, legacy, ev)
    ensures Orderly(before, legacy, ev) <==> OthersApart(before, legacy, others, run, ev)
    ensures Quiet(others) ==> Orderly(before, legacy, ev)
  {
    if OthersApart(before, legacy, others, run, ev) {
      forall e | CommittedBy(before, legacy, ev.during, e) ensures e.hash in ev.revoked || Touched(e) !! ev.restored {
        var s :| s in ev.during && Carries(s, e);
        StepOfRun(run, s);
        var a :| a in run && a.step == s;
        if !Foreign(others, a) && ev.restored != {} {
          assert a.step.tx.hash in ev.revoked;
        }
      }
    }
  }

  /** Undisturbed, without weighted recipients, and with its whole snapshot restored, it is undone. */
  lemma FailedBlockUndone(before: Db, legacy: MarkerDb, blk: Block, others: Others, run: seq<Attempt>, ev: Event,
                          after: Db)
    requires Complete(blk) && BlockDone(before, legacy, blk, others, run, ev, false, after)
             && Plain(before, legacy, run)
    requires Quiet(others) && blk.fees.recipients == [] && (run == [] || ev.restored == Affected(blk))
    ensures Finished(before, legacy, ev)
  {
    forall s | s in ev.during ensures OwnStep(blk, s) && (run == [] || s.tx.hash in ev.revoked) {
      StepOfRun(run, s);
      var a :| a in run && a.step == s;
      assert blk.fees.coinbase.value in Affected(blk);
    }
    forall e | CommittedBy(before, legacy, ev.during, e) ensures e.hash in ev.revoked && Touched(e) <= ev.restored {
      var s :| s in ev.during && Carries(s, e);
      StepOfRun(run, s);
      TouchedIsAffected(blk, s.tx);
    }
    OpenedIsAffected(before, legacy, blk, ev.during);
    if run == [] {
      assert ev.during == [];
    }
  }

  lemma TouchedIsAffected(blk: Block, tx: Tx)
    requires Complete(blk) && tx in blk.txs && blk.fees.recipients == []
    ensures Touched(EffectOf(blk.fees, tx)) <= Affected(blk)
  {
    var e := EffectOf(blk.fees, tx);
    CreditsGoToTargets(GasFee(tx), blk.fees.coinbase.value, blk.fees.recipients);
    forall c | c in e.credits ensures c.addr in Affected(blk) {
      assert c in ReceiverCredits(tx) || c in FeeCredits(blk.fees, GasFee(tx));
    }
  }

  lemma {:induction false} OpenedIsAffected(before: Db, legacy: MarkerDb, blk: Block, run: seq<Step>)
    requires Complete(blk) && forall s :: s in run ==> s.Live? && s.tx in blk.txs
    ensures RunSlack(before, legacy, run).created <= Affected(blk)
  {
    if run != [] {
      OpenedIsAffected(before, legacy, blk, run[..|run| - 1]);
      assert run[|run| - 1] in run;
    }
  }
}

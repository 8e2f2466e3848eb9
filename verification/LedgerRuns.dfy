/** Whole runs: any mix of live commits, reconciliation commits, replays and crashes. */
module LedgerRuns {
  import opened Types
  import opened Decimal
  import opened Deltas
  import opened Partition
  import opened Markers
  import opened Ledger
  import opened Documents
  import opened LedgerMeaning

  // ----- One commit at a time -----

  /** The transactions of `log` are new, distinct, and exactly what was marked since `before`. */
  ghost predicate MarksExactly(before: MarkerDb, legacy: MarkerDb, log: seq<Effect>, after: MarkerDb) {
    && (forall i, j :: 0 <= i < j < |log| ==> log[i].hash != log[j].hash)
    && (forall e :: e in log ==> !IsApplied(before, legacy, e.hash))
    && (forall h: Hash :: IsApplied(after, legacy, h) <==> IsApplied(before, legacy, h) || Logged(log, h))
  }

  ghost predicate Logged(log: seq<Effect>, h: Hash) { exists e :: e in log && e.hash == h }

  /** Applied since `base`. */
  predicate NewlyApplied(base: Db, legacy: MarkerDb, markers: MarkerDb, h: Hash) {
    IsApplied(markers, legacy, h) && !IsApplied(base.markers, legacy, h)
  }

  /** Marker and effect go together: the documents hold the effects of exactly the
      transactions that became marked, each once. */
  ghost predicate ExactlyOnce(before: Db, legacy: MarkerDb, log: seq<Effect>, slack: Slack, after: Db) {
    && Advances(before.docs, log, slack, after.docs)
    && MarksExactly(before.markers, legacy, log, after.markers)
    && Keyed(after.docs)
    && (forall x :: x in slack.wrapped ==> LastNonce(log, x))
  }

  /** `x` sent a transaction with the last nonce. */
  predicate LastNonce(log: seq<Effect>, x: Address) {
    exists e :: e in log && Sends(e, x) && e.sender.value.nonce == MAX_U64
  }

  lemma LastNonceJoins(a: seq<Effect>, b: seq<Effect>, x: Address)
    ensures LastNonce(a + b, x) <==> LastNonce(a, x) || LastNonce(b, x)
  {
    if LastNonce(a, x) {
      var e :| e in a && Sends(e, x) && e.sender.value.nonce == MAX_U64;
      assert e in a + b;
    }
    if LastNonce(b, x) {
      var e :| e in b && Sends(e, x) && e.sender.value.nonce == MAX_U64;
      assert e in a + b;
    }
  }

  lemma ExactlyOnceConcat(d0: Db, d1: Db, d2: Db, legacy: MarkerDb,
                          l1: seq<Effect>, s1: Slack, l2: seq<Effect>, s2: Slack)
    requires ExactlyOnce(d0, legacy, l1, s1, d1) && ExactlyOnce(d1, legacy, l2, s2, d2)
    ensures ExactlyOnce(d0, legacy, l1 + l2, Join(s1, s2), d2)
  {
    AdvancesConcat(d0.docs, l1, s1, d1.docs, l2, s2, d2.docs);
    MarksConcat(d0.markers, d1.markers, d2.markers, legacy, l1, l2);
    forall x | x in Join(s1, s2).wrapped ensures LastNonce(l1 + l2, x) {
      LastNonceJoins(l1, l2, x);
    }
  }

  lemma MarksConcat(m0: MarkerDb, m1: MarkerDb, m2: MarkerDb, legacy: MarkerDb, l1: seq<Effect>, l2: seq<Effect>)
    requires MarksExactly(m0, legacy, l1, m1) && MarksExactly(m1, legacy, l2, m2)
    ensures MarksExactly(m0, legacy, l1 + l2, m2)
  {
    var l := l1 + l2;
    forall i, j | 0 <= i < j < |l| ensures l[i].hash != l[j].hash {
      if i < |l1| <= j {
        assert l[i] in l1 && l[j] in l2;
        assert Logged(l1, l[i].hash);
      }
    }
    JoinLogged(l1, l2);
  }

  lemma MarkReads(markers: MarkerDb, legacy: MarkerDb, hs: seq<Hash>, v: int, h: Hash)
    requires IsInt64(v)
    ensures IsApplied(Mark(markers, hs, v), legacy, h)
            <==> if h in hs then v != REVOKED else IsApplied(markers, legacy, h)
  {
    EncodedMarkerReads(v);
  }

  /** A Unix timestamp: positive and within int64. */
  predicate Clock(t: int) { 0 < t && IsInt64(t) }

  lemma LogHashes(blk: Block, g: seq<Hash>)
    requires DistinctHashes(blk.txs) && forall h :: h in g ==> h in Hashes(blk.txs)
    ensures var log := EffectsOf(blk.fees, InGroup(blk.txs, g));
            && (forall i, j :: 0 <= i < j < |log| ==> log[i].hash != log[j].hash)
            && (forall h: Hash :: Logged(log, h) <==> h in g)
  {
    var txs := InGroup(blk.txs, g);
    var log := EffectsOf(blk.fees, txs);
    KeptDistinct(blk.txs, (set t | t in blk.txs && t.hash !in g :: t.hash));
    forall h: Hash | h in g ensures Logged(log, h) {
      var k :| 0 <= k < |blk.txs| && Hashes(blk.txs)[k] == h;
      assert blk.txs[k] in txs;
      LoggedEffect(blk.fees, txs, blk.txs[k]);
    }
    forall h: Hash | Logged(log, h) ensures h in g {
      var i :| 0 <= i < |log| && log[i].hash == h;
      assert txs[i] in txs;
    }
  }

  lemma LoggedEffect(fees: FeeTargets, txs: seq<Tx>, t: Tx)
    requires t in txs
    ensures Logged(EffectsOf(fees, txs), t.hash)
  {
    var i :| 0 <= i < |txs| && txs[i] == t;
    assert EffectsOf(fees, txs)[i] in EffectsOf(fees, txs);
  }

  lemma {:induction false} KeptDistinct(txs: seq<Tx>, skip: set<Hash>)
    requires DistinctHashes(txs)
    ensures DistinctHashes(Kept(txs, skip))
  {
    if txs != [] {
      var n := |txs| - 1;
      KeptDistinct(txs[..n], skip);
      var front := Kept(txs[..n], skip);
      forall i | 0 <= i < |front| ensures front[i].hash != txs[n].hash {
        assert front[i] in txs[..n];
      }
    }
  }

  /** A group commits exactly once: its effects and its markers, nothing else. */
  lemma GroupOnce(db: Db, legacy: MarkerDb, blk: Block, g: seq<Hash>, appliedAt: int)
    requires Keyed(db.docs) && DistinctHashes(blk.txs) && Clock(appliedAt)
    requires forall h :: h in g ==> h in Hashes(blk.txs) && !IsApplied(db.markers, legacy, h)
    requires CommitGroup(db, blk, g, appliedAt).Some?
    ensures ExactlyOnce(db, legacy, EffectsOf(blk.fees, InGroup(blk.txs, g)), TIGHT,
                        CommitGroup(db, blk, g, appliedAt).value)
    ensures StampedBy(blk, db.docs, EffectsOf(blk.fees, InGroup(blk.txs, g)),
                      CommitGroup(db, blk, g, appliedAt).value.docs)
  {
    GroupAdvances(db, blk, g, appliedAt);
    LogHashes(blk, g);
    var log := EffectsOf(blk.fees, InGroup(blk.txs, g));
    forall e | e in log ensures !IsApplied(db.markers, legacy, e.hash) {
      assert Logged(log, e.hash);
    }
    forall h: Hash ensures IsApplied(Mark(db.markers, g, appliedAt), legacy, h)
                           <==> IsApplied(db.markers, legacy, h) || Logged(log, h) {
      MarkReads(db.markers, legacy, g, appliedAt, h);
    }
  }

  lemma OnceNothing(db: Db, legacy: MarkerDb)
    requires Keyed(db.docs)
    ensures ExactlyOnce(db, legacy, [], TIGHT, db)
  {
    AdvancesNothing(db.docs);
  }

  predicate NoRepeats(hs: seq<Hash>) { forall i, j :: 0 <= i < j < |hs| ==> hs[i] != hs[j] }

  /** Pairwise-distinct hashes that are all still unmarked. */
  ghost predicate Outstanding(db: Db, legacy: MarkerDb, blk: Block, hs: seq<Hash>) {
    && NoRepeats(hs)
    && (forall h :: h in hs ==> h in Hashes(blk.txs) && !IsApplied(db.markers, legacy, h))
  }

  /** `r` is what is left after committing some of `groups` from `db`, and `log` says which
      transactions of the block that applied. */
  ghost predicate Outcome(db: Db, legacy: MarkerDb, blk: Block, groups: seq<seq<Hash>>, r: (Db, bool),
                          log: seq<Effect>) {
    && ExactlyOnce(db, legacy, log, TIGHT, r.0)
    && (r.1 ==> forall h: Hash :: h in Flatten(groups) <==> Logged(log, h))
    && FromBlock(blk, log) && StampedBy(blk, db.docs, log, r.0.docs)
  }

  /** Reconciling the transactions of `log` wrote the documents they touch at the time of the block. */
  ghost predicate StampedBy(blk: Block, before: Docs, log: seq<Effect>, after: Docs) {
    Stamped(before, TouchedBy(log), blk.timestamp * 1_000_000_000, false, map[], after)
  }

  ghost predicate FromBlock(blk: Block, log: seq<Effect>) {
    forall e :: e in log ==> exists t :: t in blk.txs && e == EffectOf(blk.fees, t)
  }

  lemma OutcomeStep(db: Db, next: Db, legacy: MarkerDb, blk: Block, groups: seq<seq<Hash>>, r: (Db, bool),
                    first: seq<Effect>, tail: seq<Effect>)
    requires groups != [] && ExactlyOnce(db, legacy, first, TIGHT, next) && FromBlock(blk, first)
    requires StampedBy(blk, db.docs, first, next.docs)
    requires forall h: Hash :: Logged(first, h) <==> h in groups[0]
    requires Outcome(next, legacy, blk, groups[1..], r, tail)
    ensures Outcome(db, legacy, blk, groups, r, first + tail)
  {
    assert Join(TIGHT, TIGHT) == TIGHT;
    ExactlyOnceConcat(db, next, r.0, legacy, first, TIGHT, tail, TIGHT);
    JoinLogged(first, tail);
    TouchedJoins(first, tail);
    StampedTwice(db.docs, next.docs, r.0.docs, TouchedBy(first), TouchedBy(tail), blk.timestamp * 1_000_000_000);
    assert forall h :: h in Flatten(groups) <==> h in groups[0] || h in Flatten(groups[1..]);
  }

  lemma TouchedJoins(a: seq<Effect>, b: seq<Effect>)
    ensures TouchedBy(a + b) == TouchedBy(a) + TouchedBy(b)
  {}

  /** Any grouping of outstanding transactions, interrupted after any number of ExecAlls,
      applies each committed transaction exactly once. */
  lemma GroupsOnce(db: Db, legacy: MarkerDb, blk: Block, groups: seq<seq<Hash>>, ok: nat, appliedAt: int)
    returns (log: seq<Effect>)
    requires Keyed(db.docs) && DistinctHashes(blk.txs) && Clock(appliedAt)
    requires Outstanding(db, legacy, blk, Flatten(groups))
    ensures Outcome(db, legacy, blk, groups, CommitGroups(db, blk, groups, ok, appliedAt), log)
  {
    assert groups[0..] == groups;
    log := GroupsOnceFrom(db, legacy, blk, groups, 0, ok, appliedAt, CommitGroups(db, blk, groups, ok, appliedAt));
  }

  lemma {:induction false} GroupsOnceFrom(db: Db, legacy: MarkerDb, blk: Block, groups: seq<seq<Hash>>, i: nat,
                                          ok: nat, appliedAt: int,
                                          goal: (Db, bool))
    returns (log: seq<Effect>)
    requires Keyed(db.docs) && DistinctHashes(blk.txs) && Clock(appliedAt)
    requires GroupsLead(db, blk, groups, i, ok, appliedAt, goal) && Outstanding(db, legacy, blk, Flatten(groups[i..]))
    ensures Outcome(db, legacy, blk, groups[i..], goal, log)
    decreases |groups| - i
  {
    log := [];
    if i == |groups| {
      NoOutcome(db, legacy, blk, groups[i..], goal);
    } else {
      GroupsUnfold(db, blk, groups, i, ok, appliedAt, goal);
      if i == ok || CommitGroup(db, blk, groups[i], appliedAt).None? {
        NoOutcome(db, legacy, blk, groups[i..], goal);
      } else {
        var next := CommitGroup(db, blk, groups[i], appliedAt).value;
        assert groups[i..][0] == groups[i] && groups[i..][1..] == groups[i + 1..];
        var first := FirstGroupOnce(db, next, legacy, blk, groups[i..], appliedAt);
        var tail := GroupsOnceFrom(next, legacy, blk, groups, i + 1, ok, appliedAt, goal);
        OutcomeStep(db, next, legacy, blk, groups[i..], goal, first, tail);
        log := first + tail;
      }
    }
  }

  lemma NoOutcome(db: Db, legacy: MarkerDb, blk: Block, groups: seq<seq<Hash>>, r: (Db, bool))
    requires Keyed(db.docs) && r.0 == db && (r.1 ==> groups == [])
    ensures Outcome(db, legacy, blk, groups, r, [])
  {
    OnceNothing(db, legacy);
    StampedNothing(db.docs, blk.timestamp * 1_000_000_000);
  }

  lemma FirstGroupOnce(db: Db, next: Db, legacy: MarkerDb, blk: Block, groups: seq<seq<Hash>>, appliedAt: int)
    returns (first: seq<Effect>)
    requires Keyed(db.docs) && DistinctHashes(blk.txs) && Clock(appliedAt)
    requires groups != [] && Outstanding(db, legacy, blk, Flatten(groups))
    requires CommitGroup(db, blk, groups[0], appliedAt) == Some(next)
    ensures ExactlyOnce(db, legacy, first, TIGHT, next) && FromBlock(blk, first)
            && StampedBy(blk, db.docs, first, next.docs)
    ensures forall h: Hash :: Logged(first, h) <==> h in groups[0]
    ensures Outstanding(next, legacy, blk, Flatten(groups[1..]))
  {
    var g := groups[0];
    assert forall h :: h in g ==> h in Flatten(groups);
    first := EffectsOf(blk.fees, InGroup(blk.txs, g));
    GroupOnce(db, legacy, blk, g, appliedAt);
    LogHashes(blk, g);
    EffectsFromBlock(blk, g);
    RestOutstanding(db, next, legacy, blk, g, Flatten(groups[1..]), first);
  }

  lemma JoinLogged(a: seq<Effect>, b: seq<Effect>)
    ensures forall h: Hash :: Logged(a + b, h) <==> Logged(a, h) || Logged(b, h)
  {
    forall h: Hash ensures Logged(a + b, h) <==> Logged(a, h) || Logged(b, h) {
      if Logged(a, h) { var e :| e in a && e.hash == h; assert e in a + b; }
      if Logged(b, h) { var e :| e in b && e.hash == h; assert e in a + b; }
    }
  }

  lemma EffectsFromBlock(blk: Block, g: seq<Hash>)
    ensures FromBlock(blk, EffectsOf(blk.fees, InGroup(blk.txs, g)))
  {
    var txs := InGroup(blk.txs, g);
    forall e | e in EffectsOf(blk.fees, txs) ensures exists t :: t in blk.txs && e == EffectOf(blk.fees, t) {
      var k :| 0 <= k < |txs| && EffectsOf(blk.fees, txs)[k] == e;
      assert txs[k] in txs;
    }
  }

  lemma RestOutstanding(db: Db, next: Db, legacy: MarkerDb, blk: Block, g: seq<Hash>, rest: seq<Hash>, log: seq<Effect>)
    requires Outstanding(db, legacy, blk, g + rest)
    requires MarksExactly(db.markers, legacy, log, next.markers)
    requires forall h: Hash :: Logged(log, h) <==> h in g
    ensures Outstanding(next, legacy, blk, rest)
  {
    var all := g + rest;
    forall i, j | 0 <= i < j < |rest| ensures rest[i] != rest[j] {
      assert all[|g| + i] == rest[i] && all[|g| + j] == rest[j];
    }
    forall h | h in rest ensures h in Hashes(blk.txs) && !IsApplied(next.markers, legacy, h) {
      assert h in all;
      var j :| 0 <= j < |rest| && rest[j] == h;
      assert all[|g| + j] == h;
      forall i | 0 <= i < |g| ensures g[i] != h {
        assert all[i] == g[i];
      }
    }
  }

  // ----- Steps and runs -----

  datatype Step =
    | Live(fees: FeeTargets, tx: Tx, seconds: int, carried: map<Address, U64>, liveAt: int)
    | Recon(blk: Block, wanted: Option<Hash>, ok: nat, reconAt: int)

  /** Clocks are sane, and a block lists no transaction twice. */
  predicate Sound(step: Step) {
    match step
    case Live(_, _, _, _, at) => Clock(at)
    case Recon(blk, _, _, at) => Clock(at) && DistinctHashes(blk.txs)
  }

  /** A refused or already-applied step, and everything after an interruption, changes nothing. */
  function Exec(db: Db, legacy: MarkerDb, step: Step): Db {
    match step
    case Live(fees, tx, seconds, carried, at) =>
      var r := ProcessTx(db, legacy, fees, tx, seconds, carried, at);
      if r.Committed? then r.db else db
    case Recon(blk, wanted, ok, at) => ApplyRecon(db, legacy, blk, wanted, ok, at).0
  }

  function Run(db: Db, legacy: MarkerDb, steps: seq<Step>): Db {
    if steps == [] then db else Exec(Run(db, legacy, steps[..|steps| - 1]), legacy, steps[|steps| - 1])
  }

  lemma PendingOutstanding(db: Db, legacy: MarkerDb, blk: Block)
    requires DistinctHashes(blk.txs)
    ensures Outstanding(db, legacy, blk, PendingFrom(blk.txs, Pending(db, legacy, blk), 0))
  {
    PendingMembers(blk.txs, Pending(db, legacy, blk), 0);
    PendingDistinct(blk.txs, Pending(db, legacy, blk), 0);
    forall h | h in PendingFrom(blk.txs, Pending(db, legacy, blk), 0) ensures h in Hashes(blk.txs) {
      var j :| 0 <= j < |blk.txs| && blk.txs[j].hash == h;
      assert Hashes(blk.txs)[j] == h;
    }
  }

  lemma {:induction false} PendingDistinct(txs: seq<Tx>, pending: set<Hash>, i: nat)
    requires DistinctHashes(txs) && i <= |txs|
    ensures NoRepeats(PendingFrom(txs, pending, i))
    decreases |txs| - i
  {
    if i < |txs| {
      PendingDistinct(txs, pending, i + 1);
      PendingMembers(txs, pending, i + 1);
      var tail := PendingFrom(txs, pending, i + 1);
      assert txs[i].hash !in tail;
      if txs[i].hash in pending {
        assert PendingFrom(txs, pending, i) == [txs[i].hash] + tail;
      } else {
        assert PendingFrom(txs, pending, i) == tail;
      }
    }
  }

  /** Replaying or interrupting reconciliation is harmless, and when it reports success every
      transaction of the block is marked. */
  lemma ReconOnce(db: Db, legacy: MarkerDb, blk: Block, wanted: Option<Hash>, ok: nat, appliedAt: int)
    returns (log: seq<Effect>)
    requires Keyed(db.docs) && DistinctHashes(blk.txs) && Clock(appliedAt)
    ensures var r := ApplyRecon(db, legacy, blk, wanted, ok, appliedAt);
            && ExactlyOnce(db, legacy, log, TIGHT, r.0)
            && (r.1 ==> forall t :: t in blk.txs ==> IsApplied(r.0.markers, legacy, t.hash))
            && FromBlock(blk, log) && StampedBy(blk, db.docs, log, r.0.docs)
  {
    if wanted.Some? && wanted.value != blk.hash {
      log := [];
      OnceNothing(db, legacy);
      StampedNothing(db.docs, blk.timestamp * 1_000_000_000);
    } else {
      var groups := Groups(blk, Pending(db, legacy, blk), GROUP_BUDGET);
      PartitionCoversPending(blk, Pending(db, legacy, blk), GROUP_BUDGET);
      PendingOutstanding(db, legacy, blk);
      log := GroupsOnce(db, legacy, blk, groups, ok, appliedAt);
      var r := CommitGroups(db, blk, groups, ok, appliedAt);
      if r.1 {
        AllMarkedAfter(db, legacy, blk, Flatten(groups), log, r.0.markers);
      }
    }
  }

  lemma AllMarkedAfter(db: Db, legacy: MarkerDb, blk: Block, done: seq<Hash>, log: seq<Effect>, markers: MarkerDb)
    requires MarksExactly(db.markers, legacy, log, markers) && forall h: Hash :: h in done <==> Logged(log, h)
    requires done == PendingFrom(blk.txs, Pending(db, legacy, blk), 0)
    ensures forall t :: t in blk.txs ==> IsApplied(markers, legacy, t.hash)
  {
    PendingMembers(blk.txs, Pending(db, legacy, blk), 0);
    forall t | t in blk.txs ensures IsApplied(markers, legacy, t.hash) {
      var j :| 0 <= j < |blk.txs| && blk.txs[j] == t;
      assert t.hash in Pending(db, legacy, blk) ==> t.hash in done;
    }
  }

  lemma LiveOnce(db: Db, legacy: MarkerDb, fees: FeeTargets, tx: Tx, seconds: int, carried: map<Address, U64>,
                 appliedAt: int)
    requires Keyed(db.docs) && Clock(appliedAt)
    requires ProcessTx(db, legacy, fees, tx, seconds, carried, appliedAt).Committed?
    ensures var r := ProcessTx(db, legacy, fees, tx, seconds, carried, appliedAt);
            && ExactlyOnce(db, legacy, [EffectOf(fees, tx)], LiveSlack(tx), r.db)
            && Stamped(db.docs, Touched(EffectOf(fees, tx)) + {tx.to.value}, seconds * 1_000_000_000, true,
                       Names(tx.from.value, tx.to.value, carried), r.db.docs)
  {
    LiveAdvances(db, legacy, fees, tx, seconds, carried, appliedAt);
    MarksOne(db.markers, legacy, EffectOf(fees, tx), appliedAt);
    LiveSenderAgrees(fees, tx);
    assert EffectOf(fees, tx) in [EffectOf(fees, tx)];
  }

  lemma MarksOne(markers: MarkerDb, legacy: MarkerDb, e: Effect, appliedAt: int)
    requires Clock(appliedAt) && !IsApplied(markers, legacy, e.hash)
    ensures MarksExactly(markers, legacy, [e], Mark(markers, [e.hash], appliedAt))
  {
    forall h: Hash ensures IsApplied(Mark(markers, [e.hash], appliedAt), legacy, h)
                           <==> IsApplied(markers, legacy, h) || Logged([e], h) {
      MarkReads(markers, legacy, [e.hash], appliedAt, h);
      assert [e][0] in [e];
    }
  }

  /** Hashes are collision free: every transaction a step carries is the one `chain` knows by
      that hash, in the block `chain` knows it in. */
  ghost predicate On(chain: Hash -> Effect, step: Step) {
    match step
    case Live(fees, tx, _, _, _) => chain(tx.hash) == EffectOf(fees, tx)
    case Recon(blk, _, _, _) => forall t :: t in blk.txs ==> chain(t.hash) == EffectOf(blk.fees, t)
  }

  ghost predicate LogOn(chain: Hash -> Effect, log: seq<Effect>) {
    forall e :: e in log ==> e == chain(e.hash)
  }

  /** Where a step may differ from the transactions it applies: only a live commit does. */
  function StepSlack(db: Db, legacy: MarkerDb, step: Step): Slack {
    if step.Live? && ProcessTx(db, legacy, step.fees, step.tx, step.seconds, step.carried, step.liveAt).Committed?
    then LiveSlack(step.tx) else TIGHT
  }

  /** The receivers all live commits of a run name, and the senders whose nonce they wrapped. */
  function RunSlack(db: Db, legacy: MarkerDb, steps: seq<Step>): Slack {
    if steps == [] then TIGHT
    else
      var front, last := steps[..|steps| - 1], steps[|steps| - 1];
      Join(RunSlack(db, legacy, front), StepSlack(Run(db, legacy, front), legacy, last))
  }

  lemma {:induction false} ReconRunsAreTight(db: Db, legacy: MarkerDb, steps: seq<Step>)
    requires forall s :: s in steps ==> s.Recon?
    ensures RunSlack(db, legacy, steps) == TIGHT
  {
    if steps != [] {
      ReconRunsAreTight(db, legacy, steps[..|steps| - 1]);
      assert steps[|steps| - 1] in steps;
    }
  }

  /** The effect of a transaction the step was given. */
  ghost predicate Carries(step: Step, e: Effect) {
    match step
    case Live(fees, tx, _, _, _) => e == EffectOf(fees, tx)
    case Recon(blk, _, _, _) => exists t :: t in blk.txs && e == EffectOf(blk.fees, t)
  }

  lemma StepOnce(db: Db, legacy: MarkerDb, step: Step, chain: Hash -> Effect) returns (log: seq<Effect>)
    requires Keyed(db.docs) && Sound(step)
    ensures ExactlyOnce(db, legacy, log, StepSlack(db, legacy, step), Exec(db, legacy, step))
    ensures On(chain, step) ==> LogOn(chain, log)
    ensures forall e :: e in log ==> Carries(step, e)
  {
    if step.Live? {
      log := LiveStepOnce(db, legacy, step);
    } else {
      log := ReconOnce(db, legacy, step.blk, step.wanted, step.ok, step.reconAt);
      CarriedFromBlock(step, log);
    }
    CarriedOnChain(step, chain, log);
  }

  lemma CarriedFromBlock(step: Step, log: seq<Effect>)
    requires step.Recon? && FromBlock(step.blk, log)
    ensures forall e :: e in log ==> Carries(step, e)
  {}

  lemma CarriedOnChain(step: Step, chain: Hash -> Effect, log: seq<Effect>)
    requires forall e :: e in log ==> Carries(step, e)
    ensures On(chain, step) ==> LogOn(chain, log)
  {}

  lemma LiveStepOnce(db: Db, legacy: MarkerDb, step: Step) returns (log: seq<Effect>)
    requires Keyed(db.docs) && Sound(step) && step.Live?
    ensures ExactlyOnce(db, legacy, log, StepSlack(db, legacy, step), Exec(db, legacy, step))
    ensures forall e :: e in log ==> Carries(step, e)
  {
    if ProcessTx(db, legacy, step.fees, step.tx, step.seconds, step.carried, step.liveAt).Committed? {
      LiveOnce(db, legacy, step.fees, step.tx, step.seconds, step.carried, step.liveAt);
      log := [EffectOf(step.fees, step.tx)];
    } else {
      OnceNothing(db, legacy);
      log := [];
    }
  }

  // ----- What a marker says -----

  function ClockOf(step: Step): int { if step.Live? then step.liveAt else step.reconAt }

  /** The text stored for `h` is as before, or the encoded time `at`. */
  ghost predicate MarkedAt(before: MarkerDb, at: int, after: MarkerDb, h: Hash) {
    || (h in after && after[h] == Encode(at))
    || ((h in after <==> h in before) && (h in before ==> after[h] == before[h]))
  }

  lemma {:induction false} GroupsMarkAt(db: Db, blk: Block, groups: seq<seq<Hash>>, i: nat, ok: nat, at: int,
                                        goal: (Db, bool), h: Hash)
    requires GroupsLead(db, blk, groups, i, ok, at, goal)
    ensures MarkedAt(db.markers, at, goal.0.markers, h)
    decreases |groups| - i
  {
    if i < |groups| {
      GroupsUnfold(db, blk, groups, i, ok, at, goal);
      if i < ok && CommitGroup(db, blk, groups[i], at).Some? {
        GroupsMarkAt(CommitGroup(db, blk, groups[i], at).value, blk, groups, i + 1, ok, at, goal, h);
      }
    }
  }

  /** A transaction a step applies is marked with the time the step was given, and no marker is written
      with anything else. */
  lemma StepMarks(db: Db, legacy: MarkerDb, step: Step, h: Hash)
    ensures var after := Exec(db, legacy, step).markers;
            && MarkedAt(db.markers, ClockOf(step), after, h)
            && (NewlyApplied(db, legacy, after, h) ==> h in after && after[h] == Encode(ClockOf(step)))
  {
    if step.Recon? && (step.wanted.None? || step.wanted.value == step.blk.hash) {
      var groups := Groups(step.blk, Pending(db, legacy, step.blk), GROUP_BUDGET);
      assert groups[0..] == groups;
      GroupsMarkAt(db, step.blk, groups, 0, step.ok, step.reconAt,
                   CommitGroups(db, step.blk, groups, step.ok, step.reconAt), h);
    }
  }

  // ----- Over every run -----

  /** The ledger invariant. After any run, every account's balance and sent count are its
      base plus the effects of exactly the transactions marked since, each counted once, and
      its nonce is the larger of its base and their nonce candidates, unless a live commit
      wrapped it. */
  lemma {:induction false} LedgerInvariant(base: Db, legacy: MarkerDb, steps: seq<Step>, chain: Hash -> Effect)
    returns (log: seq<Effect>)
    requires Keyed(base.docs) && forall s :: s in steps ==> Sound(s)
    ensures ExactlyOnce(base, legacy, log, RunSlack(base, legacy, steps), Run(base, legacy, steps))
    ensures (forall s :: s in steps ==> On(chain, s)) ==> LogOn(chain, log)
    ensures forall e :: e in log ==> exists s :: s in steps && Carries(s, e)
  {
    if steps == [] {
      log := [];
      OnceNothing(base, legacy);
    } else {
      var front, last := steps[..|steps| - 1], steps[|steps| - 1];
      assert forall s :: s in steps <==> s in front || s == last;
      var l1 := LedgerInvariant(base, legacy, front, chain);
      var mid := Run(base, legacy, front);
      var l2 := StepOnce(mid, legacy, last, chain);
      ExactlyOnceConcat(base, mid, Run(base, legacy, steps), legacy,
                        l1, RunSlack(base, legacy, front), l2, StepSlack(mid, legacy, last));
      log := l1 + l2;
    }
  }
}

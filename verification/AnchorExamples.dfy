/** Runs that leave the anchor past a block whose transactions are not applied, one for each thing
    the node does not check. The exact conditions are in AnchorRuns. */
module AnchorExamples {
  import opened Types
  import opened Deltas
  import opened Partition
  import opened Markers
  import opened Ledger
  import opened LedgerRuns
  import LA = LedgerAgreement
  import LE = LedgerExamples
  import opened Scan
  import opened Anchor
  import opened AnchorRuns

  /** A chain of one complete block with one transaction, which touches no account. */
  ghost predicate OneBlock(chain: Chain, blk: Block, tx: Tx) {
    && chain == map[1 := blk] && blk.number == 1 && blk.txs == [tx] && !BlockNeedsDataSync(blk)
    && Touched(EffectOf(blk.fees, tx)) == {}
  }

  lemma SomeBlock() returns (chain: Chain, blk: Block, tx: Tx)
    ensures OneBlock(chain, blk, tx)
  {
    tx := Tx(7, None, None, None, 0, 0, 0, None, None, None);
    blk := Block(1, 1, 0, [1], 0, FeeTargets(None, None, []), [tx]);
    chain := map[1 := blk];
    assert EffectOf(blk.fees, tx).credits == [];
  }

  /** A node that has applied nothing, with its head at block 1. */
  function Fresh(store: BlockStore): Node { Node(Db(map[], map[]), store, 0, 1, None, None) }

  lemma FreshIsSane(chain: Chain, blk: Block, tx: Tx, store: BlockStore)
    requires OneBlock(chain, blk, tx) && (store == map[] || store == chain)
    ensures UniqueHashes(chain) && Sane(chain, map[], Fresh(store))
    ensures tx in blk.txs && !IsApplied(map[], map[], tx.hash)
  {}

  /** One more allowed action. */
  lemma Then(chain: Chain, legacy: MarkerDb, s: Node, acts: seq<Act>, a: Act)
    requires AllAllowed(chain, legacy, s, acts) && Allowed(chain, legacy, RunActs(s, legacy, acts), a)
    ensures AllAllowed(chain, legacy, s, acts + [a])
    ensures RunActs(s, legacy, acts + [a]) == Act1(RunActs(s, legacy, acts), legacy, a)
  {
    var all := acts + [a];
    assert all[..|acts|] == acts;
    forall i | 0 <= i < |all| ensures Allowed(chain, legacy, RunActs(s, legacy, all[..i]), all[i]) {
      assert i < |acts| ==> all[..i] == acts[..i];
    }
  }

  lemma NothingHandedOff(s: Node, legacy: MarkerDb)
    requires s.store == map[] && s.anchor == 0
    ensures OpenSession(s, legacy, 1, 1) == Session(1, 1, 1, map[], [], {})
  {
    assert Refs(s.store, s.db.markers, legacy, 1, 1) == [];
  }

  /** A block whose data arrives between the hand-off and the check passes the check without ever
      having been handed off. */
  lemma LateDataIsSkipped() returns (chain: Chain, legacy: MarkerDb, s: Node, acts: seq<Act>)
    ensures UniqueHashes(chain) && Sane(chain, legacy, s) && s.session.None? && AllAllowed(chain, legacy, s, acts)
    ensures var end := RunActs(s, legacy, acts); !Honest(chain, end.db.markers, legacy, end.anchor)
  {
    var blk, tx;
    chain, blk, tx := SomeBlock();
    legacy, s := map[], Fresh(map[]);
    FreshIsSane(chain, blk, tx, map[]);
    NothingHandedOff(s, legacy);
    Then(chain, legacy, s, [], HandOff(1, 1));
    var first := [] + [HandOff(1, 1)];
    Then(chain, legacy, s, first, Store(blk));
    AdvanceOver(chain, blk, tx, legacy, RunActs(s, legacy, first + [Store(blk)]));
    Then(chain, legacy, s, first + [Store(blk)], Advance);
    acts := first + [Store(blk)] + [Advance];
  }

  /** With the block stored and the data check clean, the anchor moves over it. */
  lemma AdvanceOver(chain: Chain, blk: Block, tx: Tx, legacy: MarkerDb, s: Node)
    requires OneBlock(chain, blk, tx) && s.store == chain && s.head == 1 && s.anchor == 0
    requires s.session.Some? && s.session.value.from == 1 && s.session.value.to == 1
    requires !IsApplied(s.db.markers, legacy, tx.hash)
    ensures Allowed(chain, legacy, s, Advance)
    ensures var end := Act1(s, legacy, Advance); !Honest(chain, end.db.markers, legacy, end.anchor)
  {
    assert tx in blk.txs;
    assert !BlockApplied(chain, s.db.markers, legacy, 1);
  }

  /** Two blocks, of which only the second, an empty one, is stored. */
  lemma GapNode() returns (chain: Chain, s: Node)
    ensures UniqueHashes(chain) && Sane(chain, map[], s) && s.session.None? && s.anchor == 0 && s.head == 2
    ensures !BlockApplied(chain, s.db.markers, map[], 1) && 2 in s.store && s.store[2].txs == []
            && !NeedsData(s.store)(2)
  {
    var one, blk, tx := SomeBlock();
    var empty := Block(2, 2, 0, [1], 0, FeeTargets(None, None, []), []);
    chain := one[2 := empty];
    s := Node(Db(map[], map[]), map[2 := empty], 0, 2, None, None);
    assert tx in blk.txs && !IsApplied(map[], map[], tx.hash);
  }

  /** A hand-off that starts above the block after the anchor: the advance moves over the gap. */
  lemma GapIsPassed() returns (chain: Chain, legacy: MarkerDb, s: Node, acts: seq<Act>)
    ensures UniqueHashes(chain) && Sane(chain, legacy, s) && s.session.None? && AllAllowed(chain, legacy, s, acts)
    ensures var end := RunActs(s, legacy, acts); !Honest(chain, end.db.markers, legacy, end.anchor)
  {
    legacy := map[];
    chain, s := GapNode();
    Then(chain, legacy, s, [], HandOff(2, 2));
    Then(chain, legacy, s, [] + [HandOff(2, 2)], Advance);
    acts := [] + [HandOff(2, 2)] + [Advance];
  }

  lemma OneHandedOff(chain: Chain, blk: Block, tx: Tx, s: Node, legacy: MarkerDb)
    requires OneBlock(chain, blk, tx) && s.store == chain && s.anchor == 0 && !IsApplied(s.db.markers, legacy, tx.hash)
    ensures OpenSession(s, legacy, 1, 1) == Session(1, 1, 1, chain, [Ref(1, blk.hash)], {})
  {
    assert Refs(chain, s.db.markers, legacy, 1, 1) == [];
    assert tx in chain[1].txs && HasPending(chain, s.db.markers, legacy, 1);
  }

  lemma HandedOffIsSane(chain: Chain, legacy: MarkerDb, s: Node)
    requires UniqueHashes(chain) && Sane(chain, legacy, s) && s.anchor == 0
    ensures Sane(chain, legacy, Act1(s, legacy, HandOff(1, 1)))
  {
    GaplessHandOffIsCareful(chain, legacy, s, 1, 1);
    StepSaneExactly(chain, legacy, s, HandOff(1, 1));
  }

  /** The hand-off of the one block, complete and unchanged. */
  lemma HandedOff() returns (chain: Chain, blk: Block, tx: Tx, legacy: MarkerDb, s: Node)
    ensures OneBlock(chain, blk, tx) && UniqueHashes(chain) && s == Fresh(chain) && Sane(chain, legacy, s)
    ensures legacy == map[] && AllAllowed(chain, legacy, s, [HandOff(1, 1)])
    ensures RunActs(s, legacy, [HandOff(1, 1)]) == s.(session := Some(Session(1, 1, 1, chain, [Ref(1, blk.hash)], {})))
    ensures Sane(chain, legacy, RunActs(s, legacy, [HandOff(1, 1)]))
  {
    chain, blk, tx := SomeBlock();
    legacy, s := map[], Fresh(chain);
    FreshIsSane(chain, blk, tx, chain);
    OneHandedOff(chain, blk, tx, s, legacy);
    HandedOffIsSane(chain, legacy, s);
    Then(chain, legacy, s, [], HandOff(1, 1));
    assert [] + [HandOff(1, 1)] == [HandOff(1, 1)];
  }

  /** A handed-off block that was never reconciled: the data check passes, nothing has changed since
      the hand-off, and the queue's mark may have passed the failed entry. */
  lemma FailedHandOffIsPassed() returns (chain: Chain, legacy: MarkerDb, s: Node, acts: seq<Act>)
    ensures UniqueHashes(chain) && Sane(chain, legacy, s) && s.session.None? && AllAllowed(chain, legacy, s, acts)
    ensures var end := RunActs(s, legacy, acts); !Honest(chain, end.db.markers, legacy, end.anchor)
  {
    var blk, tx;
    chain, blk, tx, legacy, s := HandedOff();
    FreshIsSane(chain, blk, tx, chain);
    AdvanceOver(chain, blk, tx, legacy, RunActs(s, legacy, [HandOff(1, 1)]));
    Then(chain, legacy, s, [HandOff(1, 1)], Advance);
    acts := [HandOff(1, 1)] + [Advance];
  }

  lemma OneGroup(groups: seq<seq<Hash>>, h: Hash)
    requires Flatten(groups) == [h] && forall g :: g in groups ==> g != []
    ensures groups == [[h]]
  {
    FlattenLength(groups);
    assert groups == [groups[0]] && groups[0] == [h];
  }

  lemma {:induction false} FlattenLength(groups: seq<seq<Hash>>)
    requires forall g :: g in groups ==> g != []
    ensures |Flatten(groups)| >= |groups|
  {
    if groups != [] {
      assert groups[0] in groups && forall g :: g in groups[1..] ==> g in groups;
      FlattenLength(groups[1..]);
    }
  }

  /** Reconciling a block of one transaction that touches no account succeeds. */
  lemma OneReconciles(db: Db, legacy: MarkerDb, blk: Block, tx: Tx, at: int)
    requires blk.txs == [tx] && !IsApplied(db.markers, legacy, tx.hash) && Touched(EffectOf(blk.fees, tx)) == {}
    ensures ApplyRecon(db, legacy, blk, None, 1, at).1
  {
    var pending := Pending(db, legacy, blk);
    assert tx in blk.txs && tx.hash in pending;
    PartitionCoversPending(blk, pending, GROUP_BUDGET);
    assert PendingFrom(blk.txs, pending, 1) == [] && PendingFrom(blk.txs, pending, 0) == [tx.hash];
    OneGroup(Groups(blk, pending, GROUP_BUDGET), tx.hash);
    LE.ReconAloneCommits(db, blk.fees, tx, blk.timestamp, at);
    assert CommitGroup(db, blk, [tx.hash], at) == LA.ReconAlone(db, blk.fees, tx, blk.timestamp, at);
    OneCommits(db, blk, [tx.hash], at);
  }

  lemma OneCommits(db: Db, blk: Block, g: seq<Hash>, at: int)
    requires CommitGroup(db, blk, g, at).Some?
    ensures CommitGroups(db, blk, [g], 1, at).1
  {
    assert [g][1..] == [];
  }

  /** The block reported success, so the session has noted it. */
  lemma OneNoted(chain: Chain, blk: Block, tx: Tx, legacy: MarkerDb, s: Node, step: Step)
    requires OneBlock(chain, blk, tx) && step == Recon(blk, None, 1, 1) && s.store == chain
    requires s.session == Some(Session(1, 1, 1, chain, [Ref(1, blk.hash)], {}))
             && !IsApplied(s.db.markers, legacy, tx.hash)
    ensures Noted(s, legacy, step) == Some(Session(1, 1, 1, chain, [Ref(1, blk.hash)], {1}))
  {
    OneReconciles(s.db, legacy, blk, tx, 1);
    assert {} + {1} == {1};
  }

  /** The node after its one block was reconciled: the advance is allowed and careful. */
  lemma ReconciledNode(chain: Chain, blk: Block, tx: Tx, legacy: MarkerDb, s: Node, step: Step, next: Node)
    requires OneBlock(chain, blk, tx) && UniqueHashes(chain) && step == Recon(blk, None, 1, 1)
    requires s.store == chain && s.session == Some(Session(1, 1, 1, chain, [Ref(1, blk.hash)], {})) && s.head == 1
    requires Sane(chain, legacy, s) && !IsApplied(s.db.markers, legacy, tx.hash)
             && next == Act1(s, legacy, Commit(step))
    ensures Allowed(chain, legacy, next, Advance) && Sane(chain, legacy, Act1(next, legacy, Advance))
    ensures Act1(next, legacy, Advance).anchor >= 1
  {
    OneNoted(chain, blk, tx, legacy, s, step);
    StepSaneExactly(chain, legacy, s, Commit(step));
    AdvanceOne(chain, blk, tx, legacy, next);
  }

  lemma AdvanceOne(chain: Chain, blk: Block, tx: Tx, legacy: MarkerDb, s: Node)
    requires OneBlock(chain, blk, tx) && UniqueHashes(chain) && Sane(chain, legacy, s) && s.store == chain
             && s.head == 1
    requires s.session == Some(Session(1, 1, 1, chain, [Ref(1, blk.hash)], {1}))
    ensures Allowed(chain, legacy, s, Advance) && Sane(chain, legacy, Act1(s, legacy, Advance))
    ensures Act1(s, legacy, Advance).anchor >= 1
  {
    DrainedAdvanceIsCareful(chain, legacy, s);
    StepSaneExactly(chain, legacy, s, Advance);
  }

  /** After the hand-off, its reconciliation and the advance: allowed, and honest to the end. */
  lemma ReconciledRun(chain: Chain, blk: Block, tx: Tx, legacy: MarkerDb, s: Node, first: seq<Act>, mid: Node)
    returns (acts: seq<Act>)
    requires OneBlock(chain, blk, tx) && UniqueHashes(chain) && AllAllowed(chain, legacy, s, first)
             && mid == RunActs(s, legacy, first)
    requires mid.store == chain && mid.session == Some(Session(1, 1, 1, chain, [Ref(1, blk.hash)], {})) && mid.head == 1
    requires Sane(chain, legacy, mid) && !IsApplied(mid.db.markers, legacy, tx.hash)
    ensures AllAllowed(chain, legacy, s, acts) && Sane(chain, legacy, RunActs(s, legacy, acts))
            && RunActs(s, legacy, acts).anchor >= 1
  {
    var step := Recon(blk, None, 1, 1);
    Then(chain, legacy, s, first, Commit(step));
    ReconciledNode(chain, blk, tx, legacy, mid, step, RunActs(s, legacy, first + [Commit(step)]));
    Then(chain, legacy, s, first + [Commit(step)], Advance);
    acts := first + [Commit(step)] + [Advance];
  }

  /** Reconciliation completes a block, the anchor moves past it, and a failed live attempt at the
      same block revokes its transaction. The anchor is honest until that rollback. */
  lemma LateRollbackBreaks() returns (chain: Chain, legacy: MarkerDb, s: Node, acts: seq<Act>, rollback: Act)
    ensures UniqueHashes(chain) && Sane(chain, legacy, s) && s.session.None?
            && AllAllowed(chain, legacy, s, acts + [rollback])
    ensures rollback.RollBack? && Sane(chain, legacy, RunActs(s, legacy, acts))
    ensures var end := RunActs(s, legacy, acts + [rollback]); !Honest(chain, end.db.markers, legacy, end.anchor)
  {
    var blk, tx;
    chain, blk, tx, legacy, s := HandedOff();
    FreshIsSane(chain, blk, tx, chain);
    acts := ReconciledRun(chain, blk, tx, legacy, s, [HandOff(1, 1)], RunActs(s, legacy, [HandOff(1, 1)]));
    rollback := RollBack(1, [tx.hash]);
    assert Hashes(chain[1].txs)[0] == tx.hash;
    Then(chain, legacy, s, acts, rollback);
    RollbackBreaks(chain, legacy, RunActs(s, legacy, acts), [tx.hash]);
  }

  lemma RollbackBreaks(chain: Chain, legacy: MarkerDb, s: Node, revoked: seq<Hash>)
    requires UniqueHashes(chain) && Sane(chain, legacy, s) && s.anchor >= 1 && revoked != []
    requires Allowed(chain, legacy, s, RollBack(1, revoked))
    ensures var end := Act1(s, legacy, RollBack(1, revoked)); !Honest(chain, end.db.markers, legacy, end.anchor)
  {
    assert BlockApplied(chain, s.db.markers, legacy, 1);
    RollbackReadsExactly(chain, s.db.markers, legacy, 1, revoked, 1);
  }
}

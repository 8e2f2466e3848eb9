/** Exactly when reconciliation of a block succeeds (DB_OPs/account_recon.go), and what a marker in
    either database keeps from being applied again (DB_OPs/tx_markers.go, DB_OPs/sync_anchor.go). */
module ReconProgress {
  import opened Types
  import opened Deltas
  import opened Partition
  import opened Markers
  import opened Ledger
  import opened LedgerMeaning

  // ----- Nothing to do -----

  /** Some database says, on its stored text, that `h` is applied; the accounts database first. */
  predicate MarkedSomewhere(accounts: MarkerDb, legacy: MarkerDb, h: Hash) {
    if h in accounts then !MinusOneText(accounts[h]) else h in legacy && !MinusOneText(legacy[h])
  }

  /** A block whose transactions are all marked, in whichever database, is reconciled by doing nothing,
      however few commits go through. */
  lemma MarkedBlockIsNoOp(db: Db, legacy: MarkerDb, blk: Block, wanted: Option<Hash>, ok: nat, at: int)
    requires wanted.None? || wanted.value == blk.hash
    requires forall t :: t in blk.txs ==> MarkedSomewhere(db.markers, legacy, t.hash)
    ensures ApplyRecon(db, legacy, blk, wanted, ok, at) == (db, true)
  {
    forall t | t in blk.txs ensures IsApplied(db.markers, legacy, t.hash) {
      DualReadExactly(db.markers, legacy, t.hash);
    }
    NothingPending(blk);
    assert Pending(db, legacy, blk) == {};
  }

  lemma NothingPending(blk: Block)
    ensures Groups(blk, {}, GROUP_BUDGET) == []
  {
    var groups := Groups(blk, {}, GROUP_BUDGET);
    PartitionMembers(blk, {}, GROUP_BUDGET);
    PartitionCoversPending(blk, {}, GROUP_BUDGET);
    FirstMember(groups);
  }

  lemma FirstMember(groups: seq<seq<Hash>>)
    ensures groups == [] || (groups[0] in groups && (groups[0] == [] || groups[0][0] in groups[0]))
  {}

  /** A block stored under another hash than the expected one is not touched, and that is an error. */
  lemma WrongHashIsRefused(db: Db, legacy: MarkerDb, blk: Block, wanted: Hash, ok: nat, at: int)
    requires wanted != blk.hash
    ensures ApplyRecon(db, legacy, blk, Some(wanted), ok, at) == (db, false)
  {}

  /** A well-formed live transaction that is found marked, be it only in the legacy database, is not
      executed again. */
  lemma MarkedIsAlreadyApplied(db: Db, legacy: MarkerDb, fees: FeeTargets, tx: Tx, seconds: int,
                               carried: map<Address, U64>, at: int, up: bool)
    requires LiveShape(fees, tx)
    ensures AttemptTx(db, legacy, fees, tx, seconds, carried, at, true, up) == AlreadyApplied
            <==> MarkedSomewhere(db.markers, legacy, tx.hash)
  {
    DualReadExactly(db.markers, legacy, tx.hash);
  }

  // ----- When everything goes through -----

  /** Every account of `who` that is stored has a balance that can be read. */
  predicate CanRead(docs: Docs, who: set<Address>) {
    forall a :: a in who && a in docs ==> Readable(docs[a].balance)
  }

  lemma GroupExactly(db: Db, blk: Block, g: seq<Hash>, at: int)
    ensures CommitGroup(db, blk, g, at).Some? <==> CanRead(db.docs, Written(blk, g)) && FitsExecAll(blk, g)
  {
    DeltaKeys(EffectsOf(blk.fees, InGroup(blk.txs, g)));
  }

  /** Committing a group makes no account unreadable, and those it writes could be read before. */
  lemma StillReads(db: Db, blk: Block, g: seq<Hash>, at: int, next: Db, who: set<Address>)
    requires CommitGroup(db, blk, g, at) == Some(next)
    ensures CanRead(next.docs, who) <==> CanRead(db.docs, who)
  {
    GroupExactly(db, blk, g, at);
    GroupAdvances(db, blk, g, at);
    forall x | x in who
      ensures (x in next.docs ==> Readable(next.docs[x].balance)) <==> (x in db.docs ==> Readable(db.docs[x].balance))
    {
      assert Moves(db.docs, EffectsOf(blk.fees, InGroup(blk.txs, g)), TIGHT, next.docs, x);
    }
  }

  /** The group can be committed from `docs`, or from what earlier groups make of them. */
  predicate Committable(docs: Docs, blk: Block, g: seq<Hash>) {
    CanRead(docs, Written(blk, g)) && FitsExecAll(blk, g)
  }

  lemma {:induction false} GroupsExactly(db: Db, blk: Block, groups: seq<seq<Hash>>, i: nat, ok: nat, at: int,
                                         goal: (Db, bool))
    requires GroupsLead(db, blk, groups, i, ok, at, goal)
    ensures goal.1 <==> |groups| <= ok && forall k :: i <= k < |groups| ==> Committable(db.docs, blk, groups[k])
    decreases |groups| - i
  {
    if i < |groups| {
      GroupsUnfold(db, blk, groups, i, ok, at, goal);
      GroupExactly(db, blk, groups[i], at);
      if i < ok && CommitGroup(db, blk, groups[i], at).Some? {
        var next := CommitGroup(db, blk, groups[i], at).value;
        GroupsExactly(next, blk, groups, i + 1, ok, at, goal);
        forall k | i < k < |groups|
          ensures Committable(next.docs, blk, groups[k]) <==> Committable(db.docs, blk, groups[k])
        {
          StillReads(db, blk, groups[i], at, next, Written(blk, groups[k]));
        }
      }
    }
  }

  /** The groups together write what their transactions touch. */
  lemma GroupsRead(docs: Docs, blk: Block, pending: set<Hash>)
    ensures (forall g :: g in Groups(blk, pending, GROUP_BUDGET) ==> CanRead(docs, Written(blk, g)))
            <==> forall t :: t in blk.txs && t.hash in pending ==> CanRead(docs, Touched(EffectOf(blk.fees, t)))
  {
    var groups := Groups(blk, pending, GROUP_BUDGET);
    PartitionMembers(blk, pending, GROUP_BUDGET);
    if forall g :: g in groups ==> CanRead(docs, Written(blk, g)) {
      forall t | t in blk.txs && t.hash in pending ensures CanRead(docs, Touched(EffectOf(blk.fees, t))) {
        var g :| g in groups && t.hash in g;
        WrittenMembers(blk, g);
      }
    }
    if forall t :: t in blk.txs && t.hash in pending ==> CanRead(docs, Touched(EffectOf(blk.fees, t))) {
      forall g | g in groups ensures CanRead(docs, Written(blk, g)) {
        WrittenMembers(blk, g);
      }
    }
  }

  /** Reconciliation succeeds if and only if the block is the expected one, every account an unmarked
      transaction touches can be read, every unmarked transaction fits one ExecAll by itself, and
      enough commits go through. */
  lemma ReconSucceedsExactly(db: Db, legacy: MarkerDb, blk: Block, wanted: Option<Hash>, ok: nat, at: int)
    requires DistinctHashes(blk.txs)
    ensures ApplyRecon(db, legacy, blk, wanted, ok, at).1 <==>
            && (wanted.None? || wanted.value == blk.hash)
            && |Groups(blk, Pending(db, legacy, blk), GROUP_BUDGET)| <= ok
            && forall t :: t in blk.txs && !MarkedSomewhere(db.markers, legacy, t.hash) ==>
                 CanRead(db.docs, Touched(EffectOf(blk.fees, t))) && AloneFits(blk.fees, t)
  {
    var pending := Pending(db, legacy, blk);
    var groups := Groups(blk, pending, GROUP_BUDGET);
    forall t | t in blk.txs ensures t.hash in pending <==> !MarkedSomewhere(db.markers, legacy, t.hash) {
      DualReadExactly(db.markers, legacy, t.hash);
    }
    assert groups[0..] == groups;
    GroupsExactly(db, blk, groups, 0, ok, at, CommitGroups(db, blk, groups, ok, at));
    CapExact(blk, pending);
    GroupsRead(db.docs, blk, pending);
    GroupsCommittable(db.docs, blk, groups);
  }

  lemma GroupsCommittable(docs: Docs, blk: Block, groups: seq<seq<Hash>>)
    ensures (forall k :: 0 <= k < |groups| ==> Committable(docs, blk, groups[k])) <==>
            && (forall g :: g in groups ==> CanRead(docs, Written(blk, g)))
            && (forall g :: g in groups ==> FitsExecAll(blk, g))
  {
    if forall k :: 0 <= k < |groups| ==> Committable(docs, blk, groups[k]) {
      forall g | g in groups ensures Committable(docs, blk, g) {}
    }
  }
}

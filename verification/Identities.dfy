/** Account identities over whole runs: the sequencer enriches a block (DB_OPs/art_ordinal.go), and
    execution adopts the identities it carries (messaging/BlockProcessing/Processing.go). */
module Identities {
  import opened Types
  import opened Fees
  import opened Deltas
  import opened Markers
  import opened Partition
  import opened Ledger
  import opened Documents
  import opened LedgerRuns
  import O = Ordinals

  // ----- What a step does to identities -----

  /** Account `a` keeps its identity, takes the one it is given, or is new and has none. */
  ghost predicate Renames(given: map<Address, U64>, docs: Docs, after: Docs, a: Address) {
    a in after ==>
      || (a in docs && after[a].nonce == docs[a].nonce)
      || (a in given && after[a].nonce == given[a])
      || (a !in docs && after[a].nonce == 0)
  }

  /** The staged view of `a` after one more write has the same identity. */
  ghost predicate SameName(docs: Docs, stage: Docs, next: Docs, a: Address) {
    a in docs + next ==> a in docs + stage && (docs + next)[a].nonce == (docs + stage)[a].nonce
  }

  lemma DebitKeepsName(docs: Docs, stage: Docs, s: Sender, at: int, a: Address)
    requires Keyed(docs) && Keyed(stage) && StageDebit(docs, stage, s, at).Some?
    ensures Keyed(StageDebit(docs, stage, s, at).value)
    ensures SameName(docs, stage, StageDebit(docs, stage, s, at).value, a)
  {
    assert (docs + stage)[s.addr].address == s.addr;
  }

  lemma {:induction false} CreditsKeepName(docs: Docs, stage: Docs, cs: seq<FeeCredit>, at: int, a: Address)
    requires Keyed(docs) && Keyed(stage) && StageCredits(docs, stage, cs, at).Some?
    ensures Keyed(StageCredits(docs, stage, cs, at).value)
    ensures SameName(docs, stage, StageCredits(docs, stage, cs, at).value, a)
  {
    if cs != [] {
      CreditsKeepName(docs, stage, cs[..|cs| - 1], at, a);
      CreditKeepsName(docs, StageCredits(docs, stage, cs[..|cs| - 1], at).value, cs[|cs| - 1], at, a);
    }
  }

  lemma CreditKeepsName(docs: Docs, stage: Docs, c: FeeCredit, at: int, a: Address)
    requires Keyed(docs) && Keyed(stage) && StageCredit(docs, stage, c, at).Some?
    ensures Keyed(StageCredit(docs, stage, c, at).value)
    ensures SameName(docs, stage, StageCredit(docs, stage, c, at).value, a)
  {
    assert (docs + stage)[c.addr].address == c.addr;
  }

  lemma AdoptRenames(docs: Docs, stage: Docs, x: Address, carried: map<Address, U64>, a: Address)
    requires Keyed(docs) && Keyed(stage) && Renames(carried, docs, docs + stage, a)
    ensures Keyed(Adopt(docs, stage, x, carried)) && Renames(carried, docs, docs + Adopt(docs, stage, x, carried), a)
  {
    if x in docs + stage {
      assert (docs + stage)[x].address == x;
    }
  }

  lemma ReadyRenames(docs: Docs, from: Address, to: Address, carried: map<Address, U64>, at: int, a: Address)
    requires Keyed(docs) && Ready(docs, from, to, carried, at).Some?
    ensures var ready := Ready(docs, from, to, carried, at).value;
            Keyed(ready) && Renames(carried, docs, docs + ready, a)
  {
    var created := StageReceiver(docs, to, carried, at).value;
    AdoptRenames(docs, created, from, carried, a);
    AdoptRenames(docs, Adopt(docs, created, from, carried), to, carried, a);
  }

  lemma StageRenames(docs: Docs, fees: FeeTargets, tx: Tx, carried: map<Address, U64>, at: int, a: Address)
    requires Keyed(docs) && LiveShape(fees, tx) && LiveStage(docs, fees, tx, carried, at).Some?
    ensures Renames(carried, docs, docs + LiveStage(docs, fees, tx, carried, at).value, a)
  {
    var ready := Ready(docs, tx.from.value, tx.to.value, carried, at).value;
    ReadyRenames(docs, tx.from.value, tx.to.value, carried, at, a);
    DebitKeepsName(docs, ready, LiveSender(tx), at, a);
    CreditsKeepName(docs, StageDebit(docs, ready, LiveSender(tx), at).value, LiveCredits(fees, tx), at, a);
  }

  lemma {:induction false} GroupsKeepNames(db: Db, blk: Block, groups: seq<seq<Hash>>, i: nat, ok: nat, at: int,
                                           goal: (Db, bool), a: Address)
    requires GroupsLead(db, blk, groups, i, ok, at, goal)
    ensures Renames(map[], db.docs, goal.0.docs, a) && (a in db.docs ==> a in goal.0.docs)
    decreases |groups| - i
  {
    if i < |groups| {
      GroupsUnfold(db, blk, groups, i, ok, at, goal);
      if i < ok && CommitGroup(db, blk, groups[i], at).Some? {
        var next := CommitGroup(db, blk, groups[i], at).value;
        GroupKeepsName(db, blk, groups[i], at, next, a);
        GroupsKeepNames(next, blk, groups, i + 1, ok, at, goal, a);
        RenamesTwice(map[], db.docs, next.docs, goal.0.docs, a);
      }
    }
  }

  lemma GroupKeepsName(db: Db, blk: Block, g: seq<Hash>, at: int, next: Db, a: Address)
    requires CommitGroup(db, blk, g, at) == Some(next)
    ensures Renames(map[], db.docs, next.docs, a) && (a in db.docs ==> a in next.docs)
  {}

  lemma RenamesTwice(given: map<Address, U64>, docs: Docs, mid: Docs, after: Docs, a: Address)
    requires Renames(given, docs, mid, a) && Renames(given, mid, after, a) && (a in docs ==> a in mid)
    ensures Renames(given, docs, after, a)
  {}

  lemma ReconKeepsNames(db: Db, legacy: MarkerDb, blk: Block, wanted: Option<Hash>, ok: nat, at: int, a: Address)
    ensures Renames(map[], db.docs, ApplyRecon(db, legacy, blk, wanted, ok, at).0.docs, a)
    ensures a in db.docs ==> a in ApplyRecon(db, legacy, blk, wanted, ok, at).0.docs
  {
    if wanted.None? || wanted.value == blk.hash {
      var groups := Groups(blk, Pending(db, legacy, blk), GROUP_BUDGET);
      assert groups[0..] == groups;
      GroupsKeepNames(db, blk, groups, 0, ok, at, CommitGroups(db, blk, groups, ok, at), a);
    }
  }

  /** Reconciliation gives no identities, and a live step only those its block carries. */
  lemma StepRenames(db: Db, legacy: MarkerDb, step: Step, given: map<Address, U64>, a: Address)
    requires Keyed(db.docs) && (step.Live? ==> step.carried == given)
    ensures Renames(given, db.docs, Exec(db, legacy, step).docs, a)
            && (a in db.docs ==> a in Exec(db, legacy, step).docs)
  {
    match step
    case Live(fees, tx, seconds, carried, at) =>
      if ProcessTx(db, legacy, fees, tx, seconds, carried, at).Committed? {
        StageRenames(db.docs, fees, tx, carried, Nanos(seconds), a);
      }
    case Recon(blk, wanted, ok, at) => ReconKeepsNames(db, legacy, blk, wanted, ok, at, a);
  }

  /** After a live commit sender and receiver hold the identities the block carries for them. */
  lemma CommitAdopts(db: Db, legacy: MarkerDb, fees: FeeTargets, tx: Tx, seconds: int, carried: map<Address, U64>,
                     at: int, a: Address)
    requires Keyed(db.docs) && Clock(at) && a in carried && carried[a] != 0 && (tx.from == Some(a) || tx.to == Some(a))
    requires ProcessTx(db, legacy, fees, tx, seconds, carried, at).Committed?
    ensures var next := ProcessTx(db, legacy, fees, tx, seconds, carried, at).db;
            a in next.docs && next.docs[a].nonce == carried[a]
  {
    LiveOnce(db, legacy, fees, tx, seconds, carried, at);
    assert WrittenAt(db.docs, Touched(EffectOf(fees, tx)) + {tx.to.value}, seconds * 1_000_000_000, true,
                     Names(tx.from.value, tx.to.value, carried),
                     ProcessTx(db, legacy, fees, tx, seconds, carried, at).db.docs, a);
  }

  lemma {:induction false} RunRenames(db: Db, legacy: MarkerDb, steps: seq<Step>, given: map<Address, U64>, a: Address)
    requires Keyed(db.docs) && forall s :: s in steps ==> Sound(s) && (s.Live? ==> s.carried == given)
    ensures Renames(given, db.docs, Run(db, legacy, steps).docs, a)
            && (a in db.docs ==> a in Run(db, legacy, steps).docs)
    ensures Keyed(Run(db, legacy, steps).docs)
  {
    if steps != [] {
      var front, last := steps[..|steps| - 1], steps[|steps| - 1];
      assert forall s :: s in steps <==> s in front || s == last;
      RunRenames(db, legacy, front, given, a);
      var mid := Run(db, legacy, front);
      StepRenames(mid, legacy, last, given, a);
      RenamesTwice(given, db.docs, mid.docs, Exec(mid, legacy, last).docs, a);
      var _ := StepOnce(mid, legacy, last, (h: Hash) => Effect(h, None, []));
    }
  }

  // ----- Rounds of the sequencer -----

  /** The sequencer enriches a block over `txs` and some of it is executed, in any mix with
      reconciliation: all of it, a part, or nothing. */
  datatype Round = Round(txs: seq<Tx>, rank: O.Rank, carried: map<Address, U64>, steps: seq<Step>)

  /** The block carries, for accounts it mentions, what enrichment gives them, and the counter moves
      from `before` to `now`. */
  ghost predicate Enriched(docs: Docs, before: Option<U64>, r: Round, now: Option<U64>) {
    && O.Ranks(r.rank) && O.RankedApart(O.Missing(docs, O.FirstSeen(r.txs)), r.rank)
    && var sorted := O.Outstanding(docs, r.txs, r.rank);
       && |sorted| < O.ORDINAL_MAX && O.Taken(before, |sorted|, now)
       && forall a :: a in r.carried ==> a in O.FirstSeen(r.txs)
                                         && r.carried[a] == O.Identity(docs, sorted, O.Next(before), a)
  }

  ghost predicate Executed(r: Round) { forall s :: s in r.steps ==> Sound(s) && (s.Live? ==> s.carried == r.carried) }

  /** Identities are distinct, and every stored ordinal is below the counter. */
  ghost predicate Distinct(db: Db, counter: Option<U64>) {
    Keyed(db.docs) && O.IdentitiesSound(db.docs, O.Next(counter)) && O.Next(counter) < O.ORDINAL_MAX
  }

  ghost predicate Leads(legacy: MarkerDb, db: Db, before: Option<U64>, r: Round, next: Db, now: Option<U64>) {
    Enriched(db.docs, before, r, now) && Executed(r) && next == Run(db, legacy, r.steps)
  }

  lemma RoundKeepsIdentities(legacy: MarkerDb, db: Db, before: Option<U64>, r: Round, next: Db, now: Option<U64>)
    requires Distinct(db, before) && Leads(legacy, db, before, r, next, now)
    ensures Distinct(next, now)
  {
    var order, sorted := O.FirstSeen(r.txs), O.Outstanding(db.docs, r.txs, r.rank);
    RunRenames(db, legacy, r.steps, r.carried, 0);
    forall a | a in next.docs ensures O.Named(db.docs, order, sorted, O.Next(before), a, next.docs[a].nonce) {
      RunRenames(db, legacy, r.steps, r.carried, a);
    }
    O.EnrichKeepsIdentities(db.docs, r.txs, r.rank, before, now, next.docs);
  }

  /** The rounds lead from one state and counter to another. */
  ghost predicate Reaches(legacy: MarkerDb, db: Db, before: Option<U64>, rounds: seq<Round>, next: Db,
                          now: Option<U64>) {
    if rounds == [] then next == db && now == before
    else
      var front, last := rounds[..|rounds| - 1], rounds[|rounds| - 1];
      exists mid, between :: Reaches(legacy, db, before, front, mid, between)
                             && Leads(legacy, mid, between, last, next, now)
  }

  /** Over every sequence of rounds no two accounts ever share an identity, and no stored ordinal
      will be handed out again. */
  lemma {:induction false} IdentitiesStayDistinct(legacy: MarkerDb, db: Db, before: Option<U64>, rounds: seq<Round>,
                                                  next: Db, now: Option<U64>)
    requires Distinct(db, before) && Reaches(legacy, db, before, rounds, next, now)
    ensures Distinct(next, now)
  {
    if rounds != [] {
      var front, last := rounds[..|rounds| - 1], rounds[|rounds| - 1];
      var mid, between :|
        Reaches(legacy, db, before, front, mid, between) && Leads(legacy, mid, between, last, next, now);
      IdentitiesStayDistinct(legacy, db, before, front, mid, between);
      RoundKeepsIdentities(legacy, mid, between, last, next, now);
    }
  }
}

/** When live execution goes through: exactly which transactions commit, and that every
    transaction of a validated block does. */
module LiveProgress {
  import opened Types
  import opened Decimal
  import opened Fees
  import opened Deltas
  import opened Partition
  import opened Markers
  import opened Ledger
  import opened LedgerMeaning
  import opened LedgerRuns

  // ----- One transaction -----

  predicate Spendable(docs: Docs, a: Address) { a in docs && Parse(docs[a].balance).Some? }

  ghost predicate AllSpendable(docs: Docs, cs: seq<FeeCredit>) { forall c :: c in cs ==> Spendable(docs, c.addr) }

  /** Staged credits go through exactly when every credited account can be read. */
  lemma {:induction false} CreditsExactly(docs: Docs, stage: Docs, cs: seq<FeeCredit>, at: int)
    requires Keyed(docs) && Keyed(stage) && NonNegative(cs)
    ensures StageCredits(docs, stage, cs, at).Some? <==> AllSpendable(docs + stage, cs)
  {
    if cs != [] {
      var front, c := cs[..|cs| - 1], cs[|cs| - 1];
      assert forall d :: d in cs <==> d in front || d == c;
      CreditsExactly(docs, stage, front, at);
      if StageCredits(docs, stage, front, at).Some? {
        StillSpendable(docs, stage, front, at, c.addr);
      }
    }
  }

  lemma StillSpendable(docs: Docs, stage: Docs, cs: seq<FeeCredit>, at: int, a: Address)
    requires Keyed(docs) && Keyed(stage) && StageCredits(docs, stage, cs, at).Some? && AllSpendable(docs + stage, cs)
    ensures Spendable(docs + StageCredits(docs, stage, cs, at).value, a) <==> Spendable(docs + stage, a)
  {
    CreditsStaged(docs, stage, cs, at, a);
  }

  /** The receiver exists, or the block carries an identity for it. */
  predicate Receivable(docs: Docs, to: Address, carried: map<Address, U64>) {
    to in docs || (to in carried && carried[to] != 0)
  }

  /** What a live transaction needs of the accounts. */
  ghost predicate CanPay(docs: Docs, fees: FeeTargets, tx: Tx, carried: map<Address, U64>)
    requires LiveShape(fees, tx)
  {
    var from, to := tx.from.value, tx.to.value;
    && Spendable(docs, from) && Receivable(docs, to, carried)
    && docs[from].txNonce <= tx.nonce && BalanceOf(docs, from) >= LiveValue(tx) + GasFee(tx)
    && forall c :: c in LiveCredits(fees, tx) ==> Spendable(docs, c.addr) || (c.addr == to && to !in docs)
  }

  lemma ReadyExactly(docs: Docs, from: Address, to: Address, carried: map<Address, U64>, at: int)
    requires Keyed(docs)
    ensures Ready(docs, from, to, carried, at).Some? <==> from in docs && Receivable(docs, to, carried)
  {}

  /** Preparing keeps every stored balance as it is and opens the receiver at zero. */
  lemma ReadySpendable(docs: Docs, from: Address, to: Address, carried: map<Address, U64>, at: int, a: Address)
    requires Keyed(docs) && Ready(docs, from, to, carried, at).Some?
    ensures var v := docs + Ready(docs, from, to, carried, at).value;
            && (Spendable(v, a) <==> Spendable(docs, a) || (a == to && to !in docs))
            && (a in docs ==> a in v && v[a].balance == docs[a].balance && v[a].txNonce == docs[a].txNonce)
  {
    var created := StageReceiver(docs, to, carried, at).value;
    assert Format(0) == "0";
    AdoptKeeps(docs, created, from, carried);
    AdoptKeeps(docs, Adopt(docs, created, from, carried), to, carried);
  }

  lemma DebitSpendable(docs: Docs, stage: Docs, s: Sender, at: int, a: Address)
    requires Keyed(docs) && Keyed(stage) && StageDebit(docs, stage, s, at).Some?
    ensures Spendable(docs + StageDebit(docs, stage, s, at).value, a) <==> Spendable(docs + stage, a)
  {
    DebitStaged(docs, stage, s, at, a);
  }

  lemma LiveCreditsNonNegative(fees: FeeTargets, tx: Tx)
    requires LiveShape(fees, tx)
    ensures NonNegative(LiveCredits(fees, tx)) && GasFee(tx) >= 0
  {
    GasFeeIsProduct(tx);
    SplitNonNegative(GasFee(tx), fees.coinbase.value, fees.recipients);
  }

  /** A well-formed transaction can be staged exactly when the accounts allow it. */
  lemma StageExactly(docs: Docs, fees: FeeTargets, tx: Tx, carried: map<Address, U64>, at: int)
    requires Keyed(docs) && LiveShape(fees, tx)
    ensures LiveStage(docs, fees, tx, carried, at).Some? <==> CanPay(docs, fees, tx, carried)
  {
    var from, to := tx.from.value, tx.to.value;
    LiveCreditsNonNegative(fees, tx);
    ReadyExactly(docs, from, to, carried, at);
    if from in docs && Receivable(docs, to, carried) {
      var ready := Ready(docs, from, to, carried, at).value;
      ReadyMeaning(docs, from, to, carried, at, from);
      ReadySpendable(docs, from, to, carried, at, from);
      if StageDebit(docs, ready, LiveSender(tx), at).Some? {
        PaysExactly(docs, ready, LiveSender(tx), LiveCredits(fees, tx), from, to, carried, at);
      }
    }
  }

  lemma PaysExactly(docs: Docs, ready: Docs, s: Sender, cs: seq<FeeCredit>, from: Address, to: Address,
                    carried: map<Address, U64>, at: int)
    requires Keyed(docs) && Keyed(ready) && Ready(docs, from, to, carried, at) == Some(ready) && NonNegative(cs)
    requires StageDebit(docs, ready, s, at).Some?
    ensures StageCredits(docs, StageDebit(docs, ready, s, at).value, cs, at).Some?
            <==> forall c :: c in cs ==> Spendable(docs, c.addr) || (c.addr == to && to !in docs)
  {
    var debited := StageDebit(docs, ready, s, at).value;
    DebitStaged(docs, ready, s, at, 0);
    CreditsExactly(docs, debited, cs, at);
    forall c | c in cs ensures Spendable(docs + debited, c.addr) <==>
        Spendable(docs, c.addr) || (c.addr == to && to !in docs) {
      ReadySpendable(docs, from, to, carried, at, c.addr);
      DebitSpendable(docs, ready, s, at, c.addr);
    }
  }

  // ----- How much a transaction writes -----

  lemma {:induction false} CreditKeys(docs: Docs, stage: Docs, cs: seq<FeeCredit>, at: int)
    requires Keyed(docs) && Keyed(stage) && StageCredits(docs, stage, cs, at).Some?
    ensures StageCredits(docs, stage, cs, at).value.Keys == stage.Keys + CreditedBy(cs)
  {
    if cs != [] {
      var front, c := cs[..|cs| - 1], cs[|cs| - 1];
      CreditKeys(docs, stage, front, at);
      CreditsStaged(docs, stage, front, at, c.addr);
      assert CreditedBy(cs) == CreditedBy(front) + {c.addr};
      OneCreditKeys(docs, StageCredits(docs, stage, front, at).value, c, at);
    }
  }

  lemma OneCreditKeys(docs: Docs, stage: Docs, c: FeeCredit, at: int)
    requires Keyed(docs) && Keyed(stage) && StageCredit(docs, stage, c, at).Some?
    ensures StageCredit(docs, stage, c, at).value.Keys == stage.Keys + {c.addr}
  {
    assert (docs + stage)[c.addr].address == c.addr;
  }

  lemma ReadyKeys(docs: Docs, from: Address, to: Address, carried: map<Address, U64>, at: int)
    requires Keyed(docs) && Ready(docs, from, to, carried, at).Some?
    ensures Ready(docs, from, to, carried, at).value.Keys <= {from, to}
  {
    var created := StageReceiver(docs, to, carried, at).value;
    AdoptKeys(docs, created, from, carried);
    AdoptKeys(docs, Adopt(docs, created, from, carried), to, carried);
  }

  lemma AdoptKeys(docs: Docs, stage: Docs, a: Address, carried: map<Address, U64>)
    requires Keyed(docs) && Keyed(stage)
    ensures Adopt(docs, stage, a, carried).Keys <= stage.Keys + {a} && Keyed(Adopt(docs, stage, a, carried))
  {
    AdoptKeeps(docs, stage, a, carried);
    if a in docs + stage {
      assert (docs + stage)[a].address == a;
    }
  }

  /** A live transaction writes its sender, its receiver and the accounts it credits. */
  function Written(fees: FeeTargets, tx: Tx): set<Address>
    requires LiveShape(fees, tx)
  {
    {tx.from.value} + CreditedBy(LiveCredits(fees, tx))
  }

  /** Those documents and the marker fit one ExecAll. */
  predicate Fits(fees: FeeTargets, tx: Tx)
    requires LiveShape(fees, tx)
  {
    |Written(fees, tx)| + 1 <= EXEC_ALL_CAP
  }

  lemma StageKeys(docs: Docs, fees: FeeTargets, tx: Tx, carried: map<Address, U64>, at: int)
    requires Keyed(docs) && LiveShape(fees, tx) && LiveStage(docs, fees, tx, carried, at).Some?
    ensures LiveStage(docs, fees, tx, carried, at).value.Keys == Written(fees, tx)
  {
    var from, to := tx.from.value, tx.to.value;
    var ready := Ready(docs, from, to, carried, at).value;
    ReadyMeaning(docs, from, to, carried, at, from);
    ReadyKeys(docs, from, to, carried, at);
    DebitKeys(docs, ready, LiveSender(tx), at);
    CreditKeys(docs, StageDebit(docs, ready, LiveSender(tx), at).value, LiveCredits(fees, tx), at);
    assert LiveCredits(fees, tx)[0].addr == to;
  }

  lemma DebitKeys(docs: Docs, stage: Docs, s: Sender, at: int)
    requires Keyed(docs) && Keyed(stage) && StageDebit(docs, stage, s, at).Some?
    ensures StageDebit(docs, stage, s, at).value.Keys == stage.Keys + {s.addr}
            && Keyed(StageDebit(docs, stage, s, at).value)
  {
    assert (docs + stage)[s.addr].address == s.addr;
  }

  /** At most four accounts besides the fee recipients, so 1019 recipients always fit. */
  lemma FewRecipientsFit(fees: FeeTargets, tx: Tx)
    requires LiveShape(fees, tx)
    ensures 0 < |Written(fees, tx)| <= |fees.recipients| + 4
    ensures |fees.recipients| <= 1019 ==> Fits(fees, tx)
  {
    WrittenAreCandidates(fees, tx);
    SizeBetween(Written(fees, tx), tx.from.value, Candidates(fees, tx));
  }

  lemma WrittenAreCandidates(fees: FeeTargets, tx: Tx)
    requires LiveShape(fees, tx)
    ensures Written(fees, tx) <= Elements(Candidates(fees, tx))
    ensures |Candidates(fees, tx)| == |fees.recipients| + 4
  {
    LiveCreditsAgree(fees, tx, 0);
    TouchedAreCandidates(fees, tx);
    var cand := Candidates(fees, tx);
    assert cand[0] == tx.from.value && cand[1] == tx.to.value;
  }

  lemma SizeBetween(keys: set<Address>, a: Address, cand: seq<Address>)
    requires a in keys && keys <= Elements(cand)
    ensures 0 < |keys| <= |cand|
  {
    ElementsSize(cand);
    SubsetSize(keys, Elements(cand));
  }

  /** Exactly which transactions commit live, whatever the database answers. */
  lemma CommitsExactly(db: Db, legacy: MarkerDb, fees: FeeTargets, tx: Tx, seconds: int, carried: map<Address, U64>,
                       at: int,
                       lookup: bool, up: bool)
    requires Keyed(db.docs)
    ensures AttemptTx(db, legacy, fees, tx, seconds, carried, at, lookup, up).Committed?
            <==> LiveShape(fees, tx) && !(lookup && IsApplied(db.markers, legacy, tx.hash))
                 && CanPay(db.docs, fees, tx, carried) && Fits(fees, tx) && up
  {
    if LiveShape(fees, tx) {
      StageExactly(db.docs, fees, tx, carried, Nanos(seconds));
      if LiveStage(db.docs, fees, tx, carried, Nanos(seconds)).Some? {
        StageKeys(db.docs, fees, tx, carried, Nanos(seconds));
        FewRecipientsFit(fees, tx);
      }
    }
  }

  // ----- A failing marker lookup -----

  /** `processTransaction` goes on when it cannot read the marker. Over every run, a transaction it
      has applied since is then refused all the same, because its sender's nonce has moved on. The
      one way out is a sender whose nonce wrapped. */
  lemma FailedLookupIsHarmless(base: Db, legacy: MarkerDb, steps: seq<Step>, chain: Hash -> Effect,
                               fees: FeeTargets, tx: Tx, seconds: int, carried: map<Address, U64>, at: int, up: bool)
    requires Keyed(base.docs) && forall s :: s in steps ==> Sound(s) && On(chain, s)
    requires NewlyApplied(base, legacy, Run(base, legacy, steps).markers, tx.hash)
             && chain(tx.hash) == EffectOf(fees, tx)
    requires tx.from.Some? ==> tx.from.value !in RunSlack(base, legacy, steps).wrapped && tx.nonce != MAX_U64
    ensures AttemptTx(Run(base, legacy, steps), legacy, fees, tx, seconds, carried, at, false, up).Refused?
  {
    if LiveShape(fees, tx) {
      AppliedMovesNonce(base, legacy, steps, chain, fees, tx);
      StaleIsRefused(Run(base, legacy, steps), legacy, fees, tx, seconds, carried, at, up);
    }
  }

  lemma StaleIsRefused(db: Db, legacy: MarkerDb, fees: FeeTargets, tx: Tx, seconds: int, carried: map<Address, U64>,
                       at: int, up: bool)
    requires Keyed(db.docs) && LiveShape(fees, tx) && NonceOf(db.docs, tx.from.value) > tx.nonce
    ensures AttemptTx(db, legacy, fees, tx, seconds, carried, at, false, up).Refused?
  {
    StageExactly(db.docs, fees, tx, carried, Nanos(seconds));
  }

  lemma AppliedMovesNonce(base: Db, legacy: MarkerDb, steps: seq<Step>, chain: Hash -> Effect, fees: FeeTargets, tx: Tx)
    requires Keyed(base.docs) && LiveShape(fees, tx) && forall s :: s in steps ==> Sound(s) && On(chain, s)
    requires NewlyApplied(base, legacy, Run(base, legacy, steps).markers, tx.hash)
             && chain(tx.hash) == EffectOf(fees, tx)
    requires tx.from.value !in RunSlack(base, legacy, steps).wrapped && tx.nonce != MAX_U64
    ensures NonceOf(Run(base, legacy, steps).docs, tx.from.value) > tx.nonce && Keyed(Run(base, legacy, steps).docs)
  {
    var log := LedgerInvariant(base, legacy, steps, chain);
    assert Logged(log, tx.hash);
    var e :| e in log && e.hash == tx.hash;
    LiveSenderAgrees(fees, tx);
    LoggedMovesNonce(base.docs, log, RunSlack(base, legacy, steps), Run(base, legacy, steps).docs, e, tx.from.value);
  }

  lemma LoggedMovesNonce(before: Docs, log: seq<Effect>, slack: Slack, after: Docs, e: Effect, x: Address)
    requires Advances(before, log, slack, after) && e in log && Sends(e, x)
    requires x !in slack.wrapped && e.sender.value.nonce != MAX_U64
    ensures NonceOf(after, x) > e.sender.value.nonce
  {
    assert Moves(before, log, slack, after, x);
    NonceMaxIsBound(log, x);
  }

  /** At the last nonce the way out is real: after a live commit, an attempt that cannot read the
      marker commits the same transaction again exactly if the sender can still pay for it. */
  lemma LastNonceCommitsAgainExactly(db: Db, legacy: MarkerDb, fees: FeeTargets, tx: Tx, seconds: int,
                                     carried: map<Address, U64>, at: int)
    requires Keyed(db.docs) && tx.nonce == MAX_U64 && ProcessTx(db, legacy, fees, tx, seconds, carried, at).Committed?
    ensures var next := ProcessTx(db, legacy, fees, tx, seconds, carried, at).db;
            AttemptTx(next, legacy, fees, tx, seconds, carried, at, false, true).Committed?
            <==> BalanceOf(next.docs, tx.from.value) >= LiveValue(tx) + GasFee(tx)
  {
    var next := ProcessTx(db, legacy, fees, tx, seconds, carried, at).db;
    CommitsExactly(db, legacy, fees, tx, seconds, carried, at, true, true);
    LiveAdvances(db, legacy, fees, tx, seconds, carried, at);
    CommitsExactly(next, legacy, fees, tx, seconds, carried, at, false, true);
    PayableAgain(db.docs, fees, tx, next.docs, carried);
  }

  lemma PayableAgain(before: Docs, fees: FeeTargets, tx: Tx, after: Docs, carried: map<Address, U64>)
    requires LiveShape(fees, tx) && Advances(before, [EffectOf(fees, tx)], LiveSlack(tx), after) && tx.nonce == MAX_U64
    ensures CanPay(after, fees, tx, carried) <==> BalanceOf(after, tx.from.value) >= LiveValue(tx) + GasFee(tx)
  {
    forall a | a in Written(fees, tx) ensures Spendable(after, a) {
      WrittenIsReadable(before, fees, tx, after, a);
    }
    var cs := LiveCredits(fees, tx);
    assert cs[0].addr == tx.to.value;
    assert forall c :: c in cs ==> c.addr in CreditedBy(cs);
    assert cs[0] in cs && Spendable(after, tx.to.value) && Spendable(after, tx.from.value);
    assert after[tx.from.value].txNonce <= tx.nonce;
    assert forall c :: c in cs ==> Spendable(after, c.addr);
  }

  lemma WrittenIsReadable(before: Docs, fees: FeeTargets, tx: Tx, after: Docs, a: Address)
    requires LiveShape(fees, tx) && Advances(before, [EffectOf(fees, tx)], LiveSlack(tx), after)
             && a in Written(fees, tx)
    ensures Spendable(after, a)
  {
    LiveSenderAgrees(fees, tx);
    LiveCreditsAgree(fees, tx, a);
    OneEffect(EffectOf(fees, tx), a);
    assert Moves(before, [EffectOf(fees, tx)], LiveSlack(tx), after, a);
  }
}

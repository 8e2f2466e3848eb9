/** Inputs on which the ledger falls short of what one might expect of it. The exact conditions
    are in LedgerAgreement and Rollback. */
module LedgerExamples {
  import opened Types
  import opened Decimal
  import opened Fees
  import opened Deltas
  import opened Partition
  import opened Markers
  import opened Ledger
  import opened LedgerMeaning
  import opened LedgerRuns
  import opened LedgerAgreement
  import opened LiveProgress
  import opened Rollback

  /** A transfer of nothing to an account that does not exist yet, which live execution commits. */
  ghost predicate OpensForNothing(db: Db, legacy: MarkerDb, fees: FeeTargets, tx: Tx, carried: map<Address, U64>) {
    && Keyed(db.docs) && fees.recipients == [] && !IsApplied(db.markers, legacy, tx.hash)
    && LiveShape(fees, tx) && CanPay(db.docs, fees, tx, carried) && Moved(tx) == 0 && tx.to.value !in db.docs
    && tx.to.value !in {tx.from.value, fees.coinbase.value, fees.zkvm.value}
  }

  lemma NothingTouched(fees: FeeTargets, tx: Tx)
    requires LiveShape(fees, tx) && fees.recipients == [] && Moved(tx) == 0
    ensures Touched(EffectOf(fees, tx)) == {tx.from.value, fees.coinbase.value, fees.zkvm.value}
  {
    var fee := GasFee(tx);
    assert Canonical([]) == [];
    var cs := EffectOf(fees, tx).credits;
    assert cs == [FeeCredit(fees.coinbase.value, CoinbaseShare(fee)), FeeCredit(fees.zkvm.value, ZkvmShare(fee))];
    assert cs[0].addr == fees.coinbase.value && cs[1].addr == fees.zkvm.value;
    assert CreditedBy(cs) == {fees.coinbase.value, fees.zkvm.value};
  }

  lemma ReconAloneKeys(fees: FeeTargets, tx: Tx)
    ensures DeltasOf(EffectsOf(fees, InGroup([tx], [tx.hash]))).Keys == Touched(EffectOf(fees, tx))
  {
    SingleLog(fees, tx);
    var e := EffectOf(fees, tx);
    forall x: Address ensures x in DeltasOf([e]) <==> x in Touched(e) {
      DeltasMeaning([e], x);
      OneEffect(e, x);
    }
  }

  lemma ReconAloneCommits(db: Db, fees: FeeTargets, tx: Tx, seconds: int, at: int)
    requires |Touched(EffectOf(fees, tx))| <= 3
    requires forall a :: a in Touched(EffectOf(fees, tx)) ==> a in db.docs ==> Parse(db.docs[a].balance).Some?
    ensures ReconAlone(db, fees, tx, seconds, at).Some?
  {
    ReconAloneKeys(fees, tx);
  }

  lemma ThreeAccounts(a: Address, b: Address, c: Address)
    ensures |{a, b, c}| <= 3
  {}

  /** Live execution opens the receiver, reconciliation does not. */
  lemma PathsPart(db: Db, legacy: MarkerDb, fees: FeeTargets, tx: Tx, carried: map<Address, U64>, seconds: int, at: int)
    requires OpensForNothing(db, legacy, fees, tx, carried) && tx.nonce < MAX_U64
    ensures Parted(ProcessTx(db, legacy, fees, tx, seconds, carried, at), ReconAlone(db, fees, tx, seconds, at))
  {
    ReceiverUntouched(db, legacy, fees, tx, carried);
    LiveCommits(db, legacy, fees, tx, carried, seconds, at);
    ReconCommitsToo(db, legacy, fees, tx, carried, seconds, at);
    SameAccountSetExactly(db, legacy, fees, tx, seconds, carried, at);
  }

  /** Both paths commit and leave different sets of accounts. */
  predicate Parted(live: LiveResult, recon: Option<Db>) {
    live.Committed? && recon.Some? && live.db.docs.Keys != recon.value.docs.Keys
  }

  lemma LiveCommits(db: Db, legacy: MarkerDb, fees: FeeTargets, tx: Tx, carried: map<Address, U64>, seconds: int,
                    at: int)
    requires OpensForNothing(db, legacy, fees, tx, carried)
    ensures ProcessTx(db, legacy, fees, tx, seconds, carried, at).Committed?
  {
    CommitsExactly(db, legacy, fees, tx, seconds, carried, at, true, true);
    FewRecipientsFit(fees, tx);
  }

  lemma ReceiverUntouched(db: Db, legacy: MarkerDb, fees: FeeTargets, tx: Tx, carried: map<Address, U64>)
    requires OpensForNothing(db, legacy, fees, tx, carried)
    ensures !(tx.to.value in db.docs || tx.to.value in Touched(EffectOf(fees, tx)))
  {
    NothingTouched(fees, tx);
  }

  lemma ReconCommitsToo(db: Db, legacy: MarkerDb, fees: FeeTargets, tx: Tx, carried: map<Address, U64>, seconds: int,
                        at: int)
    requires OpensForNothing(db, legacy, fees, tx, carried)
    ensures ReconAlone(db, fees, tx, seconds, at).Some?
  {
    NothingTouched(fees, tx);
    ThreeAccounts(tx.from.value, fees.coinbase.value, fees.zkvm.value);
    FeePayable(db, legacy, fees, tx, carried);
    ReconAloneCommits(db, fees, tx, seconds, at);
  }

  lemma FeePayable(db: Db, legacy: MarkerDb, fees: FeeTargets, tx: Tx, carried: map<Address, U64>)
    requires OpensForNothing(db, legacy, fees, tx, carried)
    ensures Spendable(db.docs, tx.from.value) && Spendable(db.docs, fees.coinbase.value)
            && Spendable(db.docs, fees.zkvm.value)
  {
    var fee := GasFee(tx);
    assert Canonical([]) == [];
    var cs := LiveCredits(fees, tx);
    assert cs[1] == FeeCredit(fees.coinbase.value, CoinbaseShare(fee))
           && cs[2] == FeeCredit(fees.zkvm.value, ZkvmShare(fee));
    assert cs[1] in cs && cs[2] in cs;
  }

  lemma ReconAloneOnce(db: Db, legacy: MarkerDb, fees: FeeTargets, tx: Tx, seconds: int, at: int)
    requires Keyed(db.docs) && Clock(at) && !IsApplied(db.markers, legacy, tx.hash)
             && ReconAlone(db, fees, tx, seconds, at).Some?
    ensures ExactlyOnce(db, legacy, [EffectOf(fees, tx)], TIGHT, ReconAlone(db, fees, tx, seconds, at).value)
  {
    var blk := Block(0, 0, seconds, [], 0, fees, [tx]);
    assert Hashes(blk.txs)[0] == tx.hash;
    GroupOnce(db, legacy, blk, [tx.hash], at);
    SingleLog(fees, tx);
  }

  lemma SingleLog(fees: FeeTargets, tx: Tx)
    ensures EffectsOf(fees, InGroup([tx], [tx.hash])) == [EffectOf(fees, tx)]
  {
    GroupOfOne(tx);
  }

  /** A block that fails on its first transaction has nothing to revoke. If a reconciliation
      committed after its snapshot and the block restores an account it touched, the marker
      stays and the account is back to what it was before. */
  lemma ReconBetweenIsLost(db: Db, legacy: MarkerDb, fees: FeeTargets, tx: Tx, seconds: int, at: int,
                           restored: set<Address>, x: Address)
    requires Keyed(db.docs) && Clock(at) && !IsApplied(db.markers, legacy, tx.hash)
             && ReconAlone(db, fees, tx, seconds, at).Some?
    requires x in restored && x in Touched(EffectOf(fees, tx))
    ensures var end := RolledBack(db, ReconAlone(db, fees, tx, seconds, at).value, [], restored);
            && IsApplied(end.markers, legacy, tx.hash) && BalanceOf(end.docs, x) == BalanceOf(db.docs, x)
            && SentOf(end.docs, x) == SentOf(db.docs, x) && NonceOf(end.docs, x) == NonceOf(db.docs, x)
  {
    var e := EffectOf(fees, tx);
    ReconAloneOnce(db, legacy, fees, tx, seconds, at);
    RestoredExactly(db, legacy, [e], TIGHT, ReconAlone(db, fees, tx, seconds, at).value, [], restored, x, tx.hash);
    assert [e][0] in [e];
  }

  /** If that account sends the transaction or is paid by it, no history whatever explains the result. */
  lemma ReconUnexplained(db: Db, legacy: MarkerDb, fees: FeeTargets, tx: Tx, seconds: int, at: int,
                         restored: set<Address>, chain: Hash -> Effect, hist: History, x: Address)
    requires Keyed(db.docs) && Clock(at) && !IsApplied(db.markers, legacy, tx.hash)
             && ReconAlone(db, fees, tx, seconds, at).Some?
    requires x in restored && chain(tx.hash) == EffectOf(fees, tx)
    requires Sends(EffectOf(fees, tx), x) || (Pays(chain) && BalanceOn(x)(EffectOf(fees, tx)) != 0)
    ensures !NothingSkipped(db, legacy, chain, hist,
                            RolledBack(db, ReconAlone(db, fees, tx, seconds, at).value, [], restored))
  {
    ReconAloneOnce(db, legacy, fees, tx, seconds, at);
    LoneUnexplained(db, legacy, EffectOf(fees, tx), ReconAlone(db, fees, tx, seconds, at).value, restored, chain, hist,
                    x);
  }

  lemma LoneUnexplained(db: Db, legacy: MarkerDb, e: Effect, after: Db, restored: set<Address>, chain: Hash -> Effect,
                        hist: History, x: Address)
    requires ExactlyOnce(db, legacy, [e], TIGHT, after) && chain(e.hash) == e && x in restored
    requires Sends(e, x) || (Pays(chain) && BalanceOn(x)(e) != 0)
    ensures !NothingSkipped(db, legacy, chain, hist, RolledBack(db, after, [], restored))
  {
    NoHistoryExplains(db, legacy, chain, [e], TIGHT, after, [], restored, hist, e, x);
  }

  /** Account 1 sends nothing, free of charge, to account 4. */
  lemma FreeTransfer(nonce: U64, stored: U64)
    returns (db: Db, legacy: MarkerDb, fees: FeeTargets, tx: Tx, carried: map<Address, U64>)
    requires stored <= nonce
    ensures OpensForNothing(db, legacy, fees, tx, carried) && tx.nonce == nonce
            && NonceOf(db.docs, tx.from.value) == stored
  {
    var docs: Docs := map[1 := Plain(1, stored), 2 := Plain(2, 0), 3 := Plain(3, 0)];
    db, legacy, carried := Db(docs, map[]), map[], map[4 := 9];
    fees := FeeTargets(Some(2), Some(3), []);
    tx := Tx(7, Some(1), Some(4), Some(0), 0, nonce, 1, Some(0), None, None);
    assert !IsApplied(db.markers, legacy, tx.hash);
    FreePayable(docs, fees, tx, carried);
  }

  function Plain(a: Address, txNonce: U64): Account { Account("", 9, a, "0", txNonce, 0, "user", 0, 0, None) }

  lemma FreePayable(docs: Docs, fees: FeeTargets, tx: Tx, carried: map<Address, U64>)
    requires forall a :: a in {1, 2, 3} ==> a in docs && docs[a].balance == "0"
    requires docs[1].txNonce <= tx.nonce
    requires fees == FeeTargets(Some(2), Some(3), []) && carried == map[4 := 9]
    requires tx.from == Some(1) && tx.to == Some(4) && tx.value == Some(0) && tx.gasPrice == Some(0) && tx.kind == 0
    requires 4 !in docs
    ensures LiveShape(fees, tx) && CanPay(docs, fees, tx, carried)
  {
    GasFeeIsProduct(tx);
    assert GasFee(tx) == 0;
    assert Canonical([]) == [];
    assert Format(0) == "0";
    var cs := LiveCredits(fees, tx);
    assert cs == [FeeCredit(4, 0), FeeCredit(2, 0), FeeCredit(3, 0)];
  }

  /** At the last nonce live execution stores zero and reconciliation keeps what was stored. */
  lemma LastNonceParts(seconds: int, at: int)
    returns (db: Db, legacy: MarkerDb, fees: FeeTargets, tx: Tx, carried: map<Address, U64>)
    ensures var live := ProcessTx(db, legacy, fees, tx, seconds, carried, at);
            var recon := ReconAlone(db, fees, tx, seconds, at);
            live.Committed? && recon.Some? && tx.from.Some?
            && NonceOf(live.db.docs, tx.from.value) != NonceOf(recon.value.docs, tx.from.value)
  {
    db, legacy, fees, tx, carried := FreeTransfer(MAX_U64, 1);
    LiveCommits(db, legacy, fees, tx, carried, seconds, at);
    ReconCommitsToo(db, legacy, fees, tx, carried, seconds, at);
    SameNonceExactly(db, legacy, fees, tx, seconds, carried, at);
  }

  /** Both shortfalls occur. */
  lemma ShortfallsOccur(seconds: int, at: int)
    returns (db: Db, legacy: MarkerDb, fees: FeeTargets, tx: Tx, carried: map<Address, U64>, restored: set<Address>)
    requires Clock(at)
    ensures Parted(ProcessTx(db, legacy, fees, tx, seconds, carried, at), ReconAlone(db, fees, tx, seconds, at))
    ensures forall chain: Hash -> Effect, hist: History :: chain(tx.hash) == EffectOf(fees, tx) ==>
              !NothingSkipped(db, legacy, chain, hist, RolledBack(db, ReconAlone(db, fees, tx, seconds, at).value, [],
                                                                  restored))
  {
    db, legacy, fees, tx, carried := FreeTransfer(0, 0);
    restored := {tx.from.value};
    PathsPart(db, legacy, fees, tx, carried, seconds, at);
    LiveSenderAgrees(fees, tx);
    forall chain: Hash -> Effect, hist: History | chain(tx.hash) == EffectOf(fees, tx)
      ensures !NothingSkipped(db, legacy, chain, hist, RolledBack(db, ReconAlone(db, fees, tx, seconds, at).value, [],
                                                                  restored))
    {
      ReconUnexplained(db, legacy, fees, tx, seconds, at, restored, chain, hist, tx.from.value);
    }
  }
}

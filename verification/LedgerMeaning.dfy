/** What a commit does to the accounts, said without naming the code path that made it:
    the documents move by exactly the effects of the transactions it marks. */
module LedgerMeaning {
  import opened Types
  import opened Decimal
  import opened Sums
  import opened Fees
  import opened Deltas
  import opened Partition
  import opened Markers
  import opened Ledger
  import opened Documents

  /** Where live execution may differ from the transactions alone: receivers it opened or rewrote
      without any change of value, and senders whose nonce it wrapped. */
  datatype Slack = Slack(created: set<Address>, wrapped: set<Address>)

  const TIGHT: Slack := Slack({}, {})

  function Join(a: Slack, b: Slack): Slack { Slack(a.created + b.created, a.wrapped + b.wrapped) }

  /** Account `x` after the transactions of `log`, starting from `before`. */
  ghost predicate Moves(before: Docs, log: seq<Effect>, slack: Slack, after: Docs, x: Address) {
    && (x in after <==> x in before || x in TouchedBy(log) || x in slack.created)
    && BalanceOf(after, x) == BalanceOf(before, x) + BalanceSum(log, x)
    && SentOf(after, x) == SentOf(before, x) + SentSum(log, x)
    && (x !in slack.wrapped ==> NonceOf(after, x) == Max(NonceOf(before, x), NonceMax(log, x)))
    && (x in TouchedBy(log) + slack.created ==> after[x].balance == Format(BalanceOf(after, x)))
    && (x !in TouchedBy(log) + slack.created ==> Lookup(after, x) == Lookup(before, x))
  }

  /** Every account moves by the effects of `log` and keeps its profile. */
  ghost predicate Advances(before: Docs, log: seq<Effect>, slack: Slack, after: Docs) {
    && (forall x: Address :: Moves(before, log, slack, after, x))
    && (forall x: Address :: KeepsProfile(before, after, x))
  }

  lemma AdvancesNothing(docs: Docs)
    ensures Advances(docs, [], TIGHT, docs)
  {
    forall x: Address ensures Moves(docs, [], TIGHT, docs, x) {}
  }

  /** Two commits in a row are one longer list of transactions. */
  lemma AdvancesConcat(d0: Docs, l1: seq<Effect>, s1: Slack, d1: Docs, l2: seq<Effect>, s2: Slack, d2: Docs)
    requires Advances(d0, l1, s1, d1) && Advances(d1, l2, s2, d2)
    ensures Advances(d0, l1 + l2, Join(s1, s2), d2)
  {
    forall x: Address ensures Moves(d0, l1 + l2, Join(s1, s2), d2, x) {
      assert Moves(d0, l1, s1, d1, x) && Moves(d1, l2, s2, d2, x);
      MovesConcat(d0, l1, s1, d1, l2, s2, d2, x);
    }
    forall x: Address ensures KeepsProfile(d0, d2, x) {
      assert KeepsProfile(d0, d1, x) && KeepsProfile(d1, d2, x);
      KeepsTwice(d0, d1, d2, x);
    }
  }

  lemma MovesConcat(d0: Docs, l1: seq<Effect>, s1: Slack, d1: Docs, l2: seq<Effect>, s2: Slack, d2: Docs, x: Address)
    requires Moves(d0, l1, s1, d1, x) && Moves(d1, l2, s2, d2, x)
    ensures Moves(d0, l1 + l2, Join(s1, s2), d2, x)
  {
    EffectsConcat(l1, l2, x);
    if x !in TouchedBy(l2) + s2.created {
      UntouchedUnchanged(l2, x);
      MovesThenRests(d0, l1, s1, d1, l1 + l2, Join(s1, s2), d2, x);
    }
  }

  lemma MovesThenRests(d0: Docs, l1: seq<Effect>, s1: Slack, d1: Docs, log: seq<Effect>, slack: Slack, d2: Docs,
                       x: Address)
    requires Moves(d0, l1, s1, d1, x) && Lookup(d2, x) == Lookup(d1, x)
    requires x in TouchedBy(log) + slack.created <==> x in TouchedBy(l1) + s1.created
    requires BalanceSum(log, x) == BalanceSum(l1, x) && SentSum(log, x) == SentSum(l1, x)
    requires NonceMax(log, x) == NonceMax(l1, x) && (x !in slack.wrapped ==> x !in s1.wrapped)
    ensures Moves(d0, log, slack, d2, x)
  {}

  /** A transaction that does not touch an account does not change it. */
  lemma {:induction false} UntouchedUnchanged(log: seq<Effect>, x: Address)
    requires x !in TouchedBy(log)
    ensures BalanceSum(log, x) == 0 && SentSum(log, x) == 0 && NonceMax(log, x) == 0
  {
    if log != [] {
      var front, e := log[..|log| - 1], log[|log| - 1];
      assert TouchedBy(front) <= TouchedBy(log);
      assert e in log && x !in Touched(e);
      UntouchedUnchanged(front, x);
      UncreditedIsZero(e.credits, x);
    }
  }

  lemma {:induction false} UncreditedIsZero(cs: seq<FeeCredit>, x: Address)
    requires x !in CreditedBy(cs)
    ensures CreditSum(cs, x) == 0
  {
    if cs != [] {
      assert cs[|cs| - 1].addr in CreditedBy(cs);
      assert CreditedBy(cs[..|cs| - 1]) <= CreditedBy(cs);
      UncreditedIsZero(cs[..|cs| - 1], x);
    }
  }

  // ----- Reconciliation -----

  lemma WriteLookup(docs: Docs, m: DeltaMap, at: int, x: Address)
    ensures Lookup(WriteDeltas(docs, m, at), x)
            == if x in m then Some(ApplyDelta(Lookup(docs, x), x, m[x], at)) else Lookup(docs, x)
  {}

  lemma DeltaApplied(existing: Option<Account>, x: Address, d: Delta, at: int)
    ensures var doc := ApplyDelta(existing, x, d, at);
            var (balance, nonce, sent) := if existing.Some?
              then (Amount(existing.value.balance), existing.value.txNonce, existing.value.txCountSent) else (0, 0, 0);
            && Amount(doc.balance) == balance + d.balance
            && doc.balance == Format(Amount(doc.balance))
            && doc.txNonce == Max(nonce, d.txNonce)
            && doc.txCountSent == sent + d.sent
  {
    assert Format(0) == "0";
  }

  lemma WriteMoves(docs: Docs, m: DeltaMap, log: seq<Effect>, at: int, x: Address)
    requires Describes(m, log, x)
    ensures Moves(docs, log, TIGHT, WriteDeltas(docs, m, at), x)
  {
    WriteLookup(docs, m, at, x);
    if x in m {
      DeltaApplied(Lookup(docs, x), x, m[x], at);
    } else {
      UntouchedUnchanged(log, x);
    }
  }

  lemma WriteKeyed(docs: Docs, m: DeltaMap, at: int)
    requires Keyed(docs)
    ensures Keyed(WriteDeltas(docs, m, at))
  {}

  /** Writing the delta map of `log` moves every account by exactly the effects in `log`. */
  lemma WriteAdvances(docs: Docs, log: seq<Effect>, at: int)
    ensures Advances(docs, log, TIGHT, WriteDeltas(docs, DeltasOf(log), at))
  {
    var m := DeltasOf(log);
    forall x: Address ensures Moves(docs, log, TIGHT, WriteDeltas(docs, m, at), x) {
      DeltasMeaning(log, x);
      WriteMoves(docs, m, log, at, x);
    }
    DeltasStamp(docs, m, at);
    StampedKeeps(docs, m.Keys, at, false, map[], WriteDeltas(docs, m, at));
  }

  /** The delta map has exactly the touched accounts. */
  lemma DeltaKeys(log: seq<Effect>)
    ensures DeltasOf(log).Keys == TouchedBy(log)
  {
    forall x: Address ensures x in DeltasOf(log) <==> x in TouchedBy(log) {
      DeltasMeaning(log, x);
    }
  }

  /** Committing a group moves the accounts by the effects of exactly that group. */
  lemma GroupAdvances(db: Db, blk: Block, g: seq<Hash>, appliedAt: int)
    requires CommitGroup(db, blk, g, appliedAt).Some?
    ensures var next := CommitGroup(db, blk, g, appliedAt).value;
            && Advances(db.docs, EffectsOf(blk.fees, InGroup(blk.txs, g)), TIGHT, next.docs)
            && (Keyed(db.docs) ==> Keyed(next.docs))
            && Stamped(db.docs, Written(blk, g), blk.timestamp * 1_000_000_000, false, map[], next.docs)
  {
    var log := EffectsOf(blk.fees, InGroup(blk.txs, g));
    DeltaKeys(log);
    DeltasStamp(db.docs, DeltasOf(log), Nanos(blk.timestamp));
    WriteAdvances(db.docs, log, Nanos(blk.timestamp));
    if Keyed(db.docs) {
      WriteKeyed(db.docs, DeltasOf(log), Nanos(blk.timestamp));
    }
  }

  // ----- Live execution -----

  /** What staged credits do to the account as the transaction sees it. */
  ghost predicate Credited(before: Docs, cs: seq<FeeCredit>, after: Docs, x: Address) {
    && (x in after <==> x in before)
    && BalanceOf(after, x) == BalanceOf(before, x) + CreditSum(cs, x)
    && SentOf(after, x) == SentOf(before, x)
    && NonceOf(after, x) == NonceOf(before, x)
    && (x in CreditedBy(cs) ==> x in after && after[x].balance == Format(BalanceOf(after, x)))
    && (x !in CreditedBy(cs) ==> Lookup(after, x) == Lookup(before, x))
  }

  lemma {:induction false} CreditsStaged(docs: Docs, stage: Docs, cs: seq<FeeCredit>, at: int, x: Address)
    requires Keyed(docs) && Keyed(stage) && StageCredits(docs, stage, cs, at).Some?
    ensures var after := StageCredits(docs, stage, cs, at).value;
            Keyed(after) && Credited(docs + stage, cs, docs + after, x)
  {
    if cs != [] {
      var front, c := cs[..|cs| - 1], cs[|cs| - 1];
      var mid, end := StageCredits(docs, stage, front, at).value, StageCredits(docs, stage, cs, at).value;
      CreditsStaged(docs, stage, front, at, x);
      OneCreditStaged(docs, mid, c, at, x);
      CreditedStep(docs + stage, cs, docs + mid, docs + end, x);
    }
  }

  ghost predicate CreditedOnce(v: Docs, c: FeeCredit, w: Docs, x: Address) {
    && (x in w <==> x in v) && c.addr in v
    && (x == c.addr ==> w[x].balance == Format(BalanceOf(v, x) + c.amount)
                        && w[x].txNonce == v[x].txNonce && w[x].txCountSent == v[x].txCountSent)
    && (x != c.addr ==> Lookup(w, x) == Lookup(v, x))
  }

  lemma CreditedStep(before: Docs, cs: seq<FeeCredit>, mid: Docs, after: Docs, x: Address)
    requires cs != [] && Credited(before, cs[..|cs| - 1], mid, x) && CreditedOnce(mid, cs[|cs| - 1], after, x)
    ensures Credited(before, cs, after, x)
  {
    var front, c := cs[..|cs| - 1], cs[|cs| - 1];
    assert CreditedBy(cs) == CreditedBy(front) + {c.addr};
    if x != c.addr {
      assert Lookup(after, x) == Lookup(mid, x);
    }
  }

  lemma OneCreditStaged(docs: Docs, stage: Docs, c: FeeCredit, at: int, x: Address)
    requires Keyed(docs) && Keyed(stage) && StageCredit(docs, stage, c, at).Some?
    ensures var after := StageCredit(docs, stage, c, at).value;
            Keyed(after) && CreditedOnce(docs + stage, c, docs + after, x)
  {
    assert (docs + stage)[c.addr].address == c.addr;
  }

  /** The accounts one live transaction starts from: stored documents plus a receiver
      created for it, with carried identities adopted. */
  ghost predicate SameLedger(before: Docs, to: Address, after: Docs, x: Address) {
    && (x in after <==> x in before || x == to)
    && BalanceOf(after, x) == BalanceOf(before, x)
    && SentOf(after, x) == SentOf(before, x)
    && NonceOf(after, x) == NonceOf(before, x)
  }

  lemma AdoptKeeps(docs: Docs, stage: Docs, a: Address, carried: map<Address, U64>)
    requires Keyed(docs) && Keyed(stage)
    ensures var after := Adopt(docs, stage, a, carried);
            && Keyed(after)
            && (docs + after).Keys == (docs + stage).Keys
            && forall x :: (x in docs + after ==> x in docs + stage
                                                  && (docs + after)[x].(nonce := 0) == (docs + stage)[x].(nonce := 0))
                        && (x != a ==> Lookup(docs + after, x) == Lookup(docs + stage, x))
  {}

  lemma DebitStaged(docs: Docs, stage: Docs, s: Sender, at: int, x: Address)
    requires Keyed(docs) && Keyed(stage) && StageDebit(docs, stage, s, at).Some?
    ensures var after := StageDebit(docs, stage, s, at).value;
            Keyed(after) && DebitedOnce(docs + stage, s, docs + after, x)
  {
    assert (docs + stage)[s.addr].address == s.addr;
  }

  ghost predicate DebitedOnce(v: Docs, s: Sender, w: Docs, x: Address) {
    && (x in w <==> x in v) && s.addr in v
    && v[s.addr].txNonce <= s.nonce
    && (x == s.addr ==> w[x].balance == Format(BalanceOf(v, x) - s.debit)
                        && w[x].txNonce == Inc(s.nonce) && w[x].txCountSent == v[x].txCountSent + 1)
    && (x != s.addr ==> Lookup(w, x) == Lookup(v, x))
  }

  /** A zero-value credit to the receiver is the only thing live execution adds to the credits
      reconciliation gives. */
  lemma LiveCreditsAgree(fees: FeeTargets, tx: Tx, x: Address)
    requires LiveShape(fees, tx)
    ensures CreditSum(LiveCredits(fees, tx), x) == CreditSum(EffectOf(fees, tx).credits, x)
    ensures CreditedBy(LiveCredits(fees, tx)) == CreditedBy(EffectOf(fees, tx).credits) + {tx.to.value}
  {
    var rest := FeeCredits(fees, GasFee(tx));
    var c := FeeCredit(tx.to.value, LiveValue(tx));
    SumConcat([c], rest, AmountTo(x));
    SumConcat(ReceiverCredits(tx), rest, AmountTo(x));
    SumOne(c, AmountTo(x));
    assert CreditedBy([c] + rest) == {tx.to.value} + CreditedBy(rest);
    assert CreditedBy(ReceiverCredits(tx) + rest) == CreditedBy(ReceiverCredits(tx)) + CreditedBy(rest);
  }

  /** Preparing a live transaction changes no balance, nonce or count. */
  lemma ReadyMeaning(docs: Docs, from: Address, to: Address, carried: map<Address, U64>, at: int, x: Address)
    requires Keyed(docs) && Ready(docs, from, to, carried, at).Some?
    ensures var ready := Ready(docs, from, to, carried, at).value;
            && Keyed(ready)
            && SameLedger(docs, to, docs + ready, x)
            && (x != from && x != to ==> Lookup(docs + ready, x) == Lookup(docs, x))
  {
    var created := StageReceiver(docs, to, carried, at).value;
    assert Format(0) == "0";
    AdoptKeeps(docs, created, from, carried);
    AdoptKeeps(docs, Adopt(docs, created, from, carried), to, carried);
  }

  /** `x` after one debit and a list of credits, with `to` opened. */
  ghost predicate Paid(before: Docs, s: Sender, cs: seq<FeeCredit>, to: Address, after: Docs, x: Address) {
    && (x in after <==> x in before || x == to)
    && BalanceOf(after, x) == BalanceOf(before, x) - (if x == s.addr then s.debit else 0) + CreditSum(cs, x)
    && SentOf(after, x) == SentOf(before, x) + (if x == s.addr then 1 else 0)
    && NonceOf(after, x) == (if x == s.addr then Inc(s.nonce) else NonceOf(before, x))
    && (x == s.addr ==> NonceOf(before, x) <= s.nonce)
    && (x == s.addr || x in CreditedBy(cs) ==> x in after && after[x].balance == Format(BalanceOf(after, x)))
    && (x != s.addr && x != to && x !in CreditedBy(cs) ==> Lookup(after, x) == Lookup(before, x))
  }

  lemma StagePays(docs: Docs, s: Sender, cs: seq<FeeCredit>, to: Address, carried: map<Address, U64>, at: int,
                  x: Address)
    requires Keyed(docs) && Ready(docs, s.addr, to, carried, at).Some?
    requires StageDebit(docs, Ready(docs, s.addr, to, carried, at).value, s, at).Some?
    requires StageCredits(docs, StageDebit(docs, Ready(docs, s.addr, to, carried, at).value, s, at).value, cs, at).Some?
    ensures var debited := StageDebit(docs, Ready(docs, s.addr, to, carried, at).value, s, at).value;
            var after := StageCredits(docs, debited, cs, at).value;
            Keyed(after) && Paid(docs, s, cs, to, docs + after, x)
  {
    var ready := Ready(docs, s.addr, to, carried, at).value;
    var debited := StageDebit(docs, ready, s, at).value;
    ReadyMeaning(docs, s.addr, to, carried, at, x);
    DebitStaged(docs, ready, s, at, x);
    CreditsStaged(docs, debited, cs, at, x);
    PaidInSteps(docs, docs + ready, docs + debited, docs + StageCredits(docs, debited, cs, at).value, s, cs, to, x);
  }

  lemma PaidInSteps(before: Docs, ready: Docs, debited: Docs, after: Docs, s: Sender, cs: seq<FeeCredit>, to: Address,
                    x: Address)
    requires SameLedger(before, to, ready, x) && (x != s.addr && x != to ==> Lookup(ready, x) == Lookup(before, x))
    requires DebitedOnce(ready, s, debited, x) && Credited(debited, cs, after, x)
    ensures Paid(before, s, cs, to, after, x)
  {
    if x != s.addr {
      assert Lookup(debited, x) == Lookup(ready, x);
    }
  }

  /** The receiver of a live transaction, and its sender if its nonce is the last one. */
  function LiveSlack(tx: Tx): Slack
    requires tx.from.Some? && tx.to.Some?
  {
    Slack({tx.to.value}, Wrapping(tx.from.value, tx.nonce))
  }

  function Wrapping(from: Address, nonce: U64): set<Address> { if nonce == MAX_U64 then {from} else {} }

  lemma PaidMoves(before: Docs, e: Effect, cs: seq<FeeCredit>, to: Address, after: Docs, x: Address)
    requires e.sender.Some?
    requires Paid(before, e.sender.value, cs, to, after, x)
    requires CreditSum(cs, x) == CreditSum(e.credits, x)
    requires CreditedBy(cs) == CreditedBy(e.credits) + {to}
    ensures Moves(before, [e], Slack({to}, Wrapping(e.sender.value.addr, e.sender.value.nonce)), after, x)
  {
    OneEffect(e, x);
  }

  lemma LivePays(docs: Docs, fees: FeeTargets, tx: Tx, carried: map<Address, U64>, at: int, x: Address)
    requires Keyed(docs) && LiveShape(fees, tx) && LiveStage(docs, fees, tx, carried, at).Some?
    ensures var stage := LiveStage(docs, fees, tx, carried, at).value;
            Keyed(stage) && Paid(docs, LiveSender(tx), LiveCredits(fees, tx), tx.to.value, docs + stage, x)
  {
    StagePays(docs, LiveSender(tx), LiveCredits(fees, tx), tx.to.value, carried, at, x);
  }

  lemma LiveSenderAgrees(fees: FeeTargets, tx: Tx)
    requires LiveShape(fees, tx)
    ensures EffectOf(fees, tx).sender == Some(LiveSender(tx))
  {}

  /** A live commit moves every account as reconciliation's delta for the same transaction
      would; at most it also opens the receiver. */
  lemma LiveMoves(docs: Docs, fees: FeeTargets, tx: Tx, carried: map<Address, U64>, at: int, x: Address)
    requires Keyed(docs) && LiveShape(fees, tx) && LiveStage(docs, fees, tx, carried, at).Some?
    ensures var stage := LiveStage(docs, fees, tx, carried, at).value;
            Keyed(stage) && Moves(docs, [EffectOf(fees, tx)], LiveSlack(tx), docs + stage, x)
  {
    LivePays(docs, fees, tx, carried, at, x);
    LiveSenderAgrees(fees, tx);
    LiveCreditsAgree(fees, tx, x);
    PaidMoves(docs, EffectOf(fees, tx), LiveCredits(fees, tx), tx.to.value,
              docs + LiveStage(docs, fees, tx, carried, at).value, x);
  }

  lemma OneEffect(e: Effect, x: Address)
    ensures BalanceSum([e], x) == BalanceOn(x)(e)
    ensures SentSum([e], x) == SentOn(x)(e)
    ensures NonceMax([e], x) == NonceOn(e, x)
    ensures TouchedBy([e]) == Touched(e)
  {
    SumOne(e, BalanceOn(x));
    SumOne(e, SentOn(x));
    assert [e][..0] == [];
  }

  lemma LiveAdvances(db: Db, legacy: MarkerDb, fees: FeeTargets, tx: Tx, seconds: int, carried: map<Address, U64>,
                     appliedAt: int)
    requires Keyed(db.docs)
    requires ProcessTx(db, legacy, fees, tx, seconds, carried, appliedAt).Committed?
    ensures var next := ProcessTx(db, legacy, fees, tx, seconds, carried, appliedAt).db;
            && Advances(db.docs, [EffectOf(fees, tx)], LiveSlack(tx), next.docs)
            && Keyed(next.docs)
            && Stamped(db.docs, Touched(EffectOf(fees, tx)) + {tx.to.value}, seconds * 1_000_000_000, true,
                       Names(tx.from.value, tx.to.value, carried), next.docs)
  {
    var next := ProcessTx(db, legacy, fees, tx, seconds, carried, appliedAt).db;
    LiveStamps(db.docs, fees, tx, carried, Nanos(seconds));
    StampedKeeps(db.docs, Touched(EffectOf(fees, tx)) + {tx.to.value}, Nanos(seconds), true,
                 Names(tx.from.value, tx.to.value, carried), next.docs);
    LiveMoves(db.docs, fees, tx, carried, Nanos(seconds), 0);
    forall x: Address ensures Moves(db.docs, [EffectOf(fees, tx)], LiveSlack(tx), next.docs, x) {
      LiveMoves(db.docs, fees, tx, carried, Nanos(seconds), x);
    }
  }
}

/** From validation to execution: a block that passes validation is executed live without a
    refusal, transaction by transaction. */
module Admission {
  import opened Types
  import opened Fees
  import opened Deltas
  import opened Markers
  import opened Ledger
  import opened LedgerMeaning
  import opened LedgerRuns
  import opened LiveProgress
  import V = Validation

  /** Everyone who may be paid a fee has a readable account. */
  ghost predicate FeesReady(docs: Docs, fees: FeeTargets) {
    && fees.coinbase.Some? && Spendable(docs, fees.coinbase.value)
    && fees.zkvm.Some? && Spendable(docs, fees.zkvm.value)
    && (forall r :: r in fees.recipients ==> Spendable(docs, r.addr))
  }

  /** The transactions name a receiver that exists or that the block carries an identity for,
      their amounts are checked, and stored balances can be read. */
  ghost predicate TxsReady(docs: Docs, txs: seq<Tx>, carried: map<Address, U64>) {
    && (forall t :: t in txs ==> V.ValuesChecked(t) && t.to.Some? && Receivable(docs, t.to.value, carried))
    && (forall a :: a in docs && a in V.Named(txs) ==> Spendable(docs, a))
  }

  function LiveSteps(fees: FeeTargets, txs: seq<Tx>, seconds: int, carried: map<Address, U64>, at: int): (r: seq<Step>)
    ensures |r| == |txs|
  {
    if txs == [] then []
    else LiveSteps(fees, txs[..|txs| - 1], seconds, carried, at) + [Live(fees, txs[|txs| - 1], seconds, carried, at)]
  }

  /** Live execution may open every receiver, and wraps the nonce of a sender at the last one. */
  function Receivers(txs: seq<Tx>): Slack {
    Slack(set t | t in txs && t.to.Some? :: t.to.value,
          set t | t in txs && t.from.Some? && t.nonce == MAX_U64 :: t.from.value)
  }

  /** A readable account stays readable, and an opened one is. */
  lemma StaysSpendable(base: Docs, log: seq<Effect>, slack: Slack, docs: Docs, a: Address)
    requires Moves(base, log, slack, docs, a) && (a in base ==> Spendable(base, a))
    ensures a in docs ==> Spendable(docs, a)
    ensures a in base ==> a in docs
  {
    if a in docs && a !in TouchedBy(log) + slack.created {
      assert Lookup(docs, a) == Lookup(base, a);
    }
  }

  lemma FeeAccountsReady(docs: Docs, fees: FeeTargets, fee: int)
    requires FeesReady(docs, fees)
    ensures forall c :: c in FeeCredits(fees, fee) ==> Spendable(docs, c.addr)
  {
    CreditsGoToTargets(fee, fees.coinbase.value, fees.recipients);
    forall c | c in FeeCredits(fees, fee) ensures Spendable(docs, c.addr) {
      if c in CoinbaseSide(fees, fee) && c.addr != fees.coinbase.value {
        var r :| r in fees.recipients && r.addr == c.addr;
      }
    }
  }

  lemma FeesStayReady(base: Docs, log: seq<Effect>, slack: Slack, docs: Docs, fees: FeeTargets)
    requires Advances(base, log, slack, docs) && FeesReady(base, fees)
    ensures FeesReady(docs, fees)
  {
    forall a | Spendable(base, a) ensures Spendable(docs, a) {
      assert Moves(base, log, slack, docs, a);
      StaysSpendable(base, log, slack, docs, a);
    }
  }

  lemma Shaped(fees: FeeTargets, tx: Tx)
    requires fees.coinbase.Some? && fees.zkvm.Some? && tx.from.Some? && tx.to.Some? && V.ValuesChecked(tx)
    ensures LiveShape(fees, tx) && LiveValue(tx) == Moved(tx)
  {}

  /** What validation leaves for the next transaction. */
  lemma NextCanPay(base: Docs, log: seq<Effect>, slack: Slack, docs: Docs, fees: FeeTargets, tx: Tx,
                   carried: map<Address, U64>)
    requires Advances(base, log, slack, docs) && FeesReady(base, fees)
    requires tx.from.Some? && tx.to.Some? && V.ValuesChecked(tx) && Receivable(base, tx.to.value, carried)
    requires Spendable(base, tx.from.value) && (tx.to.value in base ==> Spendable(base, tx.to.value))
    requires BalanceOf(docs, tx.from.value) >= Moved(tx) + GasFee(tx) && NonceOf(docs, tx.from.value) <= tx.nonce
    ensures LiveShape(fees, tx) && CanPay(docs, fees, tx, carried)
  {
    var from, to := tx.from.value, tx.to.value;
    Shaped(fees, tx);
    assert Moves(base, log, slack, docs, from) && Moves(base, log, slack, docs, to);
    StaysSpendable(base, log, slack, docs, from);
    StaysSpendable(base, log, slack, docs, to);
    FeesStayReady(base, log, slack, docs, fees);
    FeeAccountsReady(docs, fees, GasFee(tx));
  }

  lemma NotYetApplied(before: Db, legacy: MarkerDb, fees: FeeTargets, txs: seq<Tx>, k: nat, slack: Slack, mid: Db)
    requires DistinctHashes(txs) && k < |txs| && ExactlyOnce(before, legacy, EffectsOf(fees, txs[..k]), slack, mid)
    requires !IsApplied(before.markers, legacy, txs[k].hash)
    ensures !IsApplied(mid.markers, legacy, txs[k].hash)
  {
    var log := EffectsOf(fees, txs[..k]);
    forall e | e in log ensures e.hash != txs[k].hash {
      var i :| 0 <= i < |log| && log[i] == e;
      assert e == EffectOf(fees, txs[..k][i]);
    }
    assert !Logged(log, txs[k].hash);
  }

  /** Balance and nonce of the next sender, from what validation simulated. */
  lemma NextSender(docs: Docs, fees: FeeTargets, txs: seq<Tx>, allowNew: bool, genuine: Tx -> bool, k: nat)
    requires V.Accepted(docs, txs, allowNew, genuine) && k < |txs|
    requires forall t :: t in txs ==> V.ValuesChecked(t)
    ensures txs[k].from.Some? && txs[k].from.value in docs && txs[k].from.value in V.Named(txs)
    ensures var x := txs[k].from.value;
            BalanceOf(docs, x) + BalanceSum(EffectsOf(fees, txs[..k]), x) >= Moved(txs[k]) + GasFee(txs[k])
    ensures V.CheckAll(V.Loaded(docs, txs), txs[..k], allowNew, genuine).Some?
    ensures var cache := V.CheckAll(V.Loaded(docs, txs), txs[..k], allowNew, genuine).value;
            txs[k].from.value in cache && NonceOf(cache, txs[k].from.value) <= txs[k].nonce
  {
    var cache := V.Loaded(docs, txs);
    V.CheckedAgainst(cache, txs, k, allowNew, genuine);
    V.NoncesTracked(docs, cache, fees, txs[..k], allowNew, genuine, 0);
    V.PrefixCovered(docs, cache, fees, txs, allowNew, genuine, k, txs[k].from.value);
  }

  // ----- Nonces follow the cache -----

  /** Every cached account is stored with the nonce the cache has for it, wrapped ones included. */
  ghost predicate NoncesFollow(docs: Docs, cache: Docs) {
    forall x :: x in cache ==> NonceOf(docs, x) == NonceOf(cache, x)
  }

  lemma LiveNonce(db: Db, legacy: MarkerDb, fees: FeeTargets, tx: Tx, seconds: int, carried: map<Address, U64>, at: int,
                  x: Address)
    requires Keyed(db.docs) && ProcessTx(db, legacy, fees, tx, seconds, carried, at).Committed?
    ensures NonceOf(ProcessTx(db, legacy, fees, tx, seconds, carried, at).db.docs, x)
            == if tx.from == Some(x) then Inc(tx.nonce) else NonceOf(db.docs, x)
  {
    LivePays(db.docs, fees, tx, carried, Nanos(seconds), x);
  }

  lemma StillFollows(db: Db, legacy: MarkerDb, fees: FeeTargets, tx: Tx, seconds: int, carried: map<Address, U64>,
                     at: int, cache: Docs, allowNew: bool, genuine: Tx -> bool)
    requires Keyed(db.docs) && ProcessTx(db, legacy, fees, tx, seconds, carried, at).Committed?
    requires NoncesFollow(db.docs, cache) && V.CheckTx(cache, tx, allowNew, genuine).Some?
    ensures NoncesFollow(ProcessTx(db, legacy, fees, tx, seconds, carried, at).db.docs,
                         V.CheckTx(cache, tx, allowNew, genuine).value)
  {
    var next := V.CheckTx(cache, tx, allowNew, genuine).value;
    forall x | x in next
      ensures NonceOf(ProcessTx(db, legacy, fees, tx, seconds, carried, at).db.docs, x) == NonceOf(next, x)
    {
      V.CheckedNonce(cache, tx, allowNew, genuine, x);
      LiveNonce(db, legacy, fees, tx, seconds, carried, at, x);
    }
  }

  lemma ReceiversSnoc(txs: seq<Tx>, k: nat)
    requires k < |txs| && txs[k].from.Some? && txs[k].to.Some?
    ensures Receivers(txs[..k + 1]) == Join(Receivers(txs[..k]), LiveSlack(txs[k]))
  {
    assert txs[..k + 1] == txs[..k] + [txs[k]];
  }

  lemma StepsSnoc(fees: FeeTargets, txs: seq<Tx>, k: nat, seconds: int, carried: map<Address, U64>, at: int)
    requires k < |txs|
    ensures LiveSteps(fees, txs[..k + 1], seconds, carried, at)
            == LiveSteps(fees, txs[..k], seconds, carried, at) + [Live(fees, txs[k], seconds, carried, at)]
  {
    assert txs[..k + 1][..k] == txs[..k];
  }

  lemma LogSnoc(fees: FeeTargets, txs: seq<Tx>, k: nat)
    requires k < |txs|
    ensures EffectsOf(fees, txs[..k + 1]) == EffectsOf(fees, txs[..k]) + [EffectOf(fees, txs[k])]
  {}

  ghost predicate Admitted(db: Db, legacy: MarkerDb, fees: FeeTargets, txs: seq<Tx>, carried: map<Address, U64>) {
    && Keyed(db.docs) && FeesReady(db.docs, fees) && TxsReady(db.docs, txs, carried) && DistinctHashes(txs)
    && forall t :: t in txs ==> !IsApplied(db.markers, legacy, t.hash) && (LiveShape(fees, t) ==> Fits(fees, t))
  }

  /** After the first `k` transactions: exactly their effects, and the nonces of the cache. */
  ghost predicate Midway(db: Db, legacy: MarkerDb, fees: FeeTargets, txs: seq<Tx>, allowNew: bool, genuine: Tx -> bool,
                         k: nat, mid: Db)
    requires k <= |txs|
  {
    && ExactlyOnce(db, legacy, EffectsOf(fees, txs[..k]), Receivers(txs[..k]), mid)
    && var cache := V.CheckAll(V.Loaded(db.docs, txs), txs[..k], allowNew, genuine);
       cache.Some? && NoncesFollow(mid.docs, cache.value)
  }

  /** The next transaction of a block executed so far without a refusal commits. */
  lemma NextCommits(db: Db, legacy: MarkerDb, fees: FeeTargets, txs: seq<Tx>, allowNew: bool, genuine: Tx -> bool,
                    seconds: int, carried: map<Address, U64>, at: int, k: nat, mid: Db)
    requires Admitted(db, legacy, fees, txs, carried) && V.Accepted(db.docs, txs, allowNew, genuine) && k < |txs|
    requires Midway(db, legacy, fees, txs, allowNew, genuine, k, mid)
    ensures ProcessTx(mid, legacy, fees, txs[k], seconds, carried, at).Committed?
  {
    var log, slack, tx := EffectsOf(fees, txs[..k]), Receivers(txs[..k]), txs[k];
    assert tx in txs;
    NextSender(db.docs, fees, txs, allowNew, genuine, k);
    var x := tx.from.value;
    assert Moves(db.docs, log, slack, mid.docs, x);
    assert tx.to.value in V.Named(txs);
    NextCanPay(db.docs, log, slack, mid.docs, fees, tx, carried);
    NotYetApplied(db, legacy, fees, txs, k, slack, mid);
    CommitsExactly(mid, legacy, fees, tx, seconds, carried, at, true, true);
  }

  /** Every transaction of an accepted block commits live, so the block is never rolled back, and
      the accounts end up with exactly its effects and the nonces validation computed. */
  lemma {:induction false} AcceptedBlockCommits(db: Db, legacy: MarkerDb, fees: FeeTargets, txs: seq<Tx>,
                                                allowNew: bool, genuine: Tx -> bool,
                                                seconds: int, carried: map<Address, U64>, at: int, k: nat)
    requires Admitted(db, legacy, fees, txs, carried) && V.Accepted(db.docs, txs, allowNew, genuine) && Clock(at)
             && k <= |txs|
    ensures var mid := Run(db, legacy, LiveSteps(fees, txs[..k], seconds, carried, at));
            && Midway(db, legacy, fees, txs, allowNew, genuine, k, mid)
            && (k < |txs| ==> ProcessTx(mid, legacy, fees, txs[k], seconds, carried, at).Committed?)
  {
    var mid := Run(db, legacy, LiveSteps(fees, txs[..k], seconds, carried, at));
    if k == 0 {
      NotStarted(db, legacy, fees, txs, allowNew, genuine);
      NothingRun(db, legacy, fees, txs, seconds, carried, at);
    } else {
      AcceptedBlockCommits(db, legacy, fees, txs, allowNew, genuine, seconds, carried, at, k - 1);
      var front := Run(db, legacy, LiveSteps(fees, txs[..k - 1], seconds, carried, at));
      OneMoreRun(db, legacy, fees, txs, seconds, carried, at, k - 1);
      OneMoreCommitted(db, legacy, fees, txs, allowNew, genuine, seconds, carried, at, k - 1, front, mid);
    }
    if k < |txs| {
      NextCommits(db, legacy, fees, txs, allowNew, genuine, seconds, carried, at, k, mid);
    }
  }

  lemma NotStarted(db: Db, legacy: MarkerDb, fees: FeeTargets, txs: seq<Tx>, allowNew: bool, genuine: Tx -> bool)
    requires Keyed(db.docs)
    ensures Midway(db, legacy, fees, txs, allowNew, genuine, 0, db)
  {
    OnceNothing(db, legacy);
    assert txs[..0] == [] && EffectsOf(fees, []) == [] && Receivers([]) == TIGHT;
  }

  lemma NothingRun(db: Db, legacy: MarkerDb, fees: FeeTargets, txs: seq<Tx>, seconds: int, carried: map<Address, U64>,
                   at: int)
    ensures Run(db, legacy, LiveSteps(fees, txs[..0], seconds, carried, at)) == db
  {
    assert LiveSteps(fees, txs[..0], seconds, carried, at) == [];
  }

  lemma OneMoreRun(db: Db, legacy: MarkerDb, fees: FeeTargets, txs: seq<Tx>, seconds: int, carried: map<Address, U64>,
                   at: int, k: nat)
    requires k < |txs|
    ensures Run(db, legacy, LiveSteps(fees, txs[..k + 1], seconds, carried, at))
            == Exec(Run(db, legacy, LiveSteps(fees, txs[..k], seconds, carried, at)), legacy,
                    Live(fees, txs[k], seconds, carried, at))
  {
    var front := LiveSteps(fees, txs[..k], seconds, carried, at);
    StepsSnoc(fees, txs, k, seconds, carried, at);
    assert (front + [Live(fees, txs[k], seconds, carried, at)])[..|front|] == front;
  }

  lemma OneMoreCommitted(db: Db, legacy: MarkerDb, fees: FeeTargets, txs: seq<Tx>, allowNew: bool, genuine: Tx -> bool,
                         seconds: int, carried: map<Address, U64>, at: int, k: nat, mid: Db, next: Db)
    requires k < |txs| && Clock(at) && V.Accepted(db.docs, txs, allowNew, genuine)
    requires Midway(db, legacy, fees, txs, allowNew, genuine, k, mid)
    requires ProcessTx(mid, legacy, fees, txs[k], seconds, carried, at) == Committed(next)
    ensures Midway(db, legacy, fees, txs, allowNew, genuine, k + 1, next)
  {
    OnceMore(db, legacy, fees, txs, seconds, carried, at, k, mid, next);
    CheckedMore(V.Loaded(db.docs, txs), txs, allowNew, genuine, k);
    StillFollows(mid, legacy, fees, txs[k], seconds, carried, at,
                 V.CheckAll(V.Loaded(db.docs, txs), txs[..k], allowNew, genuine).value, allowNew, genuine);
  }

  lemma OnceMore(db: Db, legacy: MarkerDb, fees: FeeTargets, txs: seq<Tx>, seconds: int, carried: map<Address, U64>,
                 at: int, k: nat, mid: Db, next: Db)
    requires k < |txs| && Clock(at) && ExactlyOnce(db, legacy, EffectsOf(fees, txs[..k]), Receivers(txs[..k]), mid)
    requires ProcessTx(mid, legacy, fees, txs[k], seconds, carried, at) == Committed(next)
    ensures ExactlyOnce(db, legacy, EffectsOf(fees, txs[..k + 1]), Receivers(txs[..k + 1]), next)
  {
    LogSnoc(fees, txs, k);
    ReceiversSnoc(txs, k);
    LiveOnce(mid, legacy, fees, txs[k], seconds, carried, at);
    ExactlyOnceConcat(db, mid, next, legacy,
                      EffectsOf(fees, txs[..k]), Receivers(txs[..k]), [EffectOf(fees, txs[k])], LiveSlack(txs[k]));
  }

  /** Validation goes on from the cache it had. */
  lemma CheckedMore(cache: Docs, txs: seq<Tx>, allowNew: bool, genuine: Tx -> bool, k: nat)
    requires k < |txs| && V.CheckAll(cache, txs, allowNew, genuine).Some?
    ensures V.CheckAll(cache, txs[..k], allowNew, genuine).Some?
            && V.CheckAll(cache, txs[..k + 1], allowNew, genuine).Some?
    ensures V.CheckTx(V.CheckAll(cache, txs[..k], allowNew, genuine).value, txs[k], allowNew, genuine)
            == V.CheckAll(cache, txs[..k + 1], allowNew, genuine)
  {
    V.PrefixPasses(cache, txs, k, allowNew, genuine);
    V.PrefixPasses(cache, txs, k + 1, allowNew, genuine);
    assert txs[..k + 1][..k] == txs[..k];
  }

  // ----- Exactly which accepted blocks are executed -----

  /** Stored and readable, or opened earlier by the block. */
  predicate Usable(docs: Docs, added: set<Address>, a: Address) {
    if a in docs then Spendable(docs, a) else a in added
  }

  /** Transaction `k` is well formed and fits one ExecAll; its sender can be read; its receiver
      exists, was opened earlier in the block, or has a carried identity; and so is everyone it
      pays usable. Said of the accounts before the block. */
  ghost predicate ReadyAt(docs: Docs, fees: FeeTargets, txs: seq<Tx>, carried: map<Address, U64>, k: nat)
    requires k < |txs|
  {
    var tx, added := txs[k], Receivers(txs[..k]).created;
    && LiveShape(fees, tx) && Fits(fees, tx) && Spendable(docs, tx.from.value)
    && (tx.to.value in added || Receivable(docs, tx.to.value, carried))
    && forall c :: c in LiveCredits(fees, tx) ==> Usable(docs, added + {tx.to.value}, c.addr)
  }

  /** Midway the accounts are those before the block and the opened ones, readable as they were. */
  ghost predicate Peopled(docs: Docs, added: set<Address>, now: Docs) {
    forall a ::
      && (a in now <==> a in docs || a in added)
      && (a in now ==> (Spendable(now, a) <==> Usable(docs, added, a)))
  }

  lemma CanPayExactly(docs: Docs, added: set<Address>, now: Docs, fees: FeeTargets, tx: Tx, carried: map<Address, U64>)
    requires Peopled(docs, added, now) && LiveShape(fees, tx) && tx.from.value in docs
    requires NonceOf(now, tx.from.value) <= tx.nonce && BalanceOf(now, tx.from.value) >= LiveValue(tx) + GasFee(tx)
    ensures CanPay(now, fees, tx, carried)
            <==> && Spendable(docs, tx.from.value)
                 && (tx.to.value in added || Receivable(docs, tx.to.value, carried))
                 && forall c :: c in LiveCredits(fees, tx) ==> Usable(docs, added + {tx.to.value}, c.addr)
  {
    forall c | c in LiveCredits(fees, tx)
      ensures Spendable(now, c.addr) || (c.addr == tx.to.value && tx.to.value !in now)
              <==> Usable(docs, added + {tx.to.value}, c.addr)
    {
      assert Peopled(docs, added, now);
    }
  }

  lemma StillPeopled(docs: Docs, added: set<Address>, now: Docs, fees: FeeTargets, tx: Tx, carried: map<Address, U64>,
                     at: int)
    requires Keyed(now) && Peopled(docs, added, now) && LiveShape(fees, tx)
    requires LiveStage(now, fees, tx, carried, at).Some?
    ensures Peopled(docs, added + {tx.to.value}, now + LiveStage(now, fees, tx, carried, at).value)
  {
    var after := now + LiveStage(now, fees, tx, carried, at).value;
    StageExactly(now, fees, tx, carried, at);
    forall a
      ensures a in after <==> a in docs || a in added + {tx.to.value}
      ensures a in after ==> (Spendable(after, a) <==> Usable(docs, added + {tx.to.value}, a))
    {
      LivePays(now, fees, tx, carried, at, a);
      OnePeopled(docs, added, now, fees, tx, carried, after, a);
    }
  }

  lemma OnePeopled(docs: Docs, added: set<Address>, now: Docs, fees: FeeTargets, tx: Tx, carried: map<Address, U64>,
                   after: Docs, a: Address)
    requires Peopled(docs, added, now) && LiveShape(fees, tx) && CanPay(now, fees, tx, carried)
    requires Paid(now, LiveSender(tx), LiveCredits(fees, tx), tx.to.value, after, a)
    ensures a in after <==> a in docs || a in added + {tx.to.value}
    ensures a in after ==> (Spendable(after, a) <==> Usable(docs, added + {tx.to.value}, a))
  {
    var cs := LiveCredits(fees, tx);
    assert cs[0].addr == tx.to.value;
    if a in CreditedBy(cs) {
      var c :| c in cs && c.addr == a;
    } else if a != tx.from.value {
      assert Lookup(after, a) == Lookup(now, a);
    }
  }

  /** Everything known after the first `k` transactions. */
  ghost predicate Reached(db: Db, legacy: MarkerDb, fees: FeeTargets, txs: seq<Tx>, allowNew: bool, genuine: Tx -> bool,
                          k: nat, mid: Db)
    requires k <= |txs|
  {
    && Midway(db, legacy, fees, txs, allowNew, genuine, k, mid)
    && Peopled(db.docs, Receivers(txs[..k]).created, mid.docs)
  }

  function StateAt(db: Db, legacy: MarkerDb, fees: FeeTargets, txs: seq<Tx>, seconds: int, carried: map<Address, U64>,
                   at: int, k: nat): Db
    requires k <= |txs|
  {
    Run(db, legacy, LiveSteps(fees, txs[..k], seconds, carried, at))
  }

  predicate CommitsAt(db: Db, legacy: MarkerDb, fees: FeeTargets, txs: seq<Tx>, seconds: int,
                      carried: map<Address, U64>, at: int, k: nat)
    requires k < |txs|
  {
    ProcessTx(StateAt(db, legacy, fees, txs, seconds, carried, at, k), legacy, fees, txs[k], seconds, carried,
              at).Committed?
  }

  lemma {:induction false} ReachedAt(db: Db, legacy: MarkerDb, fees: FeeTargets, txs: seq<Tx>, allowNew: bool,
                                     genuine: Tx -> bool, seconds: int, carried: map<Address, U64>, at: int, k: nat)
    requires Keyed(db.docs) && V.Accepted(db.docs, txs, allowNew, genuine) && Clock(at) && k <= |txs|
    requires forall j :: 0 <= j < k ==> CommitsAt(db, legacy, fees, txs, seconds, carried, at, j)
    ensures Reached(db, legacy, fees, txs, allowNew, genuine, k,
                    StateAt(db, legacy, fees, txs, seconds, carried, at, k))
  {
    if k == 0 {
      NotStarted(db, legacy, fees, txs, allowNew, genuine);
      assert txs[..0] == [] && LiveSteps(fees, [], seconds, carried, at) == [];
    } else {
      ReachedAt(db, legacy, fees, txs, allowNew, genuine, seconds, carried, at, k - 1);
      assert CommitsAt(db, legacy, fees, txs, seconds, carried, at, k - 1);
      ReachedNext(db, legacy, fees, txs, allowNew, genuine, seconds, carried, at, k - 1);
    }
  }

  lemma ReachedNext(db: Db, legacy: MarkerDb, fees: FeeTargets, txs: seq<Tx>, allowNew: bool, genuine: Tx -> bool,
                    seconds: int, carried: map<Address, U64>, at: int, k: nat)
    requires k < |txs| && Clock(at) && V.Accepted(db.docs, txs, allowNew, genuine)
    requires Reached(db, legacy, fees, txs, allowNew, genuine, k,
                     StateAt(db, legacy, fees, txs, seconds, carried, at, k))
    requires CommitsAt(db, legacy, fees, txs, seconds, carried, at, k)
    ensures Reached(db, legacy, fees, txs, allowNew, genuine, k + 1,
                    StateAt(db, legacy, fees, txs, seconds, carried, at, k + 1))
  {
    OneMoreRun(db, legacy, fees, txs, seconds, carried, at, k);
    OneMoreReached(db, legacy, fees, txs, allowNew, genuine, seconds, carried, at, k,
                   StateAt(db, legacy, fees, txs, seconds, carried, at, k),
                   StateAt(db, legacy, fees, txs, seconds, carried, at, k + 1));
  }

  lemma OneMoreReached(db: Db, legacy: MarkerDb, fees: FeeTargets, txs: seq<Tx>, allowNew: bool, genuine: Tx -> bool,
                       seconds: int, carried: map<Address, U64>, at: int, k: nat, mid: Db, next: Db)
    requires k < |txs| && Clock(at) && V.Accepted(db.docs, txs, allowNew, genuine)
    requires Reached(db, legacy, fees, txs, allowNew, genuine, k, mid)
    requires ProcessTx(mid, legacy, fees, txs[k], seconds, carried, at) == Committed(next)
    ensures Reached(db, legacy, fees, txs, allowNew, genuine, k + 1, next)
  {
    OneMoreCommitted(db, legacy, fees, txs, allowNew, genuine, seconds, carried, at, k, mid, next);
    StillPeopled(db.docs, Receivers(txs[..k]).created, mid.docs, fees, txs[k], carried, Nanos(seconds));
    ReceiversSnoc(txs, k);
  }

  /** The next transaction commits exactly if it is ready, and no marker or earlier transaction has
      its hash. */
  lemma NextExactly(db: Db, legacy: MarkerDb, fees: FeeTargets, txs: seq<Tx>, allowNew: bool, genuine: Tx -> bool,
                    seconds: int, carried: map<Address, U64>, at: int, k: nat, mid: Db)
    requires k < |txs| && V.Accepted(db.docs, txs, allowNew, genuine) && forall t :: t in txs ==> V.ValuesChecked(t)
    requires Reached(db, legacy, fees, txs, allowNew, genuine, k, mid)
    ensures ProcessTx(mid, legacy, fees, txs[k], seconds, carried, at).Committed?
            <==> && ReadyAt(db.docs, fees, txs, carried, k) && !IsApplied(db.markers, legacy, txs[k].hash)
                 && forall j :: 0 <= j < k ==> txs[j].hash != txs[k].hash
  {
    var tx, added := txs[k], Receivers(txs[..k]).created;
    assert tx in txs;
    NextSender(db.docs, fees, txs, allowNew, genuine, k);
    CommitsExactly(mid, legacy, fees, tx, seconds, carried, at, true, true);
    AppliedMidway(db, legacy, fees, txs, k, mid);
    if LiveShape(fees, tx) {
      assert Moves(db.docs, EffectsOf(fees, txs[..k]), Receivers(txs[..k]), mid.docs, tx.from.value);
      Shaped(fees, tx);
      CanPayExactly(db.docs, added, mid.docs, fees, tx, carried);
    }
  }

  lemma AppliedMidway(db: Db, legacy: MarkerDb, fees: FeeTargets, txs: seq<Tx>, k: nat, mid: Db)
    requires k < |txs| && ExactlyOnce(db, legacy, EffectsOf(fees, txs[..k]), Receivers(txs[..k]), mid)
    ensures IsApplied(mid.markers, legacy, txs[k].hash)
            <==> IsApplied(db.markers, legacy, txs[k].hash) || exists j :: 0 <= j < k && txs[j].hash == txs[k].hash
  {
    var log := EffectsOf(fees, txs[..k]);
    if Logged(log, txs[k].hash) {
      var i :| 0 <= i < |log| && log[i].hash == txs[k].hash;
      assert txs[..k][i] == txs[i];
    }
    if j :| 0 <= j < k && txs[j].hash == txs[k].hash {
      assert txs[..k][j] == txs[j] && log[j] in log;
    }
  }

  /** Transaction `k` is ready, and no marker or earlier transaction has its hash. */
  ghost predicate Free(db: Db, legacy: MarkerDb, fees: FeeTargets, txs: seq<Tx>, carried: map<Address, U64>, k: nat)
    requires k < |txs|
  {
    && ReadyAt(db.docs, fees, txs, carried, k) && !IsApplied(db.markers, legacy, txs[k].hash)
    && forall j :: 0 <= j < k ==> txs[j].hash != txs[k].hash
  }

  lemma CommitsAtExactly(db: Db, legacy: MarkerDb, fees: FeeTargets, txs: seq<Tx>, allowNew: bool, genuine: Tx -> bool,
                         seconds: int, carried: map<Address, U64>, at: int, k: nat)
    requires Keyed(db.docs) && V.Accepted(db.docs, txs, allowNew, genuine) && Clock(at) && k < |txs|
    requires forall t :: t in txs ==> V.ValuesChecked(t)
    requires forall j :: 0 <= j < k ==> CommitsAt(db, legacy, fees, txs, seconds, carried, at, j)
    ensures CommitsAt(db, legacy, fees, txs, seconds, carried, at, k) <==> Free(db, legacy, fees, txs, carried, k)
  {
    ReachedAt(db, legacy, fees, txs, allowNew, genuine, seconds, carried, at, k);
    NextExactly(db, legacy, fees, txs, allowNew, genuine, seconds, carried, at, k,
                StateAt(db, legacy, fees, txs, seconds, carried, at, k));
  }

  /** Every transaction of an accepted block commits live if and only if each is ready, none is marked
      and no hash repeats: what validation does not check is exactly what is missing. */
  lemma BlockCommitsExactly(db: Db, legacy: MarkerDb, fees: FeeTargets, txs: seq<Tx>, allowNew: bool,
                            genuine: Tx -> bool, seconds: int, carried: map<Address, U64>, at: int)
    requires Keyed(db.docs) && V.Accepted(db.docs, txs, allowNew, genuine) && Clock(at)
    requires forall t :: t in txs ==> V.ValuesChecked(t)
    ensures (forall k :: 0 <= k < |txs| ==> CommitsAt(db, legacy, fees, txs, seconds, carried, at, k))
            <==> && DistinctHashes(txs)
                 && forall k :: 0 <= k < |txs| ==>
                      ReadyAt(db.docs, fees, txs, carried, k) && !IsApplied(db.markers, legacy, txs[k].hash)
  {
    var p := (k: nat) => k < |txs| && CommitsAt(db, legacy, fees, txs, seconds, carried, at, k);
    var q := (k: nat) => k < |txs| && Free(db, legacy, fees, txs, carried, k);
    forall k: nat | k < |txs| && forall j: nat :: j < k ==> p(j) ensures p(k) <==> q(k) {
      AgreesAt(db, legacy, fees, txs, allowNew, genuine, seconds, carried, at, k, p, q);
    }
    Stepwise(|txs|, p, q);
    AllTaken(db, legacy, fees, txs, seconds, carried, at, p);
    FreeIsDistinct(db, legacy, fees, txs, carried, q);
  }

  lemma AgreesAt(db: Db, legacy: MarkerDb, fees: FeeTargets, txs: seq<Tx>, allowNew: bool, genuine: Tx -> bool,
                 seconds: int, carried: map<Address, U64>, at: int, k: nat, p: nat -> bool, q: nat -> bool)
    requires Keyed(db.docs) && V.Accepted(db.docs, txs, allowNew, genuine) && Clock(at) && k < |txs|
    requires forall t :: t in txs ==> V.ValuesChecked(t)
    requires forall i: nat :: p(i) <==> i < |txs| && CommitsAt(db, legacy, fees, txs, seconds, carried, at, i)
    requires (q(k) <==> Free(db, legacy, fees, txs, carried, k)) && forall j: nat :: j < k ==> p(j)
    ensures p(k) <==> q(k)
  {
    forall j | 0 <= j < k ensures CommitsAt(db, legacy, fees, txs, seconds, carried, at, j) {
      assert p(j);
    }
    CommitsAtExactly(db, legacy, fees, txs, allowNew, genuine, seconds, carried, at, k);
  }

  lemma AllTaken(db: Db, legacy: MarkerDb, fees: FeeTargets, txs: seq<Tx>, seconds: int, carried: map<Address, U64>,
                 at: int, p: nat -> bool)
    requires forall i: nat :: p(i) <==> i < |txs| && CommitsAt(db, legacy, fees, txs, seconds, carried, at, i)
    ensures (forall k: nat :: k < |txs| ==> p(k))
            <==> forall k :: 0 <= k < |txs| ==> CommitsAt(db, legacy, fees, txs, seconds, carried, at, k)
  {
    if forall k: nat :: k < |txs| ==> p(k) {
      forall k | 0 <= k < |txs| ensures CommitsAt(db, legacy, fees, txs, seconds, carried, at, k) {
        assert p(k);
      }
    }
  }

  /** If each step agrees with its condition as long as all earlier ones were taken, then all are taken
      exactly if all conditions hold. */
  lemma {:induction false} Stepwise(n: nat, p: nat -> bool, q: nat -> bool)
    requires forall k: nat :: k < n && (forall j: nat :: j < k ==> p(j)) ==> (p(k) <==> q(k))
    ensures (forall k: nat :: k < n ==> p(k)) <==> (forall k: nat :: k < n ==> q(k))
  {
    if n > 0 {
      Stepwise(n - 1, p, q);
      if forall k: nat :: k < n - 1 ==> p(k) {
        assert p(n - 1) <==> q(n - 1);
      }
    }
  }

  lemma FreeIsDistinct(db: Db, legacy: MarkerDb, fees: FeeTargets, txs: seq<Tx>, carried: map<Address, U64>,
                       q: nat -> bool)
    requires forall k: nat :: q(k) <==> k < |txs| && Free(db, legacy, fees, txs, carried, k)
    ensures (forall k: nat :: k < |txs| ==> q(k))
            <==> && DistinctHashes(txs)
                 && forall k :: 0 <= k < |txs| ==>
                      ReadyAt(db.docs, fees, txs, carried, k) && !IsApplied(db.markers, legacy, txs[k].hash)
  {
    if forall k: nat :: k < |txs| ==> q(k) {
      forall i, j | 0 <= i < j < |txs| ensures txs[i].hash != txs[j].hash {
        assert q(j);
      }
      forall k | 0 <= k < |txs|
        ensures ReadyAt(db.docs, fees, txs, carried, k) && !IsApplied(db.markers, legacy, txs[k].hash)
      {
        assert q(k);
      }
    }
  }
}

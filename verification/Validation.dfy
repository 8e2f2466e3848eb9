/** Block validation (Security/security_cache.go, Security/Security.go): the transactions of a
    proposed block are simulated one after another on a private copy of the accounts. */
module Validation {
  import opened Types
  import opened Decimal
  import opened Sums
  import opened Fees
  import opened Deltas
  import opened Ledger
  import opened LedgerMeaning

  // ----- The checks, as functions of the cache -----

  /** A balance moves only if the account is cached and its balance can be read. */
  function Shift(cache: Docs, a: Address, wei: int): Docs {
    if a in cache && Parse(cache[a].balance).Some?
    then cache[a := cache[a].(balance := Format(Parse(cache[a].balance).value + wei))]
    else cache
  }

  function WithNonce(cache: Docs, a: Address, n: U64): Docs {
    if a in cache then cache[a := cache[a].(txNonce := n)] else cache
  }

  /** The sender must be known; the receiver only under the old rule. */
  predicate AddressesKnown(cache: Docs, tx: Tx, allowNew: bool) {
    && tx.from.Some? && tx.from.value in cache
    && (tx.to.Some? && !allowNew ==> tx.to.value in cache)
  }

  predicate Affordable(cache: Docs, tx: Tx)
    requires tx.from.Some? && tx.from.value in cache
  {
    var balance := Parse(cache[tx.from.value].balance);
    balance.Some? && tx.value.Some? && balance.value >= tx.value.value + GasFee(tx)
  }

  function Simulate(cache: Docs, tx: Tx): Docs
    requires tx.from.Some? && tx.value.Some?
  {
    var debited := Shift(cache, tx.from.value, -(tx.value.value + GasFee(tx)));
    if tx.to.Some? then Shift(debited, tx.to.value, tx.value.value) else debited
  }

  /** One transaction: refused, or the cache it leaves behind. `genuine` stands for the chain id,
      hash and signature checks. */
  function CheckTx(cache: Docs, tx: Tx, allowNew: bool, genuine: Tx -> bool): Option<Docs> {
    if !genuine(tx) || !AddressesKnown(cache, tx, allowNew) || !Affordable(cache, tx) then None
    else
      var paid := Simulate(cache, tx);
      if tx.from.value !in paid || tx.nonce < paid[tx.from.value].txNonce then None
      else Some(WithNonce(paid, tx.from.value, Inc(tx.nonce)))
  }

  function CheckAll(cache: Docs, txs: seq<Tx>, allowNew: bool, genuine: Tx -> bool): Option<Docs> {
    if txs == [] then Some(cache)
    else
      var front := CheckAll(cache, txs[..|txs| - 1], allowNew, genuine);
      if front.None? then None else CheckTx(front.value, txs[|txs| - 1], allowNew, genuine)
  }

  /** The addresses a block's transactions name, and the documents loaded for them. */
  function Named(txs: seq<Tx>): set<Address> {
    (set t | t in txs && t.from.Some? :: t.from.value) + (set t | t in txs && t.to.Some? :: t.to.value)
  }

  function Loaded(docs: Docs, txs: seq<Tx>): Docs {
    map a | a in docs && a in Named(txs) :: docs[a]
  }

  /** A block is accepted when it has transactions and all of them pass in order. */
  predicate Accepted(docs: Docs, txs: seq<Tx>, allowNew: bool, genuine: Tx -> bool) {
    txs != [] && CheckAll(Loaded(docs, txs), txs, allowNew, genuine).Some?
  }

  /** `CheckTransactionValues`: no present amount is negative, and a tip stays below its cap. */
  predicate ValuesChecked(tx: Tx) {
    && (tx.value.Some? ==> tx.value.value >= 0)
    && (tx.gasPrice.Some? ==> tx.gasPrice.value >= 0)
    && (tx.maxFee.Some? ==> tx.maxFee.value >= 0)
    && (tx.maxPriorityFee.Some? ==> tx.maxPriorityFee.value >= 0)
    && (tx.maxFee.Some? && tx.maxPriorityFee.Some? ==> tx.maxPriorityFee.value <= tx.maxFee.value)
  }

  // ----- The cache as it is mutated -----

  class SecurityCache {
    var accounts: Docs

    constructor ()
      ensures accounts == map[]
    {
      accounts := map[];
    }

    method LoadAccounts(docs: Docs, wanted: set<Address>)
      modifies this
      ensures accounts == old(accounts) + map a | a in docs && a in wanted :: docs[a]
    {
      accounts := accounts + map a | a in docs && a in wanted :: docs[a];
    }

    method AddBalance(a: Address, wei: int)
      modifies this
      ensures accounts == Shift(old(accounts), a, wei)
    {
      if a in accounts {
        var balance := Parse(accounts[a].balance);
        if balance.Some? {
          accounts := accounts[a := accounts[a].(balance := Format(balance.value + wei))];
        }
      }
    }

    method SubBalance(a: Address, wei: int)
      modifies this
      ensures accounts == Shift(old(accounts), a, -wei)
    {
      if a in accounts {
        var balance := Parse(accounts[a].balance);
        if balance.Some? {
          accounts := accounts[a := accounts[a].(balance := Format(balance.value - wei))];
        }
      }
    }

    method UpdateTxNonce(a: Address, n: U64)
      modifies this
      ensures accounts == WithNonce(old(accounts), a, n)
    {
      if a in accounts {
        accounts := accounts[a := accounts[a].(txNonce := n)];
      }
    }

    /** `CheckBalanceWithCache`: check, then simulate. */
    method CheckBalance(tx: Tx) returns (ok: bool)
      requires tx.from.Some? && tx.from.value in accounts
      modifies this
      ensures ok <==> Affordable(old(accounts), tx)
      ensures accounts == if ok then Simulate(old(accounts), tx) else old(accounts)
    {
      var balance := Parse(accounts[tx.from.value].balance);
      if balance.None? || tx.value.None? {
        return false;
      }
      var totalCost := tx.value.value + GasFee(tx);
      if balance.value < totalCost {
        return false;
      }
      SubBalance(tx.from.value, totalCost);
      if tx.to.Some? {
        AddBalance(tx.to.value, tx.value.value);
      }
      return true;
    }

    /** `allChecksWithConn`: all checks in order; the cache advances only past the last one. */
    method AllChecks(tx: Tx, allowNew: bool, genuine: Tx -> bool) returns (ok: bool)
      modifies this
      ensures ok <==> CheckTx(old(accounts), tx, allowNew, genuine).Some?
      ensures ok ==> accounts == CheckTx(old(accounts), tx, allowNew, genuine).value
    {
      if !genuine(tx) || !AddressesKnown(accounts, tx, allowNew) {
        return false;
      }
      var affordable := CheckBalance(tx);
      if !affordable || tx.from.value !in accounts || tx.nonce < accounts[tx.from.value].txNonce {
        return false;
      }
      UpdateTxNonce(tx.from.value, Inc(tx.nonce));
      return true;
    }

    /** `CheckZKBlockValidation`, on an empty cache. `digest` is the hash over the transaction hashes
        and `up` says whether the accounts could be loaded. */
    method CheckBlock(docs: Docs, blockHash: Hash, txs: seq<Tx>, allowNew: bool, genuine: Tx -> bool,
                      digest: seq<Hash> -> Hash, up: bool) returns (ok: bool)
      requires accounts == map[]
      modifies this
      ensures ok <==> up && Accepted(docs, txs, allowNew, genuine) && digest(Hashes(txs)) == blockHash
    {
      if txs == [] || !up {
        return false;
      }
      LoadAccounts(docs, Named(txs));
      assert accounts == Loaded(docs, txs);
      for i := 0 to |txs|
        invariant CheckAll(Loaded(docs, txs), txs[..i], allowNew, genuine) == Some(accounts)
      {
        assert txs[..i + 1][..i] == txs[..i];
        var valid := AllChecks(txs[i], allowNew, genuine);
        if !valid {
          RefusalSpreads(Loaded(docs, txs), txs, i + 1, allowNew, genuine);
          return false;
        }
      }
      assert txs[..|txs|] == txs;
      return digest(Hashes(txs)) == blockHash;
    }
  }

  /** One refused transaction refuses the block: every prefix of an accepted block passed. */
  lemma {:induction false} RefusalSpreads(cache: Docs, txs: seq<Tx>, k: nat, allowNew: bool, genuine: Tx -> bool)
    requires k <= |txs| && CheckAll(cache, txs[..k], allowNew, genuine).None?
    ensures CheckAll(cache, txs, allowNew, genuine).None?
    decreases |txs|
  {
    if k < |txs| {
      assert txs[..|txs| - 1][..k] == txs[..k];
      RefusalSpreads(cache, txs[..|txs| - 1], k, allowNew, genuine);
    } else {
      assert txs[..k] == txs;
    }
  }

  // ----- Affordability -----

  /** Checked values give a non-negative amount and a non-negative fee. */
  lemma CheckedIsNonNegative(tx: Tx)
    requires ValuesChecked(tx)
    ensures (tx.value.Some? ==> tx.value.value == Moved(tx)) && GasFee(tx) >= 0
  {
    GasFeeIsProduct(tx);
  }

  /** Execution credits the receiver at least what the simulation did, and nobody less than zero. */
  lemma CreditedAtLeast(fees: FeeTargets, tx: Tx, x: Address)
    requires GasFee(tx) >= 0
    ensures CreditSum(EffectOf(fees, tx).credits, x) >= if tx.to == Some(x) then Moved(tx) else 0
  {
    var fee := GasFee(tx);
    SumConcat(ReceiverCredits(tx), FeeCredits(fees, fee), AmountTo(x));
    if ReceiverCredits(tx) != [] {
      SumOne(ReceiverCredits(tx)[0], AmountTo(x));
    }
    FeeCreditsNonNegative(fees, fee);
    CreditsNonNegative(FeeCredits(fees, fee), x);
  }

  /** A checked transaction credits nobody a negative amount. */
  lemma CheckedPays(fees: FeeTargets, tx: Tx)
    requires ValuesChecked(tx)
    ensures NonNegative(EffectOf(fees, tx).credits)
  {
    CheckedIsNonNegative(tx);
    FeeCreditsNonNegative(fees, GasFee(tx));
  }

  lemma FeeCreditsNonNegative(fees: FeeTargets, fee: int)
    requires fee >= 0
    ensures forall c :: c in FeeCredits(fees, fee) ==> c.amount >= 0
  {
    if fees.coinbase.Some? {
      SplitNonNegative(fee, fees.coinbase.value, fees.recipients);
    }
  }

  /** What one accepted transaction does to the simulated balance of `x`. */
  ghost predicate SimMoves(cache: Docs, tx: Tx, next: Docs, x: Address) {
    && next.Keys == cache.Keys && AddressesKnown(cache, tx, true)
    && BalanceOf(cache, tx.from.value) >= Moved(tx) + GasFee(tx)
    && BalanceOf(next, x) <= BalanceOf(cache, x)
                             - (if tx.from == Some(x) then Moved(tx) + GasFee(tx) else 0)
                             + (if tx.to == Some(x) then Moved(tx) else 0)
  }

  lemma ShiftBalance(cache: Docs, a: Address, wei: int, x: Address)
    ensures Shift(cache, a, wei).Keys == cache.Keys
    ensures BalanceOf(Shift(cache, a, wei), x)
            == BalanceOf(cache, x) + if x == a && a in cache && Parse(cache[a].balance).Some? then wei else 0
    ensures x in cache ==> (Parse(Shift(cache, a, wei)[x].balance).Some? <==> Parse(cache[x].balance).Some?)
    ensures NonceOf(Shift(cache, a, wei), x) == NonceOf(cache, x)
  {}

  lemma CheckedMoves(cache: Docs, tx: Tx, allowNew: bool, genuine: Tx -> bool, x: Address)
    requires CheckTx(cache, tx, allowNew, genuine).Some? && ValuesChecked(tx)
    ensures SimMoves(cache, tx, CheckTx(cache, tx, allowNew, genuine).value, x)
  {
    CheckedIsNonNegative(tx);
    Simulated(cache, tx, GasFee(tx), x);
  }

  lemma Simulated(cache: Docs, tx: Tx, fee: int, x: Address)
    requires fee == GasFee(tx) && AddressesKnown(cache, tx, true) && Affordable(cache, tx)
    ensures var paid := Simulate(cache, tx);
            && paid.Keys == cache.Keys
            && NonceOf(paid, x) == NonceOf(cache, x)
            && (x in cache ==> (Parse(paid[x].balance).Some? <==> Parse(cache[x].balance).Some?))
            && BalanceOf(paid, x) == BalanceOf(cache, x)
                                     - (if tx.from == Some(x) then tx.value.value + fee else 0)
                                     + (if tx.to == Some(x) && x in cache && Parse(cache[x].balance).Some?
                                        then tx.value.value else 0)
  {
    var debited := Shift(cache, tx.from.value, -(tx.value.value + fee));
    ShiftBalance(cache, tx.from.value, -(tx.value.value + fee), x);
    if tx.to.Some? {
      ShiftBalance(debited, tx.to.value, tx.value.value, x);
    }
  }

  /** Where execution stands after `log`, starting from `docs`. */
  function Executed(docs: Docs, log: seq<Effect>, x: Address): int {
    BalanceOf(docs, x) + BalanceSum(log, x)
  }

  /** The simulation is conservative, and nobody is overdrawn. */
  ghost predicate Covered(docs: Docs, cache: Docs, log: seq<Effect>, x: Address) {
    && (x in cache ==> BalanceOf(cache, x) <= Executed(docs, log, x))
    && (BalanceOf(docs, x) >= 0 ==> Executed(docs, log, x) >= 0)
  }

  lemma CoveredStep(docs: Docs, cache: Docs, log: seq<Effect>, fees: FeeTargets, tx: Tx, next: Docs, x: Address)
    requires Covered(docs, cache, log, x) && SimMoves(cache, tx, next, x) && GasFee(tx) >= 0
    ensures Covered(docs, next, log + [EffectOf(fees, tx)], x)
  {
    var e := EffectOf(fees, tx);
    EffectsConcat(log, [e], x);
    SumOne(e, BalanceOn(x));
    CreditedAtLeast(fees, tx, x);
  }

  /** Conservative simulation: at every point of a block whose transactions pass in order, the
      simulated balance of every cached account is at most its executed balance. So every debit
      is covered when it is executed and no account goes below zero. */
  lemma {:induction false} SimulationConservative(docs: Docs, cache: Docs, fees: FeeTargets, txs: seq<Tx>,
                                                  allowNew: bool, genuine: Tx -> bool, x: Address)
    requires forall a :: a in cache ==> a in docs && cache[a] == docs[a]
    requires CheckAll(cache, txs, allowNew, genuine).Some? && forall t :: t in txs ==> ValuesChecked(t)
    ensures Covered(docs, CheckAll(cache, txs, allowNew, genuine).value, EffectsOf(fees, txs), x)
  {
    if txs != [] {
      var front, tx := txs[..|txs| - 1], txs[|txs| - 1];
      SimulationConservative(docs, cache, fees, front, allowNew, genuine, x);
      EffectsSnoc(fees, txs);
      CheckedCovered(docs, CheckAll(cache, front, allowNew, genuine).value, EffectsOf(fees, front), fees, tx, allowNew,
                     genuine, x);
    }
  }

  lemma EffectsSnoc(fees: FeeTargets, txs: seq<Tx>)
    requires txs != []
    ensures EffectsOf(fees, txs) == EffectsOf(fees, txs[..|txs| - 1]) + [EffectOf(fees, txs[|txs| - 1])]
  {}

  lemma CheckedCovered(docs: Docs, cache: Docs, log: seq<Effect>, fees: FeeTargets, tx: Tx, allowNew: bool,
                       genuine: Tx -> bool, x: Address)
    requires Covered(docs, cache, log, x) && CheckTx(cache, tx, allowNew, genuine).Some? && ValuesChecked(tx)
    ensures Covered(docs, CheckTx(cache, tx, allowNew, genuine).value, log + [EffectOf(fees, tx)], x)
  {
    CheckedIsNonNegative(tx);
    CheckedMoves(cache, tx, allowNew, genuine, x);
    CoveredStep(docs, cache, log, fees, tx, CheckTx(cache, tx, allowNew, genuine).value, x);
  }

  /** An accepted block with checked values, cut anywhere and reconciled, overdraws nobody; and
      each sender can pay for its next transaction out of what it really holds. */
  lemma AcceptedNeverOverdraws(docs: Docs, fees: FeeTargets, txs: seq<Tx>, allowNew: bool, genuine: Tx -> bool, k: nat,
                               at: int, x: Address)
    requires Accepted(docs, txs, allowNew, genuine) && forall t :: t in txs ==> ValuesChecked(t)
    requires k <= |txs|
    ensures var after := WriteDeltas(docs, DeltasOf(EffectsOf(fees, txs[..k])), at);
            && (BalanceOf(docs, x) >= 0 ==> BalanceOf(after, x) >= 0)
            && (k < |txs| && txs[k].from == Some(x) ==> BalanceOf(after, x) >= Moved(txs[k]) + GasFee(txs[k]))
  {
    ReconciledIsExecuted(docs, EffectsOf(fees, txs[..k]), at, x);
    PrefixCovered(docs, Loaded(docs, txs), fees, txs, allowNew, genuine, k, x);
  }

  lemma ReconciledIsExecuted(docs: Docs, log: seq<Effect>, at: int, x: Address)
    ensures BalanceOf(WriteDeltas(docs, DeltasOf(log), at), x) == Executed(docs, log, x)
  {
    WriteAdvances(docs, log, at);
    assert Moves(docs, log, TIGHT, WriteDeltas(docs, DeltasOf(log), at), x);
  }

  lemma PrefixCovered(docs: Docs, cache: Docs, fees: FeeTargets, txs: seq<Tx>, allowNew: bool, genuine: Tx -> bool,
                      k: nat, x: Address)
    requires forall a :: a in cache ==> a in docs && cache[a] == docs[a]
    requires CheckAll(cache, txs, allowNew, genuine).Some? && forall t :: t in txs ==> ValuesChecked(t)
    requires k <= |txs|
    ensures var held := Executed(docs, EffectsOf(fees, txs[..k]), x);
            && (BalanceOf(docs, x) >= 0 ==> held >= 0)
            && (k < |txs| && txs[k].from == Some(x) ==> held >= Moved(txs[k]) + GasFee(txs[k]))
  {
    PrefixPasses(cache, txs, k, allowNew, genuine);
    SimulationConservative(docs, cache, fees, txs[..k], allowNew, genuine, x);
    if k < |txs| {
      PrefixPasses(cache, txs, k + 1, allowNew, genuine);
      assert txs[..k + 1][..k] == txs[..k];
      CheckedMoves(CheckAll(cache, txs[..k], allowNew, genuine).value, txs[k], allowNew, genuine, x);
    }
  }

  lemma PrefixPasses(cache: Docs, txs: seq<Tx>, k: nat, allowNew: bool, genuine: Tx -> bool)
    requires k <= |txs| && CheckAll(cache, txs, allowNew, genuine).Some?
    ensures CheckAll(cache, txs[..k], allowNew, genuine).Some?
  {
    if CheckAll(cache, txs[..k], allowNew, genuine).None? {
      RefusalSpreads(cache, txs, k, allowNew, genuine);
    }
  }

  // ----- Nonces -----

  /** No transaction that has a later one from the same sender carries the last nonce. */
  ghost predicate RoomForNext(txs: seq<Tx>) {
    forall i, j :: 0 <= i < j < |txs| && txs[i].from == txs[j].from ==> txs[i].nonce < MAX_U64
  }

  ghost predicate Ascending(txs: seq<Tx>) {
    forall i, j :: 0 <= i < j < |txs| && txs[i].from == txs[j].from ==> txs[i].nonce < txs[j].nonce
  }

  predicate Topped(txs: seq<Tx>, x: Address) {
    exists i :: 0 <= i < |txs| && txs[i].from == Some(x) && txs[i].nonce == MAX_U64
  }

  /** Until its nonce wraps, the cached nonce of an account is the one execution stores. */
  ghost predicate NonceTracks(docs: Docs, cache: Docs, fees: FeeTargets, txs: seq<Tx>, x: Address) {
    x in cache && !Topped(txs, x) ==> NonceOf(cache, x) == Max(NonceOf(docs, x), NonceMax(EffectsOf(fees, txs), x))
  }

  lemma CheckedNonce(cache: Docs, tx: Tx, allowNew: bool, genuine: Tx -> bool, x: Address)
    requires CheckTx(cache, tx, allowNew, genuine).Some?
    ensures var next := CheckTx(cache, tx, allowNew, genuine).value;
            && next.Keys == cache.Keys && tx.from.Some? && tx.from.value in cache
            && NonceOf(cache, tx.from.value) <= tx.nonce
            && NonceOf(next, x) == if tx.from == Some(x) then Inc(tx.nonce) else NonceOf(cache, x)
  {
    Simulated(cache, tx, GasFee(tx), x);
    Simulated(cache, tx, GasFee(tx), tx.from.value);
  }

  lemma NonceMaxSnoc(fees: FeeTargets, front: seq<Tx>, tx: Tx, x: Address)
    ensures NonceMax(EffectsOf(fees, front + [tx]), x)
            == Max(NonceMax(EffectsOf(fees, front), x), if tx.from == Some(x) then Inc(tx.nonce) else 0)
  {
    var log := EffectsOf(fees, front + [tx]);
    assert log[..|log| - 1] == EffectsOf(fees, front);
  }

  lemma ToppedPrefix(txs: seq<Tx>, k: nat, x: Address)
    requires k <= |txs| && !Topped(txs, x)
    ensures !Topped(txs[..k], x)
  {}

  lemma {:induction false} NoncesTracked(docs: Docs, cache: Docs, fees: FeeTargets, txs: seq<Tx>,
                                         allowNew: bool, genuine: Tx -> bool, x: Address)
    requires forall a :: a in cache ==> a in docs && cache[a] == docs[a]
    requires CheckAll(cache, txs, allowNew, genuine).Some?
    ensures CheckAll(cache, txs, allowNew, genuine).value.Keys == cache.Keys
    ensures NonceTracks(docs, CheckAll(cache, txs, allowNew, genuine).value, fees, txs, x)
  {
    if txs != [] {
      var front, tx := txs[..|txs| - 1], txs[|txs| - 1];
      var mid := CheckAll(cache, front, allowNew, genuine).value;
      NoncesTracked(docs, cache, fees, front, allowNew, genuine, x);
      CheckedNonce(mid, tx, allowNew, genuine, x);
      NonceTracked(docs, mid, fees, txs, CheckAll(cache, txs, allowNew, genuine).value, x);
    }
  }

  lemma NonceTracked(docs: Docs, mid: Docs, fees: FeeTargets, txs: seq<Tx>, next: Docs, x: Address)
    requires txs != [] && NonceTracks(docs, mid, fees, txs[..|txs| - 1], x)
    requires var tx := txs[|txs| - 1];
             && next.Keys == mid.Keys && tx.from.Some? && NonceOf(mid, tx.from.value) <= tx.nonce
             && NonceOf(next, x) == if tx.from == Some(x) then Inc(tx.nonce) else NonceOf(mid, x)
    ensures NonceTracks(docs, next, fees, txs, x)
  {
    var front, tx := txs[..|txs| - 1], txs[|txs| - 1];
    assert txs == front + [tx];
    NonceMaxSnoc(fees, front, tx, x);
    if !Topped(txs, x) {
      ToppedPrefix(txs, |front|, x);
    }
  }

  lemma {:induction false} SentIsBelow(fees: FeeTargets, txs: seq<Tx>, i: nat, x: Address)
    requires i < |txs| && txs[i].from == Some(x)
    ensures Inc(txs[i].nonce) <= NonceMax(EffectsOf(fees, txs), x)
  {
    var front, tx := txs[..|txs| - 1], txs[|txs| - 1];
    assert txs == front + [tx];
    NonceMaxSnoc(fees, front, tx, x);
    if i < |front| {
      SentIsBelow(fees, front, i, x);
    }
  }

  /** A later transaction of the same sender was checked against a nonce above every earlier one. */
  lemma LaterIsHigher(docs: Docs, cache: Docs, txs: seq<Tx>, allowNew: bool, genuine: Tx -> bool, i: nat, j: nat)
    requires forall a :: a in cache ==> a in docs && cache[a] == docs[a]
    requires CheckAll(cache, txs, allowNew, genuine).Some?
    requires i < j < |txs| && txs[i].from == txs[j].from && RoomForNext(txs)
    ensures txs[i].nonce < txs[j].nonce
  {
    CheckedAgainst(cache, txs, j, allowNew, genuine);
    var x := txs[j].from.value;
    var fees := FeeTargets(None, None, []);
    NoncesTracked(docs, cache, fees, txs[..j], allowNew, genuine, x);
    SentIsBelow(fees, txs[..j], i, x);
  }

  lemma CheckedAgainst(cache: Docs, txs: seq<Tx>, j: nat, allowNew: bool, genuine: Tx -> bool)
    requires j < |txs| && CheckAll(cache, txs, allowNew, genuine).Some?
    ensures CheckAll(cache, txs[..j], allowNew, genuine).Some? && txs[j].from.Some?
    ensures var mid := CheckAll(cache, txs[..j], allowNew, genuine).value;
            txs[j].from.value in mid && NonceOf(mid, txs[j].from.value) <= txs[j].nonce
  {
    PrefixPasses(cache, txs, j, allowNew, genuine);
    PrefixPasses(cache, txs, j + 1, allowNew, genuine);
    assert txs[..j + 1][..j] == txs[..j];
    CheckedNonce(CheckAll(cache, txs[..j], allowNew, genuine).value, txs[j], allowNew, genuine, 0);
  }

  /** The nonces each sender uses in an accepted block are strictly ascending exactly when no
      sender goes on after nonce 2^64-1, at which the cached nonce wraps to zero. */
  lemma NoncesAscendExactly(docs: Docs, txs: seq<Tx>, allowNew: bool, genuine: Tx -> bool)
    requires Accepted(docs, txs, allowNew, genuine)
    ensures Ascending(txs) <==> RoomForNext(txs)
  {
    if RoomForNext(txs) {
      forall i, j | 0 <= i < j < |txs| && txs[i].from == txs[j].from ensures txs[i].nonce < txs[j].nonce {
        LaterIsHigher(docs, Loaded(docs, txs), txs, allowNew, genuine, i, j);
      }
    }
  }

  /** The wrap is reachable: two copies of a transaction with the last nonce are both accepted. */
  lemma LastNonceRepeats(genuine: Tx -> bool) returns (docs: Docs, txs: seq<Tx>)
    requires forall t: Tx :: genuine(t)
    ensures Accepted(docs, txs, true, genuine) && !Ascending(txs) && !DistinctHashes(txs)
  {
    docs := map[1 := Account("", 0, 1, "0", 0, 0, "user", 0, 0, None)];
    var t := Tx(7, Some(1), Some(2), Some(0), 0, MAX_U64, 1, Some(0), None, None);
    txs := [t, t];
    FreeTransferKeeps(docs, t, genuine);
    assert txs[0] == t && Loaded(docs, txs) == docs;
    assert txs[..1] == [t] && [t][..0] == [];
    assert CheckAll(docs, [t], true, genuine) == Some(docs);
    assert txs[0].hash == txs[1].hash;
  }

  lemma FreeTransferKeeps(docs: Docs, t: Tx, genuine: Tx -> bool)
    requires docs == map[1 := Account("", 0, 1, "0", 0, 0, "user", 0, 0, None)]
    requires t == Tx(7, Some(1), Some(2), Some(0), 0, MAX_U64, 1, Some(0), None, None) && genuine(t)
    ensures CheckTx(docs, t, true, genuine) == Some(docs)
  {
    assert Cost(0, 0) == 0;
    assert GasFee(t) == 0;
    assert Format(0) == "0";
    assert WithNonce(docs, 1, 0) == docs;
  }

  /** So an accepted block repeats no transaction, if a hash stands for one sender and nonce. */
  lemma AcceptedHashesDistinct(docs: Docs, txs: seq<Tx>, allowNew: bool, genuine: Tx -> bool)
    requires Accepted(docs, txs, allowNew, genuine) && RoomForNext(txs)
    requires forall i, j :: 0 <= i < j < |txs| && txs[i].hash == txs[j].hash
                            ==> txs[i].from == txs[j].from && txs[i].nonce == txs[j].nonce
    ensures DistinctHashes(txs)
  {
    NoncesAscendExactly(docs, txs, allowNew, genuine);
  }

  /** The nonce the validator ends with is the nonce reconciling the whole block stores. */
  lemma ValidatedNonceIsStored(docs: Docs, fees: FeeTargets, txs: seq<Tx>, allowNew: bool, genuine: Tx -> bool,
                               at: int, x: Address)
    requires Accepted(docs, txs, allowNew, genuine)
    requires x in Loaded(docs, txs) && !Topped(txs, x)
    ensures NonceOf(CheckAll(Loaded(docs, txs), txs, allowNew, genuine).value, x)
            == NonceOf(WriteDeltas(docs, DeltasOf(EffectsOf(fees, txs)), at), x)
  {
    var log := EffectsOf(fees, txs);
    NoncesTracked(docs, Loaded(docs, txs), fees, txs, allowNew, genuine, x);
    WriteAdvances(docs, log, at);
    assert Moves(docs, log, TIGHT, WriteDeltas(docs, DeltasOf(log), at), x);
  }
}

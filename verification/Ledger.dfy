/** The two authoritative writers of account state, as functions on the accounts database:
    reconciliation (DB_OPs/account_recon.go) and live execution
    (messaging/BlockProcessing/Processing.go). Both commit account documents and the markers
    that vouch for them in one atomic ExecAll. */
module Ledger {
  import opened Types
  import opened Decimal
  import opened Fees
  import opened Deltas
  import opened Partition
  import opened Markers

  type Docs = map<Address, Account>

  datatype Db = Db(docs: Docs, markers: MarkerDb)

  // ----- Reading a document -----

  predicate Readable(balance: string) { balance == "" || Parse(balance).Some? }

  /** An empty balance is zero; an unreadable one is never used for arithmetic. */
  function Amount(balance: string): int {
    if balance != "" && Parse(balance).Some? then Parse(balance).value else 0
  }

  function BalanceOf(docs: Docs, x: Address): int { if x in docs then Amount(docs[x].balance) else 0 }
  function NonceOf(docs: Docs, x: Address): U64 { if x in docs then docs[x].txNonce else 0 }
  function SentOf(docs: Docs, x: Address): nat { if x in docs then docs[x].txCountSent else 0 }

  /** Every document is stored under its own address. */
  predicate Keyed(docs: Docs) { forall a :: a in docs ==> docs[a].address == a }

  function Nanos(seconds: int): int { seconds * 1_000_000_000 }

  // ----- Reconciliation -----

  function EmptyAccount(a: Address, at: int): Account {
    Account("", 0, a, "0", 0, 0, "user", at, 0, None)
  }

  /** `applyDeltaToAccount`: counters move, identity stays, the result is not clamped at zero. */
  function ApplyDelta(existing: Option<Account>, a: Address, d: Delta, at: int): Account {
    var doc := if existing.Some? then existing.value else EmptyAccount(a, at);
    doc.(balance := Format(Amount(doc.balance) + d.balance),
         txNonce := if d.txNonce > doc.txNonce then d.txNonce else doc.txNonce,
         txCountSent := doc.txCountSent + d.sent,
         updatedAt := at)
  }

  function Lookup(docs: Docs, a: Address): Option<Account> {
    if a in docs then Some(docs[a]) else None
  }

  function WriteDeltas(docs: Docs, m: DeltaMap, at: int): Docs {
    docs + map a | a in m :: ApplyDelta(Lookup(docs, a), a, m[a], at)
  }

  predicate AllReadable(docs: Docs, m: DeltaMap) {
    forall a :: a in m && a in docs ==> Readable(docs[a].balance)
  }

  function Mark(markers: MarkerDb, hs: seq<Hash>, value: int): MarkerDb {
    markers + map h | h in hs :: Encode(value)
  }

  /** `commitReconGroup`: None when a stored balance is unreadable or the commit is too large;
      otherwise the deltas and the markers of the group land together. */
  function CommitGroup(db: Db, blk: Block, g: seq<Hash>, appliedAt: int): Option<Db> {
    var deltas := DeltasOf(EffectsOf(blk.fees, InGroup(blk.txs, g)));
    if !AllReadable(db.docs, deltas) || |deltas.Keys| + |g| > EXEC_ALL_CAP then None
    else Some(Db(WriteDeltas(db.docs, deltas, Nanos(blk.timestamp)), Mark(db.markers, g, appliedAt)))
  }

  /** The groups commit one after another; `ok` is how many ExecAlls succeed before the
      process stops or the connection is lost. The flag says whether all groups committed. */
  function CommitGroups(db: Db, blk: Block, groups: seq<seq<Hash>>, ok: nat, appliedAt: int): (Db, bool)
    decreases |groups|
  {
    if groups == [] then (db, true)
    else if ok == 0 then (db, false)
    else
      var next := CommitGroup(db, blk, groups[0], appliedAt);
      if next.None? then (db, false) else CommitGroups(next.value, blk, groups[1..], ok - 1, appliedAt)
  }

  /** Committing groups `i` onwards from `db` ends in `goal`. */
  ghost predicate GroupsLead(db: Db, blk: Block, groups: seq<seq<Hash>>, i: nat, ok: nat, appliedAt: int,
                             goal: (Db, bool)) {
    i <= |groups| && i <= ok && CommitGroups(db, blk, groups[i..], ok - i, appliedAt) == goal
  }

  lemma GroupsUnfold(db: Db, blk: Block, groups: seq<seq<Hash>>, i: nat, ok: nat, appliedAt: int, goal: (Db, bool))
    requires i < |groups| && GroupsLead(db, blk, groups, i, ok, appliedAt, goal)
    ensures var next := CommitGroup(db, blk, groups[i], appliedAt);
            if i < ok && next.Some? then GroupsLead(next.value, blk, groups, i + 1, ok, appliedAt, goal)
            else goal == (db, false)
  {
    assert groups[i..][0] == groups[i] && groups[i..][1..] == groups[i + 1..];
  }

  function Pending(db: Db, legacy: MarkerDb, blk: Block): set<Hash> {
    set t | t in blk.txs && !IsApplied(db.markers, legacy, t.hash) :: t.hash
  }

  /** `ApplyBlockRecon` on the stored block. An expected hash that does not match is an error. */
  function ApplyRecon(db: Db, legacy: MarkerDb, blk: Block, wanted: Option<Hash>, ok: nat, appliedAt: int): (Db, bool) {
    if wanted.Some? && wanted.value != blk.hash then (db, false)
    else CommitGroups(db, blk, Groups(blk, Pending(db, legacy, blk), GROUP_BUDGET), ok, appliedAt)
  }

  // ----- Live execution of one transaction -----

  /** A document as the transaction sees it: its own staged writes first. */
  function Staged(docs: Docs, stage: Docs, a: Address): Option<Account> {
    Lookup(docs + stage, a)
  }

  function Put(stage: Docs, doc: Account): Docs { stage[doc.address := doc] }

  /** `adoptCarriedNonce`: identity only. */
  function Adopt(docs: Docs, stage: Docs, a: Address, carried: map<Address, U64>): Docs {
    var doc := Staged(docs, stage, a);
    if a !in carried || carried[a] == 0 || doc.None? then stage
    else Put(stage, doc.value.(nonce := carried[a]))
  }

  /** `deductFromSender`: refused for a stale nonce, an unreadable or an insufficient balance. */
  function StageDebit(docs: Docs, stage: Docs, s: Sender, at: int): Option<Docs> {
    var doc := Staged(docs, stage, s.addr);
    if doc.None? || Parse(doc.value.balance).None? || s.nonce < doc.value.txNonce
       || s.debit < 0 || Parse(doc.value.balance).value < s.debit then None
    else
      Some(Put(stage, doc.value.(balance := Format(Parse(doc.value.balance).value - s.debit),
                                 txNonce := Inc(s.nonce),
                                 txCountSent := doc.value.txCountSent + 1,
                                 updatedAt := at)))
  }

  /** `addToRecipient`: the account must exist already. */
  function StageCredit(docs: Docs, stage: Docs, c: FeeCredit, at: int): Option<Docs> {
    var doc := Staged(docs, stage, c.addr);
    if doc.None? || Parse(doc.value.balance).None? || c.amount < 0 then None
    else Some(Put(stage, doc.value.(balance := Format(Parse(doc.value.balance).value + c.amount), updatedAt := at)))
  }

  function StageCredits(docs: Docs, stage: Docs, cs: seq<FeeCredit>, at: int): Option<Docs> {
    if cs == [] then Some(stage)
    else
      var front := StageCredits(docs, stage, cs[..|cs| - 1], at);
      if front.None? then None else StageCredit(docs, front.value, cs[|cs| - 1], at)
  }

  /** The value a live transaction carries; a missing one is zero. */
  function LiveValue(tx: Tx): int { if tx.value.Some? then tx.value.value else 0 }

  function ReceiverDid(to: Address): string { "did:jmdt:metamask:" + Format(to) }

  /** A missing receiver is created from the identity the block carries, never minted locally. */
  function StageReceiver(docs: Docs, to: Address, carried: map<Address, U64>, at: int): Option<Docs> {
    if to in docs then Some(map[])
    else if to !in carried || carried[to] == 0 then None
    else Some(map[to := Account(ReceiverDid(to), carried[to], to, "0", 0, 0, "user", at, at, None)])
  }

  predicate LiveShape(fees: FeeTargets, tx: Tx) {
    && tx.from.Some? && tx.to.Some? && fees.coinbase.Some? && fees.zkvm.Some?
    && LiveValue(tx) >= 0 && EffectiveGasPrice(tx) >= 0
  }

  function LiveCredits(fees: FeeTargets, tx: Tx): seq<FeeCredit>
    requires LiveShape(fees, tx)
  {
    [FeeCredit(tx.to.value, LiveValue(tx))] + FeeCredits(fees, GasFee(tx))
  }

  function LiveSender(tx: Tx): Sender
    requires tx.from.Some?
  {
    Sender(tx.from.value, LiveValue(tx) + GasFee(tx), tx.nonce)
  }

  /** Receiver and identities in place, nothing paid yet. */
  function Ready(docs: Docs, from: Address, to: Address, carried: map<Address, U64>, at: int): Option<Docs> {
    var created := StageReceiver(docs, to, carried, at);
    if from !in docs || created.None? then None
    else
      var named := Adopt(docs, created.value, from, carried);
      Some(if to in docs then Adopt(docs, named, to, carried) else named)
  }

  /** Identities first, then the debit, then the credits. None when any step refuses. */
  function LiveStage(docs: Docs, fees: FeeTargets, tx: Tx, carried: map<Address, U64>, at: int): Option<Docs>
    requires LiveShape(fees, tx)
  {
    var ready := Ready(docs, tx.from.value, tx.to.value, carried, at);
    if ready.None? then None
    else
      var debited := StageDebit(docs, ready.value, LiveSender(tx), at);
      if debited.None? then None else StageCredits(docs, debited.value, LiveCredits(fees, tx), at)
  }

  datatype LiveResult = AlreadyApplied | Refused | Committed(db: Db)

  /** `processTransaction`: marker check, staging, and one atomic commit. A failing marker lookup
      lets the transaction through; a failing ExecAll refuses it. */
  function AttemptTx(db: Db, legacy: MarkerDb, fees: FeeTargets, tx: Tx, seconds: int, carried: map<Address, U64>,
                     appliedAt: int,
                     lookup: bool, up: bool): LiveResult
  {
    if !LiveShape(fees, tx) then Refused
    else if lookup && IsApplied(db.markers, legacy, tx.hash) then AlreadyApplied
    else
      var stage := LiveStage(db.docs, fees, tx, carried, Nanos(seconds));
      if stage.None? || |stage.value.Keys| == 0 || |stage.value.Keys| + 1 > EXEC_ALL_CAP || !up then Refused
      else Committed(Db(db.docs + stage.value, Mark(db.markers, [tx.hash], appliedAt)))
  }

  /** `processTransaction` with a database that answers. */
  function ProcessTx(db: Db, legacy: MarkerDb, fees: FeeTargets, tx: Tx, seconds: int, carried: map<Address, U64>,
                     appliedAt: int)
    : LiveResult
  {
    AttemptTx(db, legacy, fees, tx, seconds, carried, appliedAt, true, true)
  }
}

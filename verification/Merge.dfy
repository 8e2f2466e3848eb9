/** Last-writer-wins merging of account documents (DB_OPs/account_immuclient.go). */
module Merge {
  import opened Types

  // ----- Timestamps of unknown unit -----

  const TWO63: int := 0x8000_0000_0000_0000

  /** The int64 a multiplication leaves behind. */
  function WrapInt64(v: int): int { (v + TWO63) % (2 * TWO63) - TWO63 }

  const SECOND: int := 1_000_000_000
  const MILLI: int := 1_000_000
  const MICRO: int := 1_000

  /** The unit a positive stamp is taken to be in, by its size alone. */
  function UnitOf(ts: int): int {
    if ts < 100_000_000_000 then SECOND
    else if ts < 100_000_000_000_000 then MILLI
    else if ts < 100_000_000_000_000_000 then MICRO
    else 1
  }

  /** `normalizeUpdatedAtNanos`. */
  function Normalize(ts: int): int {
    if ts <= 0 then ts else WrapInt64(ts * UnitOf(ts))
  }

  /** The last stamp of each unit that fits in int64 nanoseconds. Seconds overflow in the year
      2262, long before the threshold that separates them from milliseconds. */
  predicate Fits(ts: int) {
    && (UnitOf(ts) == SECOND ==> ts <= 9_223_372_036)
    && (UnitOf(ts) == MILLI ==> ts <= 9_223_372_036_854)
    && (UnitOf(ts) == MICRO ==> ts <= 9_223_372_036_854_775)
  }

  lemma WrapExactly(v: int)
    requires 0 <= v
    ensures -TWO63 <= WrapInt64(v) < TWO63
    ensures WrapInt64(v) == v <==> v < TWO63
  {}

  /** A positive stamp is scaled without overflow exactly when it fits. */
  lemma NormalizeExactly(ts: int)
    requires 0 < ts < TWO63
    ensures Normalize(ts) == ts * UnitOf(ts) <==> Fits(ts)
  {
    WrapExactly(ts * UnitOf(ts));
  }

  /** Ten billion seconds is still taken for seconds and comes out negative: it loses to any
      stamp of today. */
  lemma LateSecondsWrap()
    ensures UnitOf(10_000_000_000) == SECOND && Normalize(10_000_000_000) < 0
  {
    assert 10_000_000_000 * SECOND == 10_000_000_000_000_000_000;
  }

  datatype Unit = Seconds | Millis | Micros | Nanos

  /** The stamp of instant `s` (in seconds) written in unit `u`. */
  function Stamp(s: int, u: Unit): int {
    match u
    case Seconds => s
    case Millis => s * 1_000
    case Micros => s * 1_000_000
    case Nanos => s * 1_000_000_000
  }

  /** From 10^8 to 9223372036 seconds, and nowhere else, a stamp reads the same in every unit. */
  lemma UnitsAgreeExactly(s: int)
    requires s > 0
    ensures (forall u :: Normalize(Stamp(s, u)) == s * SECOND) <==> 100_000_000 <= s <= 9_223_372_036
  {
    if 100_000_000 <= s <= 9_223_372_036 {
      forall u ensures Normalize(Stamp(s, u)) == s * SECOND {
        NormalizeExactly(Stamp(s, u));
      }
    } else if s > 9_223_372_036 {
      WrapExactly(Stamp(s, Nanos));
      assert Normalize(Stamp(s, Nanos)) != s * SECOND;
    } else {
      MillisTakenForSeconds(s);
      assert Normalize(Stamp(s, Millis)) != s * SECOND;
    }
  }

  /** Before 10^8 seconds a stamp in milliseconds is mistaken for one in seconds. */
  lemma MillisTakenForSeconds(s: int)
    requires 0 < s < 100_000_000
    ensures Normalize(Stamp(s, Millis)) != s * SECOND
  {
    var v := s * 1_000_000_000_000;
    var k := (v + TWO63) / (2 * TWO63);
    assert v + TWO63 == k * (2 * TWO63) + (v + TWO63) % (2 * TWO63);
    assert 0 <= k <= 6;
    assert WrapInt64(v) == v - k * (2 * TWO63);
    assert 999_000_000_000 * s != k * (2 * TWO63);
  }

  /** So within that range last-writer order is the order of the instants, whatever the units. */
  lemma OrderIsUnitIndependent(s: int, u: Unit, t: int, v: Unit)
    requires 100_000_000 <= s <= 9_223_372_036 && 100_000_000 <= t <= 9_223_372_036
    ensures Normalize(Stamp(s, u)) < Normalize(Stamp(t, v)) <==> s < t
  {
    UnitsAgreeExactly(s);
    UnitsAgreeExactly(t);
  }

  // ----- Merging -----

  predicate IsZeroBalance(balance: string) { balance == "" || balance == "0" }

  /** Whether a DID is really the account's own address in hexadecimal, whatever its case. */
  type HexTest = (string, Address) -> bool

  function Defaulted(incoming: Account): Account {
    incoming.(accountType := if incoming.accountType == "" then "user" else incoming.accountType,
              createdAt := if incoming.createdAt == 0 then incoming.updatedAt else incoming.createdAt)
  }

  /** The fields of `existing` that survive a newer or equally old `incoming`. */
  function Merged(existing: Account, incoming: Account, isHex: HexTest): Account {
    incoming.(
      did := if incoming.did == "" || isHex(incoming.did, incoming.address) then existing.did else incoming.did,
      createdAt := if incoming.createdAt == 0 then existing.createdAt else incoming.createdAt,
      accountType := if incoming.accountType in ["", "user"] && existing.accountType != "" then existing.accountType
                     else incoming.accountType,
      metadata := if incoming.metadata.None? then existing.metadata else incoming.metadata,
      nonce := if incoming.nonce == 0 then existing.nonce else incoming.nonce,
      txNonce := Max(incoming.txNonce, existing.txNonce),
      txCountSent := Max(incoming.txCountSent, existing.txCountSent),
      balance := if IsZeroBalance(incoming.balance) && !IsZeroBalance(existing.balance) then existing.balance
                 else incoming.balance)
  }

  predicate Wins(existing: Account, incoming: Account) {
    var was, now := Normalize(existing.updatedAt), Normalize(incoming.updatedAt);
    was < now || (was == now && existing.balance != incoming.balance)
  }

  /** `mergeAccountForWrite`: None when the stored document stays. */
  function MergeForWrite(existing: Option<Account>, incoming: Account, isHex: HexTest): Option<Account> {
    if existing.None? then Some(Defaulted(incoming))
    else if Wins(existing.value, incoming) then Some(Merged(existing.value, incoming, isHex))
    else None
  }

  /** What is stored after `incoming` has been offered. */
  function Stored(existing: Option<Account>, incoming: Account, isHex: HexTest): Account {
    var write := MergeForWrite(existing, incoming, isHex);
    if write.Some? then write.value else existing.value
  }

  function StoredAll(existing: Option<Account>, offers: seq<Account>, isHex: HexTest): Option<Account> {
    if offers == [] then existing
    else Some(Stored(StoredAll(existing, offers[..|offers| - 1], isHex), offers[|offers| - 1], isHex))
  }

  /** Nothing that a later document must keep has been lost. */
  predicate Keeps(before: Account, after: Account) {
    && Normalize(before.updatedAt) <= Normalize(after.updatedAt)
    && before.txNonce <= after.txNonce && before.txCountSent <= after.txCountSent
    && (!IsZeroBalance(before.balance) ==> !IsZeroBalance(after.balance))
    && (before.nonce != 0 ==> after.nonce != 0)
    && (before.did != "" ==> after.did != "")
    && (before.createdAt != 0 ==> after.createdAt != 0)
    && (before.metadata.Some? ==> after.metadata.Some?)
  }

  /** Over any sequence of writes timestamps and counters never fall, and a nonzero balance,
      identity nonce, DID, creation time or metadata is never lost. */
  lemma {:induction false} NothingLost(existing: Account, offers: seq<Account>, isHex: HexTest)
    ensures StoredAll(Some(existing), offers, isHex).Some?
    ensures Keeps(existing, StoredAll(Some(existing), offers, isHex).value)
  {
    if offers != [] {
      NothingLost(existing, offers[..|offers| - 1], isHex);
    }
  }

  /** A newer write gets its way in everything it has to say: its time and address, and whatever it
      gives of balance, identity, DID, creation time, type and metadata. */
  lemma NewerWins(existing: Account, incoming: Account, isHex: HexTest)
    requires Normalize(existing.updatedAt) < Normalize(incoming.updatedAt)
    ensures var now := Stored(Some(existing), incoming, isHex);
            && now.updatedAt == incoming.updatedAt && now.address == incoming.address
            && (!IsZeroBalance(incoming.balance) ==> now.balance == incoming.balance)
            && (incoming.nonce != 0 ==> now.nonce == incoming.nonce)
            && (incoming.did != "" && !isHex(incoming.did, incoming.address) ==> now.did == incoming.did)
            && (incoming.createdAt != 0 ==> now.createdAt == incoming.createdAt)
            && (incoming.accountType !in ["", "user"] ==> now.accountType == incoming.accountType)
            && (incoming.metadata.Some? ==> now.metadata == incoming.metadata)
  {}

  /** Every field of the document is a field of some document of the pool; a missing type is "user", and
      a missing creation time the time of the update. */
  ghost predicate Drawn(pool: seq<Account>, doc: Account) {
    && (exists a :: a in pool && doc.did == a.did) && (exists a :: a in pool && doc.nonce == a.nonce)
    && (exists a :: a in pool && doc.address == a.address) && (exists a :: a in pool && doc.balance == a.balance)
    && (exists a :: a in pool && doc.txNonce == a.txNonce)
    && (exists a :: a in pool && doc.txCountSent == a.txCountSent)
    && (doc.accountType == "user" || exists a :: a in pool && doc.accountType == a.accountType)
    && (exists a :: a in pool && doc.createdAt in [a.createdAt, a.updatedAt])
    && (exists a :: a in pool && doc.updatedAt == a.updatedAt) && (exists a :: a in pool && doc.metadata == a.metadata)
  }

  lemma DrawnMore(pool: seq<Account>, incoming: Account, doc: Account, next: Account)
    requires Drawn(pool, doc) && DrawnFrom(doc, incoming, next)
    ensures Drawn(pool + [incoming], next)
  {
    var more := pool + [incoming];
    assert forall a :: a in pool ==> a in more;
    assert incoming in more;
  }

  predicate DrawnFrom(was: Account, incoming: Account, next: Account) {
    && next.did in [was.did, incoming.did] && next.nonce in [was.nonce, incoming.nonce]
    && next.address in [was.address, incoming.address] && next.balance in [was.balance, incoming.balance]
    && next.txNonce in [was.txNonce, incoming.txNonce] && next.txCountSent in [was.txCountSent, incoming.txCountSent]
    && next.accountType in [was.accountType, incoming.accountType]
    && next.createdAt in [was.createdAt, incoming.createdAt]
    && next.updatedAt in [was.updatedAt, incoming.updatedAt] && next.metadata in [was.metadata, incoming.metadata]
  }

  lemma StoredDrawn(existing: Account, incoming: Account, isHex: HexTest)
    ensures DrawnFrom(existing, incoming, Stored(Some(existing), incoming, isHex))
  {}

  /** Nothing is invented: over any sequence of writes every stored field was offered by one of them or
      was there before. With `NothingLost`, the counters are the largest ever offered. */
  lemma {:induction false} NothingInvented(offers: seq<Account>, isHex: HexTest)
    requires offers != []
    ensures StoredAll(None, offers, isHex).Some? && Drawn(offers, StoredAll(None, offers, isHex).value)
  {
    var front, last := offers[..|offers| - 1], offers[|offers| - 1];
    if front == [] {
      assert offers == [last] && last in offers;
    } else {
      NothingInvented(front, isHex);
      StoredDrawn(StoredAll(None, front, isHex).value, last, isHex);
      DrawnMore(front, last, StoredAll(None, front, isHex).value, StoredAll(None, offers, isHex).value);
      assert offers == front + [last];
    }
  }

  /** Redelivering the last write changes nothing, even one that would be written again. */
  lemma RedeliveryIsHarmless(existing: Option<Account>, offers: seq<Account>, isHex: HexTest)
    requires offers != []
    ensures StoredAll(existing, offers + [offers[|offers| - 1]], isHex) == StoredAll(existing, offers, isHex)
  {
    var last := offers[|offers| - 1];
    assert (offers + [last])[..|offers|] == offers;
    Redelivered(StoredAll(existing, offers[..|offers| - 1], isHex), last, isHex);
  }

  lemma Redelivered(existing: Option<Account>, incoming: Account, isHex: HexTest)
    ensures Stored(Some(Stored(existing, incoming, isHex)), incoming, isHex) == Stored(existing, incoming, isHex)
  {}

  /** Redelivering an earlier write is harmless if something strictly newer has been stored. */
  lemma OlderIsIgnored(existing: Option<Account>, offers: seq<Account>, earlier: Account, isHex: HexTest)
    requires StoredAll(existing, offers, isHex).Some?
    requires Normalize(earlier.updatedAt) < Normalize(StoredAll(existing, offers, isHex).value.updatedAt)
    ensures StoredAll(existing, offers + [earlier], isHex) == StoredAll(existing, offers, isHex)
  {
    assert (offers + [earlier])[..|offers|] == offers;
  }

  lemma StoredTwo(a: Account, b: Account, isHex: HexTest)
    ensures StoredAll(None, [a, b], isHex) == Some(Stored(Some(Defaulted(a)), b, isHex))
  {
    assert [a, b][..1] == [a] && [a][..0] == [];
    assert StoredAll(None, [a], isHex) == Some(Defaulted(a));
  }

  // ----- When two offers commute -----

  predicate RealDid(a: Account, isHex: HexTest) { a.did != "" && !isHex(a.did, a.address) }

  /** The older document `prior` has nothing that the newer one lacks. */
  predicate AddsNothing(prior: Account, latest: Account, isHex: HexTest) {
    && (RealDid(latest, isHex) || prior.did == latest.did)
    && (latest.createdAt != 0 || Defaulted(prior).createdAt == latest.updatedAt)
    && (latest.accountType !in ["", "user"] || prior.accountType in ["", "user"])
    && (latest.metadata.Some? || prior.metadata.None?)
    && (latest.nonce != 0 || prior.nonce == 0)
    && prior.txNonce <= latest.txNonce && prior.txCountSent <= latest.txCountSent
    && (!IsZeroBalance(latest.balance) || IsZeroBalance(prior.balance))
  }

  /** Equally old documents with different balances fit together: exactly one of the balances is
      zero, and what only one of them has is taken from it. */
  predicate Fit(a: Account, b: Account, isHex: HexTest) {
    && a.address == b.address && a.updatedAt == b.updatedAt
    && IsZeroBalance(a.balance) != IsZeroBalance(b.balance)
    && (a.did == b.did || RealDid(a, isHex) != RealDid(b, isHex))
    && (a.createdAt == b.createdAt || (a.createdAt == 0) != (b.createdAt == 0))
    && (Defaulted(a).accountType == Defaulted(b).accountType
        || (a.accountType in ["", "user"]) != (b.accountType in ["", "user"]))
    && (a.metadata == b.metadata || a.metadata.None? != b.metadata.None?)
    && (a.nonce == b.nonce || (a.nonce == 0) != (b.nonce == 0))
  }

  predicate Commute(a: Account, b: Account, isHex: HexTest) {
    var s, t := Normalize(a.updatedAt), Normalize(b.updatedAt);
    if s < t then AddsNothing(a, b, isHex)
    else if t < s then AddsNothing(b, a, isHex)
    else if a.balance == b.balance then Defaulted(a) == Defaulted(b)
    else Fit(a, b, isHex)
  }

  /** Two writes to a new account leave the same document in either order if and only if the older
      has nothing that the newer lacks, or, equally old, they agree or fit together. */
  lemma OffersCommuteExactly(a: Account, b: Account, isHex: HexTest)
    ensures StoredAll(None, [a, b], isHex) == StoredAll(None, [b, a], isHex) <==> Commute(a, b, isHex)
  {
    StoredTwo(a, b, isHex);
    StoredTwo(b, a, isHex);
    var s, t := Normalize(a.updatedAt), Normalize(b.updatedAt);
    if s < t {
      AddsNothingExactly(a, b, isHex);
    } else if t < s {
      AddsNothingExactly(b, a, isHex);
    } else if a.balance != b.balance {
      FitExactly(a, b, isHex);
    }
  }

  lemma AddsNothingExactly(prior: Account, latest: Account, isHex: HexTest)
    ensures Merged(Defaulted(prior), latest, isHex) == Defaulted(latest) <==> AddsNothing(prior, latest, isHex)
  {}

  lemma FitExactly(a: Account, b: Account, isHex: HexTest)
    requires a.balance != b.balance
    ensures Merged(Defaulted(a), b, isHex) == Merged(Defaulted(b), a, isHex) <==> Fit(a, b, isHex)
  {}

  /** Equal timestamps are the usual case in which they do not. */
  lemma TiesDependOnOrder(isHex: HexTest) returns (a: Account, b: Account)
    ensures StoredAll(None, [a, b], isHex) != StoredAll(None, [b, a], isHex)
  {
    a := Account("d", 1, 5, "10", 0, 0, "user", 1, 1, None);
    b := a.(balance := "20");
    StoredTwo(a, b, isHex);
    StoredTwo(b, a, isHex);
    assert a.balance[0] != b.balance[0];
  }
}

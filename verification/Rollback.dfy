/** Rolling a failed block back (messaging/BlockProcessing/Processing.go): the markers of the
    transactions it committed are overwritten with -1, chunk by chunk, and only then are the
    accounts it snapshotted restored, one write per account. The process may stop after any
    of these writes. */
module Rollback {
  import opened Types
  import opened Decimal
  import opened Sums
  import opened Fees
  import opened Deltas
  import opened Markers
  import opened Ledger
  import opened Documents
  import opened LedgerMeaning
  import opened LedgerRuns

  datatype Snapshot = Snapshot(balance: string, txNonce: U64, txCountSent: nat, updatedAt: int)

  /** What a block remembers of an account before it starts; a missing account is all zero. */
  function Remember(docs: Docs, a: Address): Snapshot {
    if a in docs then Snapshot(docs[a].balance, docs[a].txNonce, docs[a].txCountSent, docs[a].updatedAt)
    else Snapshot("0", 0, 0, 0)
  }

  function RestoreDoc(docs: Docs, a: Address, s: Snapshot): Account {
    var doc := if a in docs then docs[a] else Account("", 0, a, "", 0, 0, "", 0, 0, None);
    doc.(balance := s.balance, txNonce := s.txNonce, txCountSent := s.txCountSent, updatedAt := s.updatedAt)
  }

  /** `rollbackState`, stopped after the accounts in `restored`. */
  function Restore(docs: Docs, snapshot: Docs, restored: set<Address>): Docs {
    docs + map a | a in restored :: RestoreDoc(docs, a, Remember(snapshot, a))
  }

  /** `rollbackState` account by account, in whatever order the snapshot map is walked. It stops
      at the first account in `failing`, whose write does not go through. */
  method RollbackState(docs: Docs, snapshot: Docs, accounts: set<Address>, failing: set<Address>)
    returns (out: Docs, restored: set<Address>)
    ensures restored <= accounts && restored !! failing && out == Restore(docs, snapshot, restored)
    ensures accounts !! failing ==> restored == accounts
  {
    out, restored := docs, {};
    var rest := accounts;
    assert out == Restore(docs, snapshot, {});
    while rest != {}
      invariant rest + restored == accounts && rest !! restored && restored !! failing
      invariant out == Restore(docs, snapshot, restored)
      decreases rest
    {
      var a :| a in rest;
      if a in failing {
        return;
      }
      RestoreOne(docs, snapshot, restored, a);
      out := out[a := RestoreDoc(out, a, Remember(snapshot, a))];
      restored := restored + {a};
      rest := rest - {a};
    }
  }

  lemma RestoreOne(docs: Docs, snapshot: Docs, restored: set<Address>, a: Address)
    requires a !in restored
    ensures var out := Restore(docs, snapshot, restored);
            out[a := RestoreDoc(out, a, Remember(snapshot, a))] == Restore(docs, snapshot, restored + {a})
  {}

  // ----- Which effects each account holds -----

  /** For every account, the transactions whose effect it currently holds. A crash in the middle
      of a rollback leaves different accounts with different histories. */
  type History = Address -> seq<Effect>

  /** The account is its base plus the effects of `log`. */
  ghost predicate Holds(base: Docs, log: seq<Effect>, docs: Docs, x: Address) {
    && BalanceOf(docs, x) == BalanceOf(base, x) + BalanceSum(log, x)
    && SentOf(docs, x) == SentOf(base, x) + SentSum(log, x)
    && (!LastNonce(log, x) ==> NonceOf(docs, x) == Max(NonceOf(base, x), NonceMax(log, x)))
  }

  /** `h` was applied since the base and touches `x`, so `x` holds its effect. */
  ghost predicate Covered(base: Db, legacy: MarkerDb, chain: Hash -> Effect, hist: History, db: Db, h: Hash,
                          x: Address) {
    NewlyApplied(base, legacy, db.markers, h) && x in Touched(chain(h)) ==> chain(h) in hist(x)
  }

  /** Every account is its base plus the effects in its history, all of them effects of the chain,
      and the effect of every transaction that reads as applied is in the history of every account
      it touches. It may be there twice; it is never missing. */
  ghost predicate NothingSkipped(base: Db, legacy: MarkerDb, chain: Hash -> Effect, hist: History, db: Db) {
    && Keyed(db.docs)
    && (forall x: Address :: Holds(base.docs, hist(x), db.docs, x))
    && (forall x: Address :: LogOn(chain, hist(x)))
    && (forall h: Hash, x: Address :: Covered(base, legacy, chain, hist, db, h, x))
  }

  function Extend(hist: History, log: seq<Effect>): History {
    (x: Address) => hist(x) + log
  }

  function Revert(now: History, before: History, restored: set<Address>): History {
    (x: Address) => if x in restored then before(x) else now(x)
  }

  lemma HoldsMore(base: Docs, held: seq<Effect>, mid: Docs, log: seq<Effect>, slack: Slack, after: Docs, x: Address)
    requires Holds(base, held, mid, x) && Moves(mid, log, slack, after, x) && (x in slack.wrapped ==> LastNonce(log, x))
    ensures Holds(base, held + log, after, x)
  {
    EffectsConcat(held, log, x);
    LastNonceJoins(held, log, x);
  }

  /** Normal commits keep the property. */
  lemma CommitSkipsNothing(base: Db, legacy: MarkerDb, chain: Hash -> Effect, hist: History, db: Db,
                           log: seq<Effect>, slack: Slack, next: Db)
    requires NothingSkipped(base, legacy, chain, hist, db) && ExactlyOnce(db, legacy, log, slack, next)
             && LogOn(chain, log)
    ensures NothingSkipped(base, legacy, chain, Extend(hist, log), next)
  {
    forall x: Address ensures Holds(base.docs, Extend(hist, log)(x), next.docs, x) {
      assert Holds(base.docs, hist(x), db.docs, x) && Moves(db.docs, log, slack, next.docs, x);
      HoldsMore(base.docs, hist(x), db.docs, log, slack, next.docs, x);
    }
    forall x: Address ensures LogOn(chain, Extend(hist, log)(x)) {
      assert LogOn(chain, hist(x));
    }
    forall h: Hash, x: Address ensures Covered(base, legacy, chain, Extend(hist, log), next, h, x) {
      assert Covered(base, legacy, chain, hist, db, h, x);
      CoveredByCommit(base, legacy, chain, hist, db, log, next.markers, h);
    }
  }

  lemma CoveredByCommit(base: Db, legacy: MarkerDb, chain: Hash -> Effect, hist: History, db: Db, log: seq<Effect>,
                        markers: MarkerDb, h: Hash)
    requires MarksExactly(db.markers, legacy, log, markers) && LogOn(chain, log)
    ensures NewlyApplied(base, legacy, markers, h) ==> NewlyApplied(base, legacy, db.markers, h) || chain(h) in log
  {
    if Logged(log, h) {
      var e :| e in log && e.hash == h;
    }
  }

  // ----- One failed block -----

  /** The database after a failed block: the markers in `revoked` are overwritten, and the
      accounts in `restored` are put back to what they were in `before`. */
  function RolledBack(before: Db, after: Db, revoked: seq<Hash>, restored: set<Address>): Db {
    Db(Restore(after.docs, before.docs, restored), Mark(after.markers, revoked, REVOKED))
  }

  /** Every transaction committed since the snapshot that touches a restored account is revoked.
      While nothing is restored this holds whatever has been revoked so far. */
  ghost predicate RevokesTouched(log: seq<Effect>, revoked: seq<Hash>, restored: set<Address>) {
    forall e :: e in log ==> e.hash in revoked || Touched(e) !! restored
  }

  lemma RestoredHolds(base: Docs, before: Docs, after: Docs, was: seq<Effect>, now: seq<Effect>,
                      restored: set<Address>, x: Address)
    requires Holds(base, was, before, x) && Holds(base, now, after, x)
    ensures Holds(base, if x in restored then was else now, Restore(after, before, restored), x)
  {
    assert Format(0) == "0";
  }

  /** What a rollback leaves applied: what was applied and is not among the revoked. */
  lemma RevokedReads(after: MarkerDb, legacy: MarkerDb, revoked: seq<Hash>, h: Hash)
    ensures IsApplied(Mark(after, revoked, REVOKED), legacy, h) <==> IsApplied(after, legacy, h) && h !in revoked
  {
    MarkReads(after, legacy, revoked, REVOKED, h);
  }

  /** Rollback safety: if every commit since the snapshot that touches a restored account is
      revoked, no applied marker is left without its effect. A process that stops between two
      chunks of revocations has restored nothing, so the condition holds there too. */
  lemma RollbackSkipsNothing(base: Db, legacy: MarkerDb, chain: Hash -> Effect, hist: History, before: Db,
                             log: seq<Effect>, slack: Slack, after: Db, revoked: seq<Hash>, restored: set<Address>)
    requires NothingSkipped(base, legacy, chain, hist, before)
    requires ExactlyOnce(before, legacy, log, slack, after) && LogOn(chain, log)
             && RevokesTouched(log, revoked, restored)
    ensures NothingSkipped(base, legacy, chain, Revert(Extend(hist, log), hist, restored),
                           RolledBack(before, after, revoked, restored))
  {
    CommitSkipsNothing(base, legacy, chain, hist, before, log, slack, after);
    var hist1, hist2 := Extend(hist, log), Revert(Extend(hist, log), hist, restored);
    var end := RolledBack(before, after, revoked, restored);
    forall x: Address ensures Holds(base.docs, hist2(x), end.docs, x) {
      assert Holds(base.docs, hist(x), before.docs, x) && Holds(base.docs, hist1(x), after.docs, x);
      RestoredHolds(base.docs, before.docs, after.docs, hist(x), hist1(x), restored, x);
    }
    forall x: Address ensures LogOn(chain, hist2(x)) {
      assert LogOn(chain, hist(x)) && LogOn(chain, hist1(x));
    }
    forall h: Hash, x: Address ensures Covered(base, legacy, chain, hist2, end, h, x) {
      assert Covered(base, legacy, chain, hist, before, h, x) && Covered(base, legacy, chain, hist1, after, h, x);
      RolledBackCovered(base, legacy, chain, hist, before, log, after.markers, revoked, restored, h, x);
    }
  }

  /** The one transaction that could be missing from a restored account is among the revoked. */
  lemma RolledBackCovered(base: Db, legacy: MarkerDb, chain: Hash -> Effect, hist: History, before: Db,
                          log: seq<Effect>,
                          after: MarkerDb, revoked: seq<Hash>, restored: set<Address>, h: Hash, x: Address)
    requires Covered(base, legacy, chain, hist, before, h, x)
    requires MarksExactly(before.markers, legacy, log, after) && LogOn(chain, log)
             && RevokesTouched(log, revoked, restored)
    ensures NewlyApplied(base, legacy, Mark(after, revoked, REVOKED), h) && x in Touched(chain(h)) ==>
              NewlyApplied(base, legacy, after, h) && (x in restored ==> chain(h) in hist(x))
  {
    RevokedReads(after, legacy, revoked, h);
    CoveredByCommit(base, legacy, chain, hist, before, log, after, h);
  }

  /** For the histories the commits produced that condition is exact: if they hold only what is
      applied, restoring keeps them if and only if every transaction committed since the snapshot
      that touches a restored account is revoked. `ExplainedExactly` asks for any history. */
  lemma RestoreSafeExactly(base: Db, legacy: MarkerDb, chain: Hash -> Effect, hist: History, before: Db,
                           log: seq<Effect>, slack: Slack, after: Db, revoked: seq<Hash>, restored: set<Address>)
    requires NothingSkipped(base, legacy, chain, hist, before)
    requires ExactlyOnce(before, legacy, log, slack, after) && LogOn(chain, log)
    requires forall x: Address, e :: e in hist(x) ==> IsApplied(before.markers, legacy, e.hash)
    requires forall h: Hash :: IsApplied(base.markers, legacy, h) ==> IsApplied(before.markers, legacy, h)
    ensures NothingSkipped(base, legacy, chain, Revert(Extend(hist, log), hist, restored),
                           RolledBack(before, after, revoked, restored))
            <==> RevokesTouched(log, revoked, restored)
  {
    if RevokesTouched(log, revoked, restored) {
      RollbackSkipsNothing(base, legacy, chain, hist, before, log, slack, after, revoked, restored);
    } else {
      var e :| e in log && e.hash !in revoked && !(Touched(e) !! restored);
      var x :| x in Touched(e) && x in restored;
      SkippedByRestore(base, legacy, chain, hist, before, log, after.markers, revoked, restored, e, x);
      assert !Covered(base, legacy, chain, Revert(Extend(hist, log), hist, restored),
                      RolledBack(before, after, revoked, restored), e.hash, x);
    }
  }

  lemma SkippedByRestore(base: Db, legacy: MarkerDb, chain: Hash -> Effect, hist: History, before: Db, log: seq<Effect>,
                         after: MarkerDb, revoked: seq<Hash>, restored: set<Address>, e: Effect, x: Address)
    requires MarksExactly(before.markers, legacy, log, after) && LogOn(chain, log)
    requires forall y: Address, d :: d in hist(y) ==> IsApplied(before.markers, legacy, d.hash)
    requires forall h: Hash :: IsApplied(base.markers, legacy, h) ==> IsApplied(before.markers, legacy, h)
    requires e in log && e.hash !in revoked && x in restored
    ensures NewlyApplied(base, legacy, Mark(after, revoked, REVOKED), e.hash)
    ensures chain(e.hash) == e && e !in Revert(Extend(hist, log), hist, restored)(x)
  {
    RevokedReads(after, legacy, revoked, e.hash);
    assert Logged(log, e.hash);
  }

  // ----- When no history explains the result -----

  /** Whatever happens, account `x` does not notice `e`: it neither sends nor gains nor loses. */
  predicate Silent(e: Effect, x: Address) { !Sends(e, x) && BalanceOn(x)(e) == 0 }

  /** Every transaction committed since the snapshot and not revoked left no trace in a restored
      account. */
  ghost predicate LosesNothing(log: seq<Effect>, revoked: seq<Hash>, restored: set<Address>) {
    forall e, x :: e in log && e.hash !in revoked && x in restored ==> Silent(e, x)
  }

  /** No transaction of the chain credits a negative amount. */
  ghost predicate Pays(chain: Hash -> Effect) { forall h: Hash :: NonNegative(chain(h).credits) }

  lemma {:induction false} SilentSums(log: seq<Effect>, x: Address)
    requires forall e :: e in log ==> Silent(e, x)
    ensures BalanceSum(log, x) == 0 && SentSum(log, x) == 0 && NonceMax(log, x) == 0
  {
    if log != [] {
      assert log[|log| - 1] in log;
      SilentSums(log[..|log| - 1], x);
    }
  }

  /** An account that sent nothing and gained nothing was only paid zeros. */
  lemma {:induction false} SumsSilent(log: seq<Effect>, x: Address)
    ensures SentSum(log, x) >= 0
    ensures SentSum(log, x) == 0 ==> forall e :: e in log ==> !Sends(e, x)
    ensures SentSum(log, x) == 0 && (forall e :: e in log ==> NonNegative(e.credits)) ==>
              BalanceSum(log, x) >= 0 && (BalanceSum(log, x) == 0 ==> forall e :: e in log ==> Silent(e, x))
  {
    if log != [] {
      var front, last := log[..|log| - 1], log[|log| - 1];
      assert forall e :: e in log <==> e in front || e == last;
      SumsSilent(front, x);
      if NonNegative(last.credits) {
        CreditsNonNegative(last.credits, x);
      }
    }
  }

  lemma UntouchedIsSilent(e: Effect, x: Address)
    requires x !in Touched(e)
    ensures Silent(e, x)
  {
    OneEffect(e, x);
    UntouchedUnchanged([e], x);
  }

  /** What an unrevoked transaction did to a restored account is gone, so a history that explains
      the result must have had nothing to explain. */
  lemma ExplainedIsSilent(before: Db, legacy: MarkerDb, chain: Hash -> Effect, log: seq<Effect>, slack: Slack,
                          after: Db, revoked: seq<Hash>, restored: set<Address>, hist: History, e: Effect, x: Address)
    requires ExactlyOnce(before, legacy, log, slack, after) && LogOn(chain, log)
    requires NothingSkipped(before, legacy, chain, hist, RolledBack(before, after, revoked, restored))
    requires e in log && e.hash !in revoked && x in restored
    ensures !Sends(e, x) && (Pays(chain) ==> Silent(e, x))
  {
    var end := RolledBack(before, after, revoked, restored);
    if x !in Touched(e) {
      UntouchedIsSilent(e, x);
    } else {
      RestoredExactly(before, legacy, log, slack, after, revoked, restored, x, e.hash);
      assert Logged(log, e.hash);
      assert Covered(before, legacy, chain, hist, end, e.hash, x) && Holds(before.docs, hist(x), end.docs, x);
      assert LogOn(chain, hist(x));
      SumsSilent(hist(x), x);
    }
  }

  /** The transactions of `log` that are not revoked. */
  function Surviving(log: seq<Effect>, revoked: seq<Hash>): (r: seq<Effect>)
    ensures forall e :: e in r <==> e in log && e.hash !in revoked
  {
    if log == [] then []
    else
      var last := log[|log| - 1];
      assert forall e :: e in log <==> e in log[..|log| - 1] || e == last;
      Surviving(log[..|log| - 1], revoked) + if last.hash in revoked then [] else [last]
  }

  /** What remains explained: a restored account keeps the silent survivors, any other the log. */
  function Explanation(log: seq<Effect>, revoked: seq<Hash>, restored: set<Address>): History {
    (x: Address) => if x in restored then Surviving(log, revoked) else log
  }

  lemma SurvivorsHold(before: Docs, log: seq<Effect>, revoked: seq<Hash>, restored: set<Address>, end: Docs, x: Address)
    requires LosesNothing(log, revoked, restored) && Holds(before, if x in restored then [] else log, end, x)
    ensures Holds(before, Explanation(log, revoked, restored)(x), end, x)
  {
    if x in restored {
      SilentSums(Surviving(log, revoked), x);
    }
  }

  lemma SilentIsExplained(before: Db, legacy: MarkerDb, chain: Hash -> Effect, log: seq<Effect>, slack: Slack,
                          after: Db, revoked: seq<Hash>, restored: set<Address>)
    requires ExactlyOnce(before, legacy, log, slack, after) && LogOn(chain, log) && LosesNothing(log, revoked, restored)
    ensures NothingSkipped(before, legacy, chain, Explanation(log, revoked, restored),
                           RolledBack(before, after, revoked, restored))
  {
    var hist, end := Explanation(log, revoked, restored), RolledBack(before, after, revoked, restored);
    RestoreKeyed(after.docs, before.docs, restored);
    forall x: Address ensures Holds(before.docs, hist(x), end.docs, x) {
      RestoredExactly(before, legacy, log, slack, after, revoked, restored, x, 0);
      SurvivorsHold(before.docs, log, revoked, restored, end.docs, x);
    }
    forall h: Hash, x: Address ensures Covered(before, legacy, chain, hist, end, h, x) {
      RevokedReads(after.markers, legacy, revoked, h);
      CoveredByCommit(before, legacy, chain, hist, before, log, after.markers, h);
    }
  }

  /** Exactly when a restore loses something, said of the state alone. Some history explains the
      result if and only if every transaction committed since the snapshot and not revoked left
      the restored accounts as they were: it does not send from one, and what it credits to one
      is zero. */
  lemma ExplainedExactly(before: Db, legacy: MarkerDb, chain: Hash -> Effect, log: seq<Effect>, slack: Slack, after: Db,
                         revoked: seq<Hash>, restored: set<Address>)
    requires ExactlyOnce(before, legacy, log, slack, after) && LogOn(chain, log) && Pays(chain)
    ensures (exists hist: History ::
               NothingSkipped(before, legacy, chain, hist, RolledBack(before, after, revoked, restored)))
            <==> LosesNothing(log, revoked, restored)
  {
    if LosesNothing(log, revoked, restored) {
      SilentIsExplained(before, legacy, chain, log, slack, after, revoked, restored);
    }
    if hist: History :| NothingSkipped(before, legacy, chain, hist, RolledBack(before, after, revoked, restored)) {
      forall e, x | e in log && e.hash !in revoked && x in restored ensures Silent(e, x) {
        ExplainedIsSilent(before, legacy, chain, log, slack, after, revoked, restored, hist, e, x);
      }
    }
  }

  /** In particular no history whatever explains the result if an unrevoked transaction sends from a
      restored account, or pays it something. */
  lemma NoHistoryExplains(before: Db, legacy: MarkerDb, chain: Hash -> Effect, log: seq<Effect>, slack: Slack,
                          after: Db, revoked: seq<Hash>, restored: set<Address>, hist: History, e: Effect, x: Address)
    requires ExactlyOnce(before, legacy, log, slack, after) && LogOn(chain, log)
    requires e in log && e.hash !in revoked && x in restored
    requires Sends(e, x) || (Pays(chain) && BalanceOn(x)(e) != 0)
    ensures !NothingSkipped(before, legacy, chain, hist, RolledBack(before, after, revoked, restored))
  {
    if NothingSkipped(before, legacy, chain, hist, RolledBack(before, after, revoked, restored)) {
      ExplainedIsSilent(before, legacy, chain, log, slack, after, revoked, restored, hist, e, x);
      assert false;
    }
  }

  /** A rollback account by account and marker by marker. A restored account is back to what it
      was; an account outside the snapshot, such as a weighted fee recipient, keeps what was
      committed; and exactly the revoked transactions read as not applied. */
  lemma RestoredExactly(before: Db, legacy: MarkerDb, log: seq<Effect>, slack: Slack, after: Db, revoked: seq<Hash>,
                        restored: set<Address>, x: Address, h: Hash)
    requires ExactlyOnce(before, legacy, log, slack, after)
    ensures var end := RolledBack(before, after, revoked, restored);
            && Holds(before.docs, if x in restored then [] else log, end.docs, x)
            && (IsApplied(end.markers, legacy, h)
                <==> (IsApplied(before.markers, legacy, h) || Logged(log, h)) && h !in revoked)
  {
    assert Moves(before.docs, log, slack, after.docs, x);
    RestoredHolds(before.docs, before.docs, after.docs, [], log, restored, x);
    RevokedReads(after.markers, legacy, revoked, h);
  }

  /** The documents after a rollback. A restored account that existed is the document it was, except
      that it keeps an identity it was given since; one that did not exist stays behind without balance
      or counters; all others are as committed. */
  lemma RestoredDocument(before: Db, legacy: MarkerDb, log: seq<Effect>, slack: Slack, after: Db, revoked: seq<Hash>,
                         restored: set<Address>, x: Address)
    requires ExactlyOnce(before, legacy, log, slack, after)
    ensures var end := RolledBack(before, after, revoked, restored).docs;
            && (x !in restored ==> Lookup(end, x) == Lookup(after.docs, x))
            && (x in restored && x in before.docs ==>
                  x in end && x in after.docs && end[x] == before.docs[x].(nonce := after.docs[x].nonce))
            && (x in restored && x !in before.docs ==>
                  x in end && end[x].address == x && end[x].balance == "0" && end[x].txNonce == 0
                  && end[x].txCountSent == 0 && end[x].updatedAt == 0)
  {
    assert KeepsProfile(before.docs, after.docs, x);
    if x in before.docs {
      SameFields(before.docs[x], after.docs[x]);
    }
  }

  // ----- Runs with rollbacks -----

  datatype Event =
    | Commit(step: Step)
    | Failed(during: seq<Step>, revoked: seq<Hash>, restored: set<Address>)

  function ExecEvent(db: Db, legacy: MarkerDb, ev: Event): Db {
    match ev
    case Commit(step) => Exec(db, legacy, step)
    case Failed(during, revoked, restored) => RolledBack(db, Run(db, legacy, during), revoked, restored)
  }

  function RunEvents(db: Db, legacy: MarkerDb, evs: seq<Event>): Db {
    if evs == [] then db else ExecEvent(RunEvents(db, legacy, evs[..|evs| - 1]), legacy, evs[|evs| - 1])
  }

  /** The steps are sound and apply the transactions of `chain`. */
  ghost predicate SoundOn(chain: Hash -> Effect, ev: Event) {
    match ev
    case Commit(step) => Sound(step) && On(chain, step)
    case Failed(during, _, _) => forall s :: s in during ==> Sound(s) && On(chain, s)
  }

  /** `e` is the effect of a transaction that `during`, started in `db`, committed. */
  ghost predicate CommittedBy(db: Db, legacy: MarkerDb, during: seq<Step>, e: Effect) {
    && (exists s :: s in during && Carries(s, e))
    && NewlyApplied(db, legacy, Run(db, legacy, during).markers, e.hash)
  }

  /** `during` is all that was committed between the snapshot of a failed block and its rollback,
      by the block or by any other writer. What touches a restored account is revoked. */
  ghost predicate Orderly(db: Db, legacy: MarkerDb, ev: Event) {
    ev.Failed? ==>
      forall e :: CommittedBy(db, legacy, ev.during, e) ==> e.hash in ev.revoked || Touched(e) !! ev.restored
  }

  ghost predicate OrderlyRun(db: Db, legacy: MarkerDb, evs: seq<Event>) {
    evs == [] ||
    var front := evs[..|evs| - 1];
    OrderlyRun(db, legacy, front) && Orderly(RunEvents(db, legacy, front), legacy, evs[|evs| - 1])
  }

  /** How often `h` was revoked. */
  function Revocations(evs: seq<Event>, h: Hash): nat {
    if evs == [] then 0
    else Revocations(evs[..|evs| - 1], h) + (if Revokes(evs[|evs| - 1], h) then 1 else 0)
  }

  predicate Revokes(ev: Event, h: Hash) { ev.Failed? && h in ev.revoked }

  /** What the account of history `held` has of `e`, and would have if `e` were applied once more,
      is at most `limit`. */
  predicate Bounded(legacy: MarkerDb, held: seq<Effect>, markers: MarkerDb, e: Effect, limit: nat) {
    multiset(held)[e] + (if IsApplied(markers, legacy, e.hash) then 0 else 1) <= limit
  }

  lemma CommitBounded(before: MarkerDb, legacy: MarkerDb, held: seq<Effect>, log: seq<Effect>, after: MarkerDb,
                      e: Effect, limit: nat)
    requires MarksExactly(before, legacy, log, after) && Bounded(legacy, held, before, e, limit)
    ensures Bounded(legacy, held + log, after, e, limit)
    ensures IsApplied(before, legacy, e.hash) ==> IsApplied(after, legacy, e.hash)
  {
    AtMostOnce(log, e);
    assert e in log ==> Logged(log, e.hash);
  }

  lemma RollbackBounded(before: MarkerDb, legacy: MarkerDb, held: seq<Effect>, log: seq<Effect>, after: MarkerDb,
                        revoked: seq<Hash>, back: bool, e: Effect, limit: nat)
    requires MarksExactly(before, legacy, log, after) && Bounded(legacy, held, before, e, limit)
    ensures Bounded(legacy, if back then held else held + log, Mark(after, revoked, REVOKED), e,
                    limit + if e.hash in revoked then 1 else 0)
  {
    CommitBounded(before, legacy, held, log, after, e, limit);
    RevokedReads(after, legacy, revoked, e.hash);
  }

  /** The history of every account after one more event. */
  lemma EventSkipsNothing(base: Db, legacy: MarkerDb, chain: Hash -> Effect, hist: History, db: Db, ev: Event)
    returns (next: History)
    requires NothingSkipped(base, legacy, chain, hist, db) && SoundOn(chain, ev) && Orderly(db, legacy, ev)
    ensures NothingSkipped(base, legacy, chain, next, ExecEvent(db, legacy, ev))
    ensures forall x: Address, e: Effect, limit: nat :: Bounded(legacy, hist(x), db.markers, e, limit) ==>
              Bounded(legacy, next(x), ExecEvent(db, legacy, ev).markers, e,
                      limit + if Revokes(ev, e.hash) then 1 else 0)
  {
    var markers := ExecEvent(db, legacy, ev).markers;
    match ev
    case Commit(step) =>
      var log := StepOnce(db, legacy, step, chain);
      CommitSkipsNothing(base, legacy, chain, hist, db, log, StepSlack(db, legacy, step), Exec(db, legacy, step));
      next := Extend(hist, log);
      forall x: Address, e: Effect, limit: nat | Bounded(legacy, hist(x), db.markers, e, limit)
        ensures Bounded(legacy, next(x), markers, e, limit)
      {
        CommitBounded(db.markers, legacy, hist(x), log, markers, e, limit);
      }
    case Failed(during, revoked, restored) =>
      var log := LedgerInvariant(db, legacy, during, chain);
      var after := Run(db, legacy, during);
      CommittedLog(db, legacy, during, log);
      RollbackSkipsNothing(base, legacy, chain, hist, db, log, RunSlack(db, legacy, during), after, revoked, restored);
      next := Revert(Extend(hist, log), hist, restored);
      forall x: Address, e: Effect, limit: nat | Bounded(legacy, hist(x), db.markers, e, limit)
        ensures Bounded(legacy, next(x), markers, e, limit + if e.hash in revoked then 1 else 0)
      {
        RollbackBounded(db.markers, legacy, hist(x), log, after.markers, revoked, x in restored, e, limit);
      }
  }

  lemma CommittedLog(db: Db, legacy: MarkerDb, during: seq<Step>, log: seq<Effect>)
    requires MarksExactly(db.markers, legacy, log, Run(db, legacy, during).markers)
    requires forall e :: e in log ==> exists s :: s in during && Carries(s, e)
    ensures forall e :: e in log ==> CommittedBy(db, legacy, during, e)
  {
    forall e | e in log ensures CommittedBy(db, legacy, during, e) {
      assert Logged(log, e.hash);
    }
  }

  /** Over every run of commits, replays and failed blocks, with a stop at any write of any
      rollback: every account is its base plus effects of the chain, no transaction that reads as
      applied is missing from an account it touches, and none is counted more often than once
      and once again for each time it was revoked. */
  lemma {:induction false} NothingEverSkipped(base: Db, legacy: MarkerDb, chain: Hash -> Effect, evs: seq<Event>)
    returns (hist: History)
    requires Keyed(base.docs) && OrderlyRun(base, legacy, evs) && forall ev :: ev in evs ==> SoundOn(chain, ev)
    ensures NothingSkipped(base, legacy, chain, hist, RunEvents(base, legacy, evs))
    ensures AllBounded(legacy, hist, RunEvents(base, legacy, evs).markers, evs)
  {
    if evs == [] {
      hist := (x: Address) => [];
    } else {
      var front, last := evs[..|evs| - 1], evs[|evs| - 1];
      assert forall ev :: ev in evs <==> ev in front || ev == last;
      var before := NothingEverSkipped(base, legacy, chain, front);
      var db := RunEvents(base, legacy, front);
      hist := EventSkipsNothing(base, legacy, chain, before, db, last);
      StillBounded(legacy, before, hist, db.markers, ExecEvent(db, legacy, last).markers, evs);
    }
  }

  /** No account holds a transaction more often than once and once again for each revocation. */
  ghost predicate AllBounded(legacy: MarkerDb, hist: History, markers: MarkerDb, evs: seq<Event>) {
    forall x: Address, e: Effect :: Bounded(legacy, hist(x), markers, e, 1 + Revocations(evs, e.hash))
  }

  lemma StillBounded(legacy: MarkerDb, before: History, after: History, was: MarkerDb, now: MarkerDb, evs: seq<Event>)
    requires evs != [] && AllBounded(legacy, before, was, evs[..|evs| - 1])
    requires forall x: Address, e: Effect, limit: nat :: Bounded(legacy, before(x), was, e, limit) ==>
               Bounded(legacy, after(x), now, e, limit + if Revokes(evs[|evs| - 1], e.hash) then 1 else 0)
    ensures AllBounded(legacy, after, now, evs)
  {
    forall x: Address, e: Effect ensures Bounded(legacy, after(x), now, e, 1 + Revocations(evs, e.hash)) {
      assert Bounded(legacy, before(x), was, e, 1 + Revocations(evs[..|evs| - 1], e.hash));
    }
  }

  /** So a transaction that was never revoked is held exactly once by every account it touches. */
  lemma NeverRevokedIsHeldOnce(base: Db, legacy: MarkerDb, chain: Hash -> Effect, evs: seq<Event>, hist: History,
                               h: Hash, x: Address)
    requires var db := RunEvents(base, legacy, evs);
             && NothingSkipped(base, legacy, chain, hist, db) && chain(h).hash == h
             && Bounded(legacy, hist(x), db.markers, chain(h), 1 + Revocations(evs, h))
    requires NewlyApplied(base, legacy, RunEvents(base, legacy, evs).markers, h) && x in Touched(chain(h))
    requires forall ev :: ev in evs ==> !Revokes(ev, h)
    ensures multiset(hist(x))[chain(h)] == 1
  {
    NotRevoked(evs, h);
    assert Covered(base, legacy, chain, hist, RunEvents(base, legacy, evs), h, x);
  }

  lemma {:induction false} NotRevoked(evs: seq<Event>, h: Hash)
    requires forall ev :: ev in evs ==> !Revokes(ev, h)
    ensures Revocations(evs, h) == 0
  {
    if evs != [] {
      assert evs[|evs| - 1] in evs;
      NotRevoked(evs[..|evs| - 1], h);
    }
  }

  // ----- Finished rollbacks -----

  /** One list of distinct transactions explains every account, and is exactly what is marked. */
  ghost predicate Exact(base: Db, legacy: MarkerDb, log: seq<Effect>, db: Db) {
    && Keyed(db.docs)
    && (forall x: Address :: Holds(base.docs, log, db.docs, x))
    && MarksExactly(base.markers, legacy, log, db.markers)
  }

  lemma CommitKeepsExact(base: Db, legacy: MarkerDb, log: seq<Effect>, db: Db, more: seq<Effect>, slack: Slack,
                         next: Db)
    requires Exact(base, legacy, log, db) && ExactlyOnce(db, legacy, more, slack, next)
    ensures Exact(base, legacy, log + more, next)
  {
    MarksConcat(base.markers, db.markers, next.markers, legacy, log, more);
    forall x: Address ensures Holds(base.docs, log + more, next.docs, x) {
      assert Holds(base.docs, log, db.docs, x) && Moves(db.docs, more, slack, next.docs, x);
      HoldsMore(base.docs, log, db.docs, more, slack, next.docs, x);
    }
  }

  /** The rollback ran to its end: it revoked exactly what was committed since the snapshot, and
      restored every account that any of it touched or opened. */
  ghost predicate Finished(db: Db, legacy: MarkerDb, ev: Event) {
    ev.Failed? ==>
      && (forall e :: CommittedBy(db, legacy, ev.during, e) ==> e.hash in ev.revoked && Touched(e) <= ev.restored)
      && RunSlack(db, legacy, ev.during).created <= ev.restored
      && forall h :: h in ev.revoked ==> !IsApplied(db.markers, legacy, h)
  }

  ghost predicate FinishedRun(db: Db, legacy: MarkerDb, evs: seq<Event>) {
    evs == [] ||
    var front := evs[..|evs| - 1];
    FinishedRun(db, legacy, front) && Finished(RunEvents(db, legacy, front), legacy, evs[|evs| - 1])
  }

  /** A finished rollback leaves the ledger as it was. */
  lemma FinishedUndoes(base: Db, legacy: MarkerDb, log: seq<Effect>, before: Db, more: seq<Effect>, slack: Slack,
                       after: Db, revoked: seq<Hash>, restored: set<Address>)
    requires Exact(base, legacy, log, before) && ExactlyOnce(before, legacy, more, slack, after)
    requires forall e :: e in more ==> e.hash in revoked && Touched(e) <= restored
    requires slack.created <= restored && forall h :: h in revoked ==> !IsApplied(before.markers, legacy, h)
    ensures Exact(base, legacy, log, RolledBack(before, after, revoked, restored))
  {
    UndoneAccounts(base.docs, log, before.docs, more, slack, after.docs, restored);
    RevokedAgain(before.markers, legacy, more, after.markers, revoked);
    RestoreKeyed(after.docs, before.docs, restored);
  }

  lemma RestoreKeyed(docs: Docs, snapshot: Docs, restored: set<Address>)
    requires Keyed(docs)
    ensures Keyed(Restore(docs, snapshot, restored))
  {}

  lemma RevokedAgain(before: MarkerDb, legacy: MarkerDb, more: seq<Effect>, after: MarkerDb, revoked: seq<Hash>)
    requires MarksExactly(before, legacy, more, after)
    requires forall e :: e in more ==> e.hash in revoked
    requires forall h :: h in revoked ==> !IsApplied(before, legacy, h)
    ensures forall h: Hash :: IsApplied(Mark(after, revoked, REVOKED), legacy, h) <==> IsApplied(before, legacy, h)
  {
    forall h: Hash ensures IsApplied(Mark(after, revoked, REVOKED), legacy, h) <==> IsApplied(before, legacy, h) {
      RevokedReads(after, legacy, revoked, h);
    }
  }

  lemma UndoneAccount(base: Docs, log: seq<Effect>, before: Docs, more: seq<Effect>, slack: Slack, after: Docs,
                      restored: set<Address>, x: Address)
    requires Holds(base, log, before, x) && Moves(before, more, slack, after, x)
    requires x in restored || x !in TouchedBy(more) + slack.created
    ensures Holds(base, log, Restore(after, before, restored), x)
  {
    assert Format(0) == "0";
  }

  lemma UndoneAccounts(base: Docs, log: seq<Effect>, before: Docs, more: seq<Effect>, slack: Slack, after: Docs,
                       restored: set<Address>)
    requires forall x: Address :: Holds(base, log, before, x)
    requires Advances(before, more, slack, after)
    requires slack.created <= restored && forall e :: e in more ==> Touched(e) <= restored
    ensures forall x: Address :: Holds(base, log, Restore(after, before, restored), x)
  {
    forall x: Address ensures Holds(base, log, Restore(after, before, restored), x) {
      assert Holds(base, log, before, x) && Moves(before, more, slack, after, x);
      UntouchedBy(more, x, restored);
      UndoneAccount(base, log, before, more, slack, after, restored, x);
    }
  }

  lemma {:induction false} UntouchedBy(log: seq<Effect>, x: Address, within: set<Address>)
    requires forall e :: e in log ==> Touched(e) <= within
    ensures x in within || x !in TouchedBy(log)
  {
    if log != [] {
      assert log[|log| - 1] in log;
      UntouchedBy(log[..|log| - 1], x, within);
    }
  }

  lemma EventKeepsExact(base: Db, legacy: MarkerDb, chain: Hash -> Effect, before: seq<Effect>, db: Db, ev: Event)
    returns (log: seq<Effect>)
    requires Exact(base, legacy, before, db) && LogOn(chain, before) && SoundOn(chain, ev) && Finished(db, legacy, ev)
    ensures Exact(base, legacy, log, ExecEvent(db, legacy, ev)) && LogOn(chain, log)
  {
    match ev
    case Commit(step) =>
      var more := StepOnce(db, legacy, step, chain);
      CommitKeepsExact(base, legacy, before, db, more, StepSlack(db, legacy, step), Exec(db, legacy, step));
      log := before + more;
    case Failed(during, revoked, restored) =>
      var more := LedgerInvariant(db, legacy, during, chain);
      CommittedLog(db, legacy, during, more);
      FinishedUndoes(base, legacy, before, db, more, RunSlack(db, legacy, during), Run(db, legacy, during), revoked,
                     restored);
      log := before;
  }

  /** Over every run in which each rollback finished, the ledger is exact: each account is its base
      plus the transactions marked since, each once, as if no block had failed. */
  lemma {:induction false} FinishedRollbacksLeaveNoTrace(base: Db, legacy: MarkerDb, chain: Hash -> Effect,
                                                         evs: seq<Event>)
    returns (log: seq<Effect>)
    requires Keyed(base.docs) && FinishedRun(base, legacy, evs) && forall ev :: ev in evs ==> SoundOn(chain, ev)
    ensures Exact(base, legacy, log, RunEvents(base, legacy, evs)) && LogOn(chain, log)
  {
    if evs == [] {
      log := [];
    } else {
      var front, last := evs[..|evs| - 1], evs[|evs| - 1];
      assert forall ev :: ev in evs <==> ev in front || ev == last;
      var before := FinishedRollbacksLeaveNoTrace(base, legacy, chain, front);
      log := EventKeepsExact(base, legacy, chain, before, RunEvents(base, legacy, front), last);
    }
  }
}

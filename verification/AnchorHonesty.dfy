/** Exactly which runs keep the anchor honest: every transaction of every block up to it applied, at
    every point. No condition on hand-offs is needed, and none on rollbacks above the anchor. */
module AnchorHonesty {
  import opened Types
  import opened Markers
  import opened Ledger
  import opened LedgerRuns
  import opened Anchor
  import opened AnchorRuns
  import Scan

  // ----- What an action may rely on -----

  /** The blocks rolled back since the last hand-off. */
  function Undone(acts: seq<Act>): set<nat> {
    if acts == [] then {} else UndoneBy(Undone(acts[..|acts| - 1]), acts[|acts| - 1])
  }

  function UndoneBy(undone: set<nat>, a: Act): set<nat> {
    match a
    case HandOff(_, _) => {}
    case RollBack(n, revoked) => if revoked == [] then undone else undone + {n}
    case _ => undone
  }

  /** Nothing vouches for block `n`: it lies below the start of the session, the session did not
      cover it, or it was rolled back since the hand-off. */
  predicate Unvouched(session: Session, target: nat, undone: set<nat>, n: nat) {
    n < session.start || Uncovered(session, target, n) || n in undone
  }

  /** A rollback revokes nothing up to the anchor, and an advance finds applied every block it would
      newly cover that nothing vouches for. */
  ghost predicate Safe(chain: Chain, legacy: MarkerDb, undone: set<nat>, s: Node, a: Act) {
    match a
    case RollBack(n, revoked) => revoked == [] || !(1 <= n <= s.anchor)
    case Advance =>
      s.session.Some? ==>
        forall n: nat :: s.anchor < n <= Target(s) && Unvouched(s.session.value, Target(s), undone, n) ==>
          BlockApplied(chain, s.db.markers, legacy, n)
    case _ => true
  }

  // ----- What every run keeps -----

  /** A block of the session that had transactions and was not handed off, or was handed off and has
      been reconciled, is applied unless it was rolled back since. */
  ghost predicate SessionSteady(chain: Chain, markers: MarkerDb, legacy: MarkerDb, undone: set<nat>, session: Session) {
    forall n: nat :: n !in undone && (KeptBack(session, n) || Finished(session, n)) ==>
      BlockApplied(chain, markers, legacy, n)
  }

  /** Whatever the node does, careful or not. */
  ghost predicate Steady(chain: Chain, legacy: MarkerDb, undone: set<nat>, s: Node) {
    && Keyed(s.db.docs) && Faithful(s.store, chain)
    && (s.session.Some? ==> SessionSteady(chain, s.db.markers, legacy, undone, s.session.value)
                            && RefsFull(chain, s.store, s.session.value) && Faithful(s.session.value.store, chain))
    && (s.anchor <= s.head || (s.anchor == s.head + 1 && s.unstored == Some(s.anchor)))
  }

  lemma SaneIsSteady(chain: Chain, legacy: MarkerDb, s: Node)
    requires Sane(chain, legacy, s)
    ensures Steady(chain, legacy, {}, s) && Honest(chain, s.db.markers, legacy, s.anchor)
  {}

  /** The session's claims survive every action. */
  lemma ClaimsSurvive(chain: Chain, legacy: MarkerDb, undone: set<nat>, s: Node, a: Act)
    requires UniqueHashes(chain) && Steady(chain, legacy, undone, s) && Allowed(chain, legacy, s, a)
    requires s.session.Some? && !a.HandOff?
    ensures SessionSteady(chain, Act1(s, legacy, a).db.markers, legacy, UndoneBy(undone, a), s.session.value)
  {
    var session := s.session.value;
    forall n: nat | n !in UndoneBy(undone, a) && (KeptBack(session, n) || Finished(session, n))
      ensures BlockApplied(chain, Act1(s, legacy, a).db.markers, legacy, n)
    {
      AppliedIsStable(chain, legacy, s, a, n);
    }
  }

  lemma NotedKeepsSteady(chain: Chain, legacy: MarkerDb, undone: set<nat>, s: Node, step: Step)
    requires Steady(chain, legacy, undone, s) && Sound(step) && s.session.Some?
    requires SessionSteady(chain, Exec(s.db, legacy, step).markers, legacy, undone, s.session.value)
    ensures Noted(s, legacy, step).Some?
    ensures SessionSteady(chain, Exec(s.db, legacy, step).markers, legacy, undone, Noted(s, legacy, step).value)
            && RefsFull(chain, s.store, Noted(s, legacy, step).value)
  {
    var noted := Noted(s, legacy, step);
    if noted != s.session {
      var _ := ReconOnce(s.db, legacy, step.blk, step.wanted, step.ok, step.reconAt);
      NotedStaysSteady(chain, Exec(s.db, legacy, step).markers, legacy, undone, s.store, s.session.value, step.blk);
    }
  }

  lemma NotedStaysSteady(chain: Chain, markers: MarkerDb, legacy: MarkerDb, undone: set<nat>, store: Scan.BlockStore,
                         session: Session, blk: Block)
    requires SessionSteady(chain, markers, legacy, undone, session) && RefsFull(chain, store, session)
    requires Scan.BlockAt(store, blk.number) == Some(blk) && AllMarked(blk.txs, markers, legacy)
    ensures SessionSteady(chain, markers, legacy, undone, session.(done := session.done + {blk.number}))
  {
    var next := session.(done := session.done + {blk.number});
    forall n: nat | n !in undone && (KeptBack(next, n) || Finished(next, n))
      ensures BlockApplied(chain, markers, legacy, n)
    {
      if n == blk.number && n in RefNumbers(session.refs) {
        var r :| r in session.refs && r.number == n;
      } else {
        assert KeptBack(session, n) || Finished(session, n);
      }
    }
  }

  lemma NewSessionSteady(chain: Chain, legacy: MarkerDb, s: Node, from: U64, to: U64)
    requires Faithful(s.store, chain)
    ensures SessionSteady(chain, s.db.markers, legacy, {}, OpenSession(s, legacy, from, to))
    ensures RefsFull(chain, s.store, OpenSession(s, legacy, from, to))
  {
    var session := OpenSession(s, legacy, from, to);
    RefsAreOutstanding(s.store, s.db.markers, legacy, session.start, to + 1);
    forall n: nat | KeptBack(session, n) ensures BlockApplied(chain, s.db.markers, legacy, n) {
      assert Ref(n, s.store[n].hash) !in session.refs;
    }
  }

  /** Every allowed action keeps the node steady, and none lowers the anchor. */
  lemma StepKeepsSteady(chain: Chain, legacy: MarkerDb, undone: set<nat>, s: Node, a: Act)
    requires UniqueHashes(chain) && Steady(chain, legacy, undone, s) && Allowed(chain, legacy, s, a)
    ensures Steady(chain, legacy, UndoneBy(undone, a), Act1(s, legacy, a))
    ensures Act1(s, legacy, a).anchor >= s.anchor
  {
    if s.session.Some? && !a.HandOff? {
      ClaimsSurvive(chain, legacy, undone, s, a);
    }
    match a
    case Commit(step) => CommitKeepsSteady(chain, legacy, undone, s, step);
    case Store(blk) => StoreKeepsSteady(chain, legacy, undone, s, blk);
    case HandOff(from, to) => NewSessionSteady(chain, legacy, s, from, to);
    case _ =>
  }

  lemma StoreKeepsSteady(chain: Chain, legacy: MarkerDb, undone: set<nat>, s: Node, blk: Block)
    requires Steady(chain, legacy, undone, s) && Allowed(chain, legacy, s, Store(blk))
    ensures Steady(chain, legacy, undone, Act1(s, legacy, Store(blk)))
  {}

  lemma CommitKeepsSteady(chain: Chain, legacy: MarkerDb, undone: set<nat>, s: Node, step: Step)
    requires Steady(chain, legacy, undone, s) && Sound(step)
    requires s.session.Some? ==>
               SessionSteady(chain, Exec(s.db, legacy, step).markers, legacy, undone, s.session.value)
    ensures Steady(chain, legacy, undone, Act1(s, legacy, Commit(step)))
  {
    CommitGrows(s.db, legacy, step);
    if s.session.Some? {
      NotedKeepsSteady(chain, legacy, undone, s, step);
    }
  }

  // ----- Honesty -----

  /** An advance leaves an honest anchor if and only if every block it newly covers is applied that
      lies below the session's start, was incomplete at the hand-off, was handed off and not
      reconciled with success since, or was rolled back since. */
  lemma AdvanceHonestExactly(chain: Chain, legacy: MarkerDb, undone: set<nat>, s: Node)
    requires Steady(chain, legacy, undone, s) && Honest(chain, s.db.markers, legacy, s.anchor) && s.session.Some?
    ensures Honest(chain, s.db.markers, legacy, NextReconAnchor(s.anchor, Target(s)).0)
            <==> Safe(chain, legacy, undone, s, Advance)
  {
    var session, target := s.session.value, Target(s);
    if Safe(chain, legacy, undone, s, Advance) {
      forall n: nat | s.anchor < n <= target ensures BlockApplied(chain, s.db.markers, legacy, n) {
        if !Unvouched(session, target, undone, n) {
          VouchedIsApplied(chain, s.db.markers, legacy, undone, session, target, n);
        }
      }
    }
  }

  lemma VouchedIsApplied(chain: Chain, markers: MarkerDb, legacy: MarkerDb, undone: set<nat>, session: Session,
                         target: nat, n: nat)
    requires SessionSteady(chain, markers, legacy, undone, session) && Faithful(session.store, chain)
    requires n <= target <= session.to && !Unvouched(session, target, undone, n)
    ensures BlockApplied(chain, markers, legacy, n)
  {
    if n in RefNumbers(session.refs) {
      assert Finished(session, n);
    } else {
      assert session.store[n].txs == [] || KeptBack(session, n);
    }
  }

  /** From an honest anchor, an action leads to an honest anchor exactly if it is safe. */
  lemma StepHonestExactly(chain: Chain, legacy: MarkerDb, undone: set<nat>, s: Node, a: Act)
    requires UniqueHashes(chain) && Steady(chain, legacy, undone, s) && Allowed(chain, legacy, s, a)
    requires Honest(chain, s.db.markers, legacy, s.anchor)
    ensures var next := Act1(s, legacy, a);
            Honest(chain, next.db.markers, legacy, next.anchor) <==> Safe(chain, legacy, undone, s, a)
  {
    if a.Advance? {
      AdvanceHonestExactly(chain, legacy, undone, s);
    } else {
      UnmovedHonestExactly(chain, legacy, s, a, Act1(s, legacy, a).db.markers);
      assert a.RollBack? ==> (1 <= a.number <= s.anchor && a.revoked != [] ==> TakesBack(a, a.number));
    }
  }

  /** The action takes away from block `n` a transaction it had. */
  predicate TakesBack(a: Act, n: nat) { a.RollBack? && a.number == n && a.revoked != [] }

  /** Up to the old anchor, only a rollback of a block down there does harm. */
  lemma UnmovedHonestExactly(chain: Chain, legacy: MarkerDb, s: Node, a: Act, after: MarkerDb)
    requires UniqueHashes(chain) && Keyed(s.db.docs) && Allowed(chain, legacy, s, a)
    requires Honest(chain, s.db.markers, legacy, s.anchor) && after == Act1(s, legacy, a).db.markers
    ensures Honest(chain, after, legacy, s.anchor) <==> forall n :: 1 <= n <= s.anchor ==> !TakesBack(a, n)
  {
    forall n | 1 <= n <= s.anchor ensures BlockApplied(chain, after, legacy, n) <==> !TakesBack(a, n) {
      assert BlockApplied(chain, s.db.markers, legacy, n);
      AppliedIsStable(chain, legacy, s, a, n);
    }
    PointwiseHonest(chain, legacy, after, s.anchor, a);
  }

  lemma PointwiseHonest(chain: Chain, legacy: MarkerDb, after: MarkerDb, anchor: nat, a: Act)
    requires forall n :: 1 <= n <= anchor ==> (BlockApplied(chain, after, legacy, n) <==> !TakesBack(a, n))
    ensures Honest(chain, after, legacy, anchor) <==> forall n :: 1 <= n <= anchor ==> !TakesBack(a, n)
  {}

  ghost predicate AllSafe(chain: Chain, legacy: MarkerDb, s: Node, acts: seq<Act>) {
    forall i :: 0 <= i < |acts| ==> Safe(chain, legacy, Undone(acts[..i]), RunActs(s, legacy, acts[..i]), acts[i])
  }

  ghost predicate HonestAt(chain: Chain, legacy: MarkerDb, s: Node) {
    Honest(chain, s.db.markers, legacy, s.anchor)
  }

  ghost predicate AlwaysHonest(chain: Chain, legacy: MarkerDb, s: Node, acts: seq<Act>) {
    forall i :: 0 <= i <= |acts| ==> HonestAt(chain, legacy, RunActs(s, legacy, acts[..i]))
  }

  lemma UndoneOneMore(acts: seq<Act>, i: nat)
    requires i < |acts|
    ensures Undone(acts[..i + 1]) == UndoneBy(Undone(acts[..i]), acts[i])
  {
    assert acts[..i + 1][..i] == acts[..i];
  }

  /** In every allowed run, careful or not, the anchor is never lowered and stays at or below the
      head, or one above it for a live block not yet stored. */
  lemma {:induction false} RunStaysSteady(chain: Chain, legacy: MarkerDb, s: Node, acts: seq<Act>, k: nat)
    requires UniqueHashes(chain) && Steady(chain, legacy, {}, s) && AllAllowed(chain, legacy, s, acts) && k <= |acts|
    ensures Steady(chain, legacy, Undone(acts[..k]), RunActs(s, legacy, acts[..k]))
    ensures RunActs(s, legacy, acts[..k]).anchor >= s.anchor
  {
    if k == 0 {
      assert acts[..k] == [];
    } else {
      RunStaysSteady(chain, legacy, s, acts, k - 1);
      RunOneMore(s, legacy, acts, k - 1);
      UndoneOneMore(acts, k - 1);
      StepKeepsSteady(chain, legacy, Undone(acts[..k - 1]), RunActs(s, legacy, acts[..k - 1]), acts[k - 1]);
    }
  }

  lemma {:induction false} SafeStaysHonest(chain: Chain, legacy: MarkerDb, s: Node, acts: seq<Act>, k: nat)
    requires UniqueHashes(chain) && Steady(chain, legacy, {}, s) && HonestAt(chain, legacy, s) && k <= |acts|
    requires AllAllowed(chain, legacy, s, acts) && AllSafe(chain, legacy, s, acts)
    ensures HonestAt(chain, legacy, RunActs(s, legacy, acts[..k]))
  {
    if k == 0 {
      assert acts[..k] == [];
    } else {
      var i := k - 1;
      SafeStaysHonest(chain, legacy, s, acts, i);
      assert Safe(chain, legacy, Undone(acts[..i]), RunActs(s, legacy, acts[..i]), acts[i]);
      NextHonestExactly(chain, legacy, s, acts, i);
    }
  }

  lemma NextHonestExactly(chain: Chain, legacy: MarkerDb, s: Node, acts: seq<Act>, i: nat)
    requires UniqueHashes(chain) && Steady(chain, legacy, {}, s) && AllAllowed(chain, legacy, s, acts) && i < |acts|
    requires HonestAt(chain, legacy, RunActs(s, legacy, acts[..i]))
    ensures HonestAt(chain, legacy, RunActs(s, legacy, acts[..i + 1]))
            <==> Safe(chain, legacy, Undone(acts[..i]), RunActs(s, legacy, acts[..i]), acts[i])
  {
    RunStaysSteady(chain, legacy, s, acts, i);
    RunOneMore(s, legacy, acts, i);
    StepHonestExactly(chain, legacy, Undone(acts[..i]), RunActs(s, legacy, acts[..i]), acts[i]);
  }

  /** A run keeps the anchor honest at every point if and only if no rollback revokes a transaction
      of a block up to the anchor, and every advance finds applied each block it newly covers that
      lies below the session's start, that the session did not cover, or that was rolled back
      since the hand-off. */
  lemma AnchorHonestExactly(chain: Chain, legacy: MarkerDb, s: Node, acts: seq<Act>)
    requires UniqueHashes(chain) && Steady(chain, legacy, {}, s) && HonestAt(chain, legacy, s)
    requires AllAllowed(chain, legacy, s, acts)
    ensures AlwaysHonest(chain, legacy, s, acts) <==> AllSafe(chain, legacy, s, acts)
  {
    if AllSafe(chain, legacy, s, acts) {
      forall i | 0 <= i <= |acts| ensures HonestAt(chain, legacy, RunActs(s, legacy, acts[..i])) {
        SafeStaysHonest(chain, legacy, s, acts, i);
      }
    }
    if AlwaysHonest(chain, legacy, s, acts) {
      forall i | 0 <= i < |acts|
        ensures Safe(chain, legacy, Undone(acts[..i]), RunActs(s, legacy, acts[..i]), acts[i])
      {
        NextHonestExactly(chain, legacy, s, acts, i);
      }
    }
  }

  /** Careful runs are safe. */
  lemma CarefulIsSafe(chain: Chain, legacy: MarkerDb, s: Node, acts: seq<Act>)
    requires UniqueHashes(chain) && Sane(chain, legacy, s) && s.session.None?
    requires AllAllowed(chain, legacy, s, acts) && AllCareful(chain, legacy, s, acts)
    ensures AllSafe(chain, legacy, s, acts)
  {
    SaneIsSteady(chain, legacy, s);
    forall i | 0 <= i <= |acts| ensures HonestAt(chain, legacy, RunActs(s, legacy, acts[..i])) {
      AnchorStaysHonest(chain, legacy, s, acts, i);
    }
    AnchorHonestExactly(chain, legacy, s, acts);
  }
}

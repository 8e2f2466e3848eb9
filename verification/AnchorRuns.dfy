/** The anchor over whole runs: commits, failed blocks, stored blocks, live and reconciled
    advances, in any order. */
module AnchorRuns {
  import opened Types
  import opened Deltas
  import opened Markers
  import opened Ledger
  import opened LedgerRuns
  import opened Scan
  import opened Anchor

  /** The agreed chain; `chain[n]` is block `n` with all its transactions. */
  type Chain = map<nat, Block>

  /** No transaction is in two blocks. */
  ghost predicate UniqueHashes(chain: Chain) {
    forall m, n, t, u ::
      m in chain && n in chain && t in chain[m].txs && u in chain[n].txs && t.hash == u.hash ==> m == n
  }

  /** A stored block has no transactions yet, or those of the chain; and a block that passes the
      data check has those of the chain. */
  ghost predicate Faithful(store: BlockStore, chain: Chain) {
    forall n :: n in store ==> n in chain && (store[n].txs == [] || store[n].txs == chain[n].txs)
                               && (!NeedsData(store)(n) ==> store[n].txs == chain[n].txs)
  }

  ghost predicate AllMarked(txs: seq<Tx>, markers: MarkerDb, legacy: MarkerDb) {
    forall t :: t in txs ==> IsApplied(markers, legacy, t.hash)
  }

  ghost predicate BlockApplied(chain: Chain, markers: MarkerDb, legacy: MarkerDb, n: nat) {
    n in chain ==> AllMarked(chain[n].txs, markers, legacy)
  }

  /** Every transaction of every block from 1 to `upTo` is applied. */
  ghost predicate Honest(chain: Chain, markers: MarkerDb, legacy: MarkerDb, upTo: nat) {
    forall n :: 1 <= n <= upTo ==> BlockApplied(chain, markers, legacy, n)
  }

  // ----- The node -----

  /** A reconciliation between its hand-off and its advance: the range, the blocks as they were
      stored at the hand-off, the blocks handed off, and those since reconciled with success. */
  datatype Session = Session(from: U64, to: U64, start: nat, store: BlockStore, refs: seq<Ref>, done: set<nat>)

  /** `unstored` is the last block the live path moved the anchor to, until it is stored. */
  datatype Node = Node(db: Db, store: BlockStore, anchor: U64, head: U64, unstored: Option<U64>,
                       session: Option<Session>)

  datatype Act =
    | Commit(step: Step)
    | RollBack(number: nat, revoked: seq<Hash>)
    | Store(block: Block)
    | LiveDone(live: U64)
    | HeadStored(stored: U64)
    | HandOff(from: U64, to: U64)
    | Advance

  /** What the node makes sure of. A failed block revokes only transactions of its own. A stored
      block with transactions keeps them. Live success means every transaction of the next block
      is applied. An advance follows a clean data check; that the queue's mark has passed the
      hand-off is also checked, and says nothing about entries that failed. */
  ghost predicate Allowed(chain: Chain, legacy: MarkerDb, s: Node, a: Act) {
    match a
    case Commit(step) => Sound(step)
    case RollBack(n, revoked) => n in chain && forall h :: h in revoked ==> h in Hashes(chain[n].txs)
    case Store(blk) =>
      && Faithful(s.store[blk.number := blk], chain)
      && (blk.number in s.store && s.store[blk.number].txs != [] ==> blk.txs == s.store[blk.number].txs)
    case LiveDone(n) => 1 <= n <= s.head + 1 && BlockApplied(chain, s.db.markers, legacy, n)
    case HeadStored(_) => true
    case HandOff(_, _) => true
    case Advance => s.session.Some? && Verified(s)
  }

  /** What it does not check. A rollback revokes nothing that the anchor or the session relies on.
      A hand-off starts where everything below is applied. And at an advance every block of the
      range that was incomplete at the hand-off, or was handed off and not reconciled with success
      since, is applied all the same. */
  ghost predicate Careful(chain: Chain, legacy: MarkerDb, s: Node, a: Act) {
    match a
    case RollBack(n, revoked) => revoked == [] || !Relied(s, n)
    case HandOff(from, _) =>
      forall n :: 1 <= n < ReconFrom(s.anchor, from) ==> BlockApplied(chain, s.db.markers, legacy, n)
    case Advance =>
      s.session.Some? ==>
        forall n: nat ::
          1 <= n && Uncovered(s.session.value, Target(s), n) ==> BlockApplied(chain, s.db.markers, legacy, n)
    case _ => true
  }

  /** Block `n` is part of what the anchor or the session claims to be applied. */
  predicate Relied(s: Node, n: nat) {
    || 1 <= n <= s.anchor
    || (s.session.Some?
        && var session := s.session.value;
           1 <= n < session.start || KeptBack(session, n) || Finished(session, n))
  }

  /** Nothing the session did vouches for block `n`. */
  predicate Uncovered(session: Session, target: nat, n: nat) {
    && session.start <= n <= target
    && (NeedsData(session.store)(n) || (n in RefNumbers(session.refs) && n !in session.done))
  }

  /** The numbers an advance would cover. */
  function Target(s: Node): U64
    requires s.session.Some?
  {
    CapAnchorTarget(s.session.value.to, s.head)
  }

  predicate Drained(session: Session) { forall r :: r in session.refs ==> r.number in session.done }

  /** A reconciliation of a stored block that reports success is noted. */
  function Noted(s: Node, legacy: MarkerDb, step: Step): Option<Session> {
    if s.session.Some? && step.Recon? && BlockAt(s.store, step.blk.number) == Some(step.blk)
       && ApplyRecon(s.db, legacy, step.blk, step.wanted, step.ok, step.reconAt).1
    then Some(s.session.value.(done := s.session.value.done + {step.blk.number}))
    else s.session
  }

  /** The data check of the range finds nothing missing. */
  ghost predicate Verified(s: Node)
    requires s.session.Some?
  {
    forall n: nat :: s.session.value.from <= n <= Target(s) ==> !NeedsData(s.store)(n)
  }

  ghost predicate Unchanged(s: Node)
    requires s.session.Some?
  {
    var session := s.session.value;
    forall n: nat :: session.start <= n <= Target(s) ==> BlockAt(session.store, n) == BlockAt(s.store, n)
  }

  function OpenSession(s: Node, legacy: MarkerDb, from: U64, to: U64): Session {
    var start := ReconFrom(s.anchor, from);
    Session(from, to, start, s.store, Refs(s.store, s.db.markers, legacy, start, to + 1), {})
  }

  function Act1(s: Node, legacy: MarkerDb, a: Act): Node {
    match a
    case Commit(step) => s.(db := Exec(s.db, legacy, step), session := Noted(s, legacy, step))
    case RollBack(n, revoked) => s.(db := s.db.(markers := Mark(s.db.markers, revoked, REVOKED)))
    case Store(blk) => s.(store := s.store[blk.number := blk])
    case LiveDone(n) =>
      var next := NextLiveAnchor(s.anchor, n);
      s.(anchor := next.0, unstored := if next.1 then Some(n) else s.unstored)
    case HeadStored(n) => s.(head := Max(s.head, n), unstored := if s.unstored == Some(n) then None else s.unstored)
    case HandOff(from, to) => s.(session := Some(OpenSession(s, legacy, from, to)))
    case Advance =>
      if s.session.None? then s
      else s.(anchor := NextReconAnchor(s.anchor, Target(s)).0, session := None)
  }

  /** An advance of the node is what the gate does to the stored anchor: with a clean, drained, verified
      session and a write that goes through it makes exactly the step `Advance`, and it never moves
      the anchor in a state in which that step is not allowed. */
  method AdvanceAnchor(key: AnchorKey, s: Node, reconOk: bool, failed: nat, drained: bool, up: bool,
                       ghost chain: Chain, ghost legacy: MarkerDb)
    returns (covered: bool)
    requires Numbered(s.store) && s.session.Some? && key.Value() == s.anchor
    modifies key
    ensures var proven := reconOk && failed == 0 && drained && s.session.value.from <= Target(s) && Verified(s);
            && key.Value() == (if proven && up then Act1(s, legacy, Advance).anchor else s.anchor)
            && (covered <==> proven && key.Value() >= Target(s))
    ensures key.Value() != s.anchor ==> Allowed(chain, legacy, s, Advance)
  {
    covered := AdvanceReconAnchorIfProven(key, s.store, s.head, reconOk, failed, s.session.value.from,
                                          s.session.value.to, drained, up);
    VerifiedExactly(s);
  }

  lemma VerifiedExactly(s: Node)
    requires s.session.Some?
    ensures Verified(s) <==> forall n: nat :: s.session.value.from <= n <= Target(s) ==> Whole(s.store, n)
    ensures Target(s) == Min(s.session.value.to, s.head)
  {
    forall n: nat ensures NeedsData(s.store)(n) <==> !Whole(s.store, n) {
      KindExactly(s.store, n);
    }
  }

  function RunActs(s: Node, legacy: MarkerDb, acts: seq<Act>): Node {
    if acts == [] then s else Act1(RunActs(s, legacy, acts[..|acts| - 1]), legacy, acts[|acts| - 1])
  }

  ghost predicate AllAllowed(chain: Chain, legacy: MarkerDb, s: Node, acts: seq<Act>) {
    forall i :: 0 <= i < |acts| ==> Allowed(chain, legacy, RunActs(s, legacy, acts[..i]), acts[i])
  }

  ghost predicate AllCareful(chain: Chain, legacy: MarkerDb, s: Node, acts: seq<Act>) {
    forall i :: 0 <= i < |acts| ==> Careful(chain, legacy, RunActs(s, legacy, acts[..i]), acts[i])
  }

  ghost predicate AlwaysSane(chain: Chain, legacy: MarkerDb, s: Node, acts: seq<Act>) {
    forall i :: 0 <= i <= |acts| ==> Sane(chain, legacy, RunActs(s, legacy, acts[..i]))
  }

  // ----- What stays applied -----

  lemma CommitGrows(db: Db, legacy: MarkerDb, step: Step)
    requires Keyed(db.docs) && Sound(step)
    ensures Keyed(Exec(db, legacy, step).docs)
    ensures forall h: Hash :: IsApplied(db.markers, legacy, h) ==> IsApplied(Exec(db, legacy, step).markers, legacy, h)
  {
    var _ := StepOnce(db, legacy, step, (h: Hash) => Effect(h, None, []));
  }

  /** A rollback leaves every other block as it was, and its own no longer applied. */
  lemma RollbackReadsExactly(chain: Chain, markers: MarkerDb, legacy: MarkerDb, m: nat, revoked: seq<Hash>, n: nat)
    requires UniqueHashes(chain) && m in chain && (forall h :: h in revoked ==> h in Hashes(chain[m].txs))
             && revoked != []
    requires BlockApplied(chain, markers, legacy, n)
    ensures BlockApplied(chain, Mark(markers, revoked, REVOKED), legacy, n) <==> n != m
  {
    if n == m {
      assert revoked[0] in revoked;
      var k :| 0 <= k < |chain[m].txs| && Hashes(chain[m].txs)[k] == revoked[0];
      assert chain[m].txs[k] in chain[m].txs;
      MarkReads(markers, legacy, revoked, REVOKED, revoked[0]);
    } else if n in chain {
      forall t | t in chain[n].txs ensures IsApplied(Mark(markers, revoked, REVOKED), legacy, t.hash) {
        MarkReads(markers, legacy, revoked, REVOKED, t.hash);
        forall k | 0 <= k < |chain[m].txs| ensures Hashes(chain[m].txs)[k] != t.hash {
          assert chain[m].txs[k] in chain[m].txs;
        }
      }
    }
  }

  /** Applied blocks stay applied through everything but a rollback of their own. */
  lemma AppliedIsStable(chain: Chain, legacy: MarkerDb, s: Node, a: Act, n: nat)
    requires UniqueHashes(chain) && Keyed(s.db.docs) && Allowed(chain, legacy, s, a)
    requires BlockApplied(chain, s.db.markers, legacy, n)
    ensures BlockApplied(chain, Act1(s, legacy, a).db.markers, legacy, n)
            <==> !(a.RollBack? && a.number == n && a.revoked != [])
  {
    match a
    case Commit(step) => CommitGrows(s.db, legacy, step);
    case RollBack(m, revoked) =>
      if revoked == [] {
        assert Mark(s.db.markers, [], REVOKED) == s.db.markers;
      } else {
        RollbackReadsExactly(chain, s.db.markers, legacy, m, revoked, n);
      }
    case _ =>
  }

  // ----- The invariant -----

  /** During a session everything below its start is applied, and so is every block of its range
      that had transactions and was not handed off, or was handed off and has been reconciled. */
  ghost predicate SessionSound(chain: Chain, markers: MarkerDb, legacy: MarkerDb, session: Session) {
    && session.from <= session.start
    && (forall n :: 1 <= n < session.start ==> BlockApplied(chain, markers, legacy, n))
    && (forall n: nat :: KeptBack(session, n) || Finished(session, n) ==> BlockApplied(chain, markers, legacy, n))
  }

  predicate Finished(session: Session, n: nat) { n in RefNumbers(session.refs) && n in session.done }

  /** Every handed-off block is stored with all its transactions. */
  ghost predicate RefsFull(chain: Chain, store: BlockStore, session: Session) {
    forall r :: r in session.refs ==> r.number in store && r.number in chain
                                      && store[r.number].txs == chain[r.number].txs
                                      && store[r.number].txs != []
  }

  /** Stored with transactions at the hand-off, but not handed off. */
  predicate KeptBack(session: Session, n: nat) {
    && session.start <= n <= session.to && n in session.store && session.store[n].txs != []
    && n !in RefNumbers(session.refs)
  }

  function RefNumbers(refs: seq<Ref>): set<nat> { set r | r in refs :: r.number }

  ghost predicate Sane(chain: Chain, legacy: MarkerDb, s: Node) {
    && Keyed(s.db.docs) && Faithful(s.store, chain)
    && Honest(chain, s.db.markers, legacy, s.anchor)
    && (s.session.Some? ==> SessionSound(chain, s.db.markers, legacy, s.session.value)
                            && RefsFull(chain, s.store, s.session.value) && Faithful(s.session.value.store, chain))
    && (s.anchor <= s.head || (s.anchor == s.head + 1 && s.unstored == Some(s.anchor)))
  }

  /** An action other than a careless rollback keeps what the anchor and the session claim. */
  lemma HonestAfter(chain: Chain, legacy: MarkerDb, s: Node, a: Act)
    requires UniqueHashes(chain) && Sane(chain, legacy, s) && Allowed(chain, legacy, s, a)
    requires a.RollBack? ==> Careful(chain, legacy, s, a)
    ensures Honest(chain, Act1(s, legacy, a).db.markers, legacy, s.anchor)
    ensures s.session.Some? ==> SessionSound(chain, Act1(s, legacy, a).db.markers, legacy, s.session.value)
  {
    forall n: nat | Relied(s, n) ensures BlockApplied(chain, Act1(s, legacy, a).db.markers, legacy, n) {
      AppliedIsStable(chain, legacy, s, a, n);
    }
  }

  /** A noted block is applied: success means every transaction of the stored block is marked. */
  lemma NotedSound(chain: Chain, legacy: MarkerDb, s: Node, step: Step)
    requires Sane(chain, legacy, s) && Sound(step)
    requires s.session.Some? ==> SessionSound(chain, Exec(s.db, legacy, step).markers, legacy, s.session.value)
    ensures s.session.Some? <==> Noted(s, legacy, step).Some?
    ensures s.session.Some? ==> SessionSound(chain, Exec(s.db, legacy, step).markers, legacy,
                                             Noted(s, legacy, step).value)
                                && RefsFull(chain, s.store, Noted(s, legacy, step).value)
  {
    var noted := Noted(s, legacy, step);
    if noted != s.session {
      var log := ReconOnce(s.db, legacy, step.blk, step.wanted, step.ok, step.reconAt);
      NotedIsApplied(chain, Exec(s.db, legacy, step).markers, legacy, s.store, s.session.value, step.blk);
    }
  }

  lemma NotedIsApplied(chain: Chain, markers: MarkerDb, legacy: MarkerDb, store: BlockStore, session: Session,
                       blk: Block)
    requires SessionSound(chain, markers, legacy, session) && RefsFull(chain, store, session)
    requires BlockAt(store, blk.number) == Some(blk) && AllMarked(blk.txs, markers, legacy)
    ensures SessionSound(chain, markers, legacy, session.(done := session.done + {blk.number}))
  {
    var next := session.(done := session.done + {blk.number});
    forall n: nat | KeptBack(next, n) || Finished(next, n) ensures BlockApplied(chain, markers, legacy, n) {
      if n == blk.number && n in RefNumbers(session.refs) {
        var r :| r in session.refs && r.number == n;
      } else {
        assert KeptBack(session, n) || Finished(session, n);
      }
    }
  }

  lemma NewSession(chain: Chain, legacy: MarkerDb, s: Node, from: U64, to: U64)
    requires Sane(chain, legacy, s) && Careful(chain, legacy, s, HandOff(from, to))
    ensures SessionSound(chain, s.db.markers, legacy, OpenSession(s, legacy, from, to))
    ensures RefsFull(chain, s.store, OpenSession(s, legacy, from, to))
  {
    var session := OpenSession(s, legacy, from, to);
    RefsAreOutstanding(s.store, s.db.markers, legacy, session.start, to + 1);
    forall n: nat | KeptBack(session, n) ensures BlockApplied(chain, s.db.markers, legacy, n) {
      assert Ref(n, s.store[n].hash) !in session.refs;
    }
  }

  lemma CoveredIsApplied(chain: Chain, markers: MarkerDb, legacy: MarkerDb, session: Session, target: nat, n: nat)
    requires SessionSound(chain, markers, legacy, session) && Faithful(session.store, chain)
    requires session.start <= n <= target <= session.to && !Uncovered(session, target, n)
    ensures BlockApplied(chain, markers, legacy, n)
  {
    if n in RefNumbers(session.refs) {
      assert Finished(session, n);
    } else {
      assert session.store[n].txs == [] || KeptBack(session, n);
    }
  }

  /** In a sane node, an advance leaves an honest anchor if and only if every block of the range that
      was incomplete at the hand-off, or was handed off and not reconciled with success since, is
      applied. */
  lemma SaneAdvanceExactly(chain: Chain, legacy: MarkerDb, s: Node)
    requires Sane(chain, legacy, s) && s.session.Some?
    ensures Honest(chain, s.db.markers, legacy, NextReconAnchor(s.anchor, Target(s)).0)
            <==> forall n: nat ::
                   1 <= n && Uncovered(s.session.value, Target(s), n) ==> BlockApplied(chain, s.db.markers, legacy, n)
  {
    var session, target := s.session.value, Target(s);
    if forall n: nat :: 1 <= n && Uncovered(session, target, n) ==> BlockApplied(chain, s.db.markers, legacy, n) {
      forall n | 1 <= n <= target ensures BlockApplied(chain, s.db.markers, legacy, n) {
        if session.start <= n && !Uncovered(session, target, n) {
          CoveredIsApplied(chain, s.db.markers, legacy, session, target, n);
        }
      }
    }
  }

  lemma CommitKeepsSane(chain: Chain, legacy: MarkerDb, s: Node, step: Step)
    requires Sane(chain, legacy, s) && Sound(step)
    requires Honest(chain, Exec(s.db, legacy, step).markers, legacy, s.anchor)
    requires s.session.Some? ==> SessionSound(chain, Exec(s.db, legacy, step).markers, legacy, s.session.value)
    ensures Sane(chain, legacy, Act1(s, legacy, Commit(step)))
  {
    CommitGrows(s.db, legacy, step);
    NotedSound(chain, legacy, s, step);
  }

  lemma StoreKeepsSane(chain: Chain, legacy: MarkerDb, s: Node, blk: Block)
    requires Sane(chain, legacy, s) && Allowed(chain, legacy, s, Store(blk))
    ensures Sane(chain, legacy, Act1(s, legacy, Store(blk)))
  {}

  /** A careless rollback revokes a transaction that the anchor or the session relies on. */
  lemma CarelessRollbackBreaks(chain: Chain, legacy: MarkerDb, s: Node, m: nat, revoked: seq<Hash>)
    requires UniqueHashes(chain) && Sane(chain, legacy, s) && Allowed(chain, legacy, s, RollBack(m, revoked))
    requires revoked != [] && Relied(s, m)
    ensures !Sane(chain, legacy, Act1(s, legacy, RollBack(m, revoked)))
  {
    assert BlockApplied(chain, s.db.markers, legacy, m);
    RollbackReadsExactly(chain, s.db.markers, legacy, m, revoked, m);
  }

  /** One action keeps the invariant exactly if it is careful, and never lowers anchor or head. */
  lemma StepSaneExactly(chain: Chain, legacy: MarkerDb, s: Node, a: Act)
    requires UniqueHashes(chain) && Sane(chain, legacy, s) && Allowed(chain, legacy, s, a)
    ensures Sane(chain, legacy, Act1(s, legacy, a)) <==> Careful(chain, legacy, s, a)
    ensures Act1(s, legacy, a).anchor >= s.anchor && Act1(s, legacy, a).head >= s.head
  {
    if a.RollBack? && !Careful(chain, legacy, s, a) {
      CarelessRollbackBreaks(chain, legacy, s, a.number, a.revoked);
    } else {
      HonestAfter(chain, legacy, s, a);
      match a
      case Commit(step) => CommitKeepsSane(chain, legacy, s, step);
      case Store(blk) => StoreKeepsSane(chain, legacy, s, blk);
      case HandOff(from, to) =>
        if Careful(chain, legacy, s, a) {
          NewSession(chain, legacy, s, from, to);
        }
      case Advance => SaneAdvanceExactly(chain, legacy, s);
      case _ =>
    }
  }

  /** That one step above the head is real: live processing advances the anchor before the block
      is stored. */
  lemma LiveLeadsHead(chain: Chain, legacy: MarkerDb, s: Node)
    requires Sane(chain, legacy, s) && s.anchor == s.head < MAX_U64 && Allowed(chain, legacy, s, LiveDone(s.head + 1))
    ensures Act1(s, legacy, LiveDone(s.head + 1)).anchor > Act1(s, legacy, LiveDone(s.head + 1)).head
    ensures var end := Act1(Act1(s, legacy, LiveDone(s.head + 1)), legacy, HeadStored(s.head + 1));
            end.anchor == end.head
  {}

  lemma RunOneMore(s: Node, legacy: MarkerDb, acts: seq<Act>, i: nat)
    requires i < |acts|
    ensures RunActs(s, legacy, acts[..i + 1]) == Act1(RunActs(s, legacy, acts[..i]), legacy, acts[i])
  {
    assert acts[..i + 1][..i] == acts[..i];
  }

  lemma CarefulStep(chain: Chain, legacy: MarkerDb, s: Node, a: Act, next: Node)
    requires UniqueHashes(chain) && Sane(chain, legacy, s) && Allowed(chain, legacy, s, a)
             && Careful(chain, legacy, s, a)
    requires next == Act1(s, legacy, a)
    ensures Sane(chain, legacy, next) && next.anchor >= s.anchor
  {
    StepSaneExactly(chain, legacy, s, a);
  }

  /** Anchor honesty over runs: from an honest start, after any sequence of careful actions,
      every transaction of every block up to the anchor is applied, the anchor was never
      lowered, and it is at or below the head, or one above it for a live block that has been
      applied and not yet stored. */
  lemma {:induction false} AnchorStaysHonest(chain: Chain, legacy: MarkerDb, s: Node, acts: seq<Act>, k: nat)
    requires UniqueHashes(chain) && Sane(chain, legacy, s) && s.session.None? && k <= |acts|
    requires AllAllowed(chain, legacy, s, acts) && AllCareful(chain, legacy, s, acts)
    ensures Sane(chain, legacy, RunActs(s, legacy, acts[..k])) && RunActs(s, legacy, acts[..k]).anchor >= s.anchor
  {
    if k > 0 {
      AnchorStaysHonest(chain, legacy, s, acts, k - 1);
      RunOneMore(s, legacy, acts, k - 1);
      CarefulStep(chain, legacy, RunActs(s, legacy, acts[..k - 1]), acts[k - 1], RunActs(s, legacy, acts[..k]));
    } else {
      assert acts[..k] == [];
    }
  }

  /** A run keeps the whole invariant, what the session relies on included, at every point if and
      only if every action is careful. Which runs keep the anchor honest is in AnchorHonesty. */
  lemma SaneExactly(chain: Chain, legacy: MarkerDb, s: Node, acts: seq<Act>)
    requires UniqueHashes(chain) && Sane(chain, legacy, s) && s.session.None? && AllAllowed(chain, legacy, s, acts)
    ensures AlwaysSane(chain, legacy, s, acts) <==> AllCareful(chain, legacy, s, acts)
  {
    if AllCareful(chain, legacy, s, acts) {
      forall i | 0 <= i <= |acts| ensures Sane(chain, legacy, RunActs(s, legacy, acts[..i])) {
        AnchorStaysHonest(chain, legacy, s, acts, i);
      }
    }
    if AlwaysSane(chain, legacy, s, acts) {
      forall i | 0 <= i < |acts| ensures Careful(chain, legacy, RunActs(s, legacy, acts[..i]), acts[i]) {
        RunOneMore(s, legacy, acts, i);
        StepSaneExactly(chain, legacy, RunActs(s, legacy, acts[..i]), acts[i]);
      }
    }
  }

  // ----- When the node is careful -----

  /** A hand-off that leaves no gap above the anchor is careful. */
  lemma GaplessHandOffIsCareful(chain: Chain, legacy: MarkerDb, s: Node, from: U64, to: U64)
    requires Sane(chain, legacy, s) && from <= s.anchor + 1
    ensures Careful(chain, legacy, s, HandOff(from, to))
  {}

  /** An advance is careful if every handed-off block was reconciled with success and the blocks of
      the range did not change between the hand-off and the data check. */
  lemma DrainedAdvanceIsCareful(chain: Chain, legacy: MarkerDb, s: Node)
    requires Sane(chain, legacy, s) && Allowed(chain, legacy, s, Advance) && Drained(s.session.value) && Unchanged(s)
    ensures Careful(chain, legacy, s, Advance)
  {
    var session := s.session.value;
    forall n: nat | session.start <= n <= Target(s) ensures !Uncovered(session, Target(s), n) {
      assert BlockAt(session.store, n) == BlockAt(s.store, n) && !NeedsData(s.store)(n);
      assert n in RefNumbers(session.refs) ==> n in session.done;
    }
  }
}

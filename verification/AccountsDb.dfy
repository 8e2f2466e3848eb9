/** The accounts database as the node mutates it: the writers of DB_OPs/account_recon.go,
    DB_OPs/tx_markers.go and messaging/BlockProcessing/Processing.go, each proved to make
    exactly the transition its specification in module Ledger describes. Every ExecAll is
    one assignment to both fields. */
module AccountsDb {
  import opened Types
  import opened Fees
  import opened Deltas
  import opened Partition
  import opened Markers
  import opened Ledger

  /** Revocations go out in chunks of this many markers. */
  const REVOKE_CHUNK: nat := 500

  class AccountsDb {
    var docs: Docs
    var markers: MarkerDb

    ghost function State(): Db
      reads this
    {
      Db(docs, markers)
    }

    constructor (d: Docs, m: MarkerDb)
      ensures State() == Db(d, m)
    {
      docs, markers := d, m;
    }

    /** `commitReconGroup`: build every document and every marker, then write them together.
        `up` says whether the ExecAll reaches the server. */
    method CommitReconGroup(deltas: DeltaMap, groupTxs: seq<Hash>, at: int, appliedAt: int, up: bool) returns (ok: bool)
      modifies this
      ensures ok <==> up && AllReadable(old(docs), deltas) && |deltas.Keys| + |groupTxs| <= EXEC_ALL_CAP
      ensures State() == if ok then Db(WriteDeltas(old(docs), deltas, at),
                                       Mark(old(markers), groupTxs, appliedAt)) else old(State())
    {
      var ops := BuildDocs(docs, deltas, at);
      if ops.None? || |deltas.Keys| + |groupTxs| > EXEC_ALL_CAP || !up {
        return false;
      }
      docs, markers := docs + ops.value, Mark(markers, groupTxs, appliedAt);
      return true;
    }

    /** One group: deltas for exactly its transactions, then the commit. */
    method ApplyGroup(blk: Block, g: seq<Hash>, appliedAt: int, up: bool) returns (ok: bool)
      modifies this
      ensures var next := CommitGroup(old(State()), blk, g, appliedAt);
              && (ok <==> up && next.Some?)
              && State() == if ok then next.value else old(State())
    {
      var skip := set t | t in blk.txs && t.hash !in g :: t.hash;
      var deltas := ComputeBlockDeltas(blk, skip);
      assert deltas == DeltasOf(EffectsOf(blk.fees, InGroup(blk.txs, g)));
      ok := CommitReconGroup(deltas, g, Nanos(blk.timestamp), appliedAt, up);
    }

    method ApplyGroups(blk: Block, groups: seq<seq<Hash>>, ok: nat, appliedAt: int) returns (applied: bool)
      modifies this
      ensures (State(), applied) == CommitGroups(old(State()), blk, groups, ok, appliedAt)
    {
      ghost var goal := CommitGroups(State(), blk, groups, ok, appliedAt);
      for i := 0 to |groups|
        invariant i <= ok && GroupsLead(State(), blk, groups, i, ok, appliedAt, goal)
      {
        GroupsUnfold(State(), blk, groups, i, ok, appliedAt, goal);
        var committed := ApplyGroup(blk, groups[i], appliedAt, i < ok);
        if !committed {
          return false;
        }
      }
      return true;
    }

    /** `ApplyBlockRecon`: filter by markers, cut into groups, commit group by group. The
        connection fails after `ok` commits. */
    method ApplyBlockRecon(legacy: MarkerDb, blk: Block, wanted: Option<Hash>, ok: nat, appliedAt: int)
      returns (applied: bool)
      modifies this
      ensures (State(), applied) == ApplyRecon(old(State()), legacy, blk, wanted, ok, appliedAt)
    {
      if wanted.Some? && wanted.value != blk.hash {
        return false;
      }
      var done := FilterProcessedTxMarkers(markers, legacy, Hashes(blk.txs));
      var pending := set t | t in blk.txs && t.hash !in done :: t.hash;
      assert pending == Pending(State(), legacy, blk) by {
        HashesMembers(blk.txs);
      }
      var groups := PartitionReconGroups(blk, pending, GROUP_BUDGET);
      applied := ApplyGroups(blk, groups, ok, appliedAt);
    }

    /** `ApplyTxAtomic`: every staged document and the marker, or nothing. `up` says whether the
        ExecAll goes through. */
    method ApplyTxAtomic(staged: Docs, txHash: Hash, appliedAt: int, up: bool) returns (ok: bool)
      modifies this
      ensures ok <==> 0 < |staged.Keys| && |staged.Keys| + 1 <= EXEC_ALL_CAP && up
      ensures State() == if ok then Db(old(docs) + staged, Mark(old(markers), [txHash], appliedAt)) else old(State())
    {
      ok := 0 < |staged.Keys| && |staged.Keys| + 1 <= EXEC_ALL_CAP && up;
      if ok {
        docs, markers := docs + staged, Mark(markers, [txHash], appliedAt);
      }
    }

    /** `processTransaction`: check the marker, stage the transaction step by step on a private
        copy, commit once. A step that refuses leaves the database as it was. `lookup` says
        whether the marker could be read and `up` whether the ExecAll goes through. */
    method ProcessTransaction(legacy: MarkerDb, fees: FeeTargets, tx: Tx, seconds: int, carried: map<Address, U64>,
                              appliedAt: int,
                              lookup: bool, up: bool)
      returns (refused: bool)
      modifies this
      ensures var r := AttemptTx(old(State()), legacy, fees, tx, seconds, carried, appliedAt, lookup, up);
              && (refused <==> r.Refused?)
              && State() == if r.Committed? then r.db else old(State())
    {
      if !LiveShape(fees, tx) {
        return true;
      }
      if lookup && IsApplied(markers, legacy, tx.hash) {
        return false;
      }
      var at := Nanos(seconds);
      var ready := Ready(docs, tx.from.value, tx.to.value, carried, at);
      if ready.None? {
        return true;
      }
      var stage := StageDebit(docs, ready.value, LiveSender(tx), at);
      if stage.None? {
        return true;
      }
      var credits := LiveCredits(fees, tx);
      var paid := CreditStaged(stage.value, credits, at);
      if paid.None? {
        return true;
      }
      var committed := ApplyTxAtomic(paid.value, tx.hash, appliedAt, up);
      return !committed;
    }

    /** Receiver, coinbase side and ZKVM are credited in turn; the first refusal stops. */
    method CreditStaged(stage: Docs, credits: seq<FeeCredit>, at: int) returns (r: Option<Docs>)
      ensures r == StageCredits(docs, stage, credits, at)
    {
      r := Some(stage);
      for i := 0 to |credits|
        invariant r.Some? && r == StageCredits(docs, stage, credits[..i], at)
      {
        assert credits[..i + 1][..i] == credits[..i];
        var next := StageCredit(docs, r.value, credits[i], at);
        if next.None? {
          RefusalStays(docs, stage, credits, i + 1, at);
          return None;
        }
        r := next;
      }
      assert credits[..|credits|] == credits;
    }

    /** `RevokeTxProcessedMarkers`: chunk after chunk, until `ok` ExecAlls have gone through. */
    method RevokeTxProcessedMarkers(txHashes: seq<Hash>, ok: nat) returns (complete: bool, n: nat)
      modifies this`markers
      ensures n <= |txHashes| && markers == Mark(old(markers), txHashes[..n], REVOKED)
      ensures complete <==> n == |txHashes|
      ensures n == Min(|txHashes|, 500 * ok)
    {
      var i, chunk := 0, 0;
      MarkNothing(markers, REVOKED);
      while i < |txHashes|
        invariant 0 <= i <= |txHashes|
        invariant markers == Mark(old(markers), txHashes[..i], REVOKED)
        invariant chunk <= ok && i == Min(|txHashes|, REVOKE_CHUNK * chunk)
      {
        if chunk == ok {
          return false, i;
        }
        var end := if i + REVOKE_CHUNK > |txHashes| then |txHashes| else i + REVOKE_CHUNK;
        assert txHashes[..end] == txHashes[..i] + txHashes[i..end];
        MarkTwice(old(markers), txHashes[..i], txHashes[i..end], REVOKED);
        markers := Mark(markers, txHashes[i..end], REVOKED);
        i, chunk := end, chunk + 1;
      }
      return true, i;
    }
  }

  lemma MarkNothing(markers: MarkerDb, value: int)
    ensures Mark(markers, [], value) == markers
  {}

  lemma MarkTwice(markers: MarkerDb, a: seq<Hash>, b: seq<Hash>, value: int)
    ensures Mark(Mark(markers, a, value), b, value) == Mark(markers, a + b, value)
  {}

  /** The documents one group writes, account by account in map order; None at the first
      stored balance that cannot be read. */
  method BuildDocs(docs: Docs, deltas: DeltaMap, at: int) returns (ops: Option<Docs>)
    ensures ops.Some? <==> AllReadable(docs, deltas)
    ensures ops.Some? ==> docs + ops.value == WriteDeltas(docs, deltas, at)
  {
    var built: Docs := map[];
    var rest := deltas.Keys;
    while rest != {}
      invariant rest <= deltas.Keys && Built(docs, deltas, at, rest, built)
      decreases rest
    {
      var a :| a in rest;
      if a in docs && !Readable(docs[a].balance) {
        return None;
      }
      BuildOne(docs, deltas, at, rest, built, a);
      built := built[a := ApplyDelta(Lookup(docs, a), a, deltas[a], at)];
      rest := rest - {a};
    }
    BuiltAll(docs, deltas, at, built);
    return Some(built);
  }

  /** `built` holds the new document of every account outside `rest`, all of them readable. */
  ghost predicate Built(docs: Docs, deltas: DeltaMap, at: int, rest: set<Address>, built: Docs) {
    && (forall a :: a in built <==> a in deltas && a !in rest)
    && (forall a :: a in built ==> built[a] == ApplyDelta(Lookup(docs, a), a, deltas[a], at))
    && (forall a :: a in built && a in docs ==> Readable(docs[a].balance))
  }

  lemma BuildOne(docs: Docs, deltas: DeltaMap, at: int, rest: set<Address>, built: Docs, a: Address)
    requires Built(docs, deltas, at, rest, built) && a in deltas && a in rest
    requires a in docs ==> Readable(docs[a].balance)
    ensures Built(docs, deltas, at, rest - {a}, built[a := ApplyDelta(Lookup(docs, a), a, deltas[a], at)])
  {}

  lemma BuiltAll(docs: Docs, deltas: DeltaMap, at: int, built: Docs)
    requires Built(docs, deltas, at, {}, built)
    ensures AllReadable(docs, deltas) && docs + built == WriteDeltas(docs, deltas, at)
  {
    assert built == map a | a in deltas :: ApplyDelta(Lookup(docs, a), a, deltas[a], at);
  }

  lemma HashesMembers(txs: seq<Tx>)
    ensures forall h :: h in Hashes(txs) <==> exists t :: t in txs && t.hash == h
  {
    forall h | h in Hashes(txs) ensures exists t :: t in txs && t.hash == h {
      var k :| 0 <= k < |txs| && Hashes(txs)[k] == h;
      assert txs[k] in txs;
    }
    forall t | t in txs ensures t.hash in Hashes(txs) {
      var k :| 0 <= k < |txs| && txs[k] == t;
      assert Hashes(txs)[k] == t.hash;
    }
  }

  /** Once a credit is refused, the whole list is. */
  lemma {:induction false} RefusalStays(docs: Docs, stage: Docs, cs: seq<FeeCredit>, i: nat, at: int)
    requires i <= |cs| && StageCredits(docs, stage, cs[..i], at).None?
    ensures StageCredits(docs, stage, cs, at).None?
    decreases |cs|
  {
    if i < |cs| {
      assert cs[..|cs| - 1][..i] == cs[..i];
      RefusalStays(docs, stage, cs[..|cs| - 1], i, at);
    } else {
      assert cs[..i] == cs;
    }
  }
}

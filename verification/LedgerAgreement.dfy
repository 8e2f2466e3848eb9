/** Two nodes that have applied the same transactions hold the same accounts, in whatever
    order, grouping or code path they applied them, and the exact cases where they do not. */
module LedgerAgreement {
  import opened Types
  import opened Decimal
  import opened Sums
  import opened Fees
  import opened Deltas
  import opened Partition
  import opened Markers
  import opened Ledger
  import opened LedgerMeaning
  import opened LedgerRuns

  /** What DB_OPs/state_fingerprint.go hashes of an account, besides its address. */
  datatype Row = Row(balance: string, txNonce: U64, txCountSent: nat)

  function RowOf(docs: Docs, x: Address): Option<Row> {
    if x !in docs then None
    else
      var doc := docs[x];
      Some(Row(if doc.balance == "" then "0" else doc.balance, doc.txNonce, doc.txCountSent))
  }

  lemma SameHashesSameLog(chain: Hash -> Effect, a: seq<Effect>, b: seq<Effect>)
    requires LogOn(chain, a) && LogOn(chain, b)
    requires forall i, j :: 0 <= i < j < |a| ==> a[i].hash != a[j].hash
    requires forall i, j :: 0 <= i < j < |b| ==> b[i].hash != b[j].hash
    requires forall h: Hash :: Logged(a, h) <==> Logged(b, h)
    ensures multiset(a) == multiset(b)
  {
    forall e | e in a ensures e in b { assert Logged(a, e.hash); }
    forall e | e in b ensures e in a { assert Logged(b, e.hash); }
    SameElementsSameMultiset(a, b);
  }

  /** A transaction applied since `base` touches `x`. */
  ghost predicate TouchedSince(base: Db, legacy: MarkerDb, chain: Hash -> Effect, markers: MarkerDb, x: Address) {
    exists h: Hash :: NewlyApplied(base, legacy, markers, h) && x in Touched(chain(h))
  }

  lemma TouchedByApplied(base: Db, legacy: MarkerDb, chain: Hash -> Effect, log: seq<Effect>, markers: MarkerDb,
                         x: Address)
    requires MarksExactly(base.markers, legacy, log, markers) && LogOn(chain, log)
    ensures x in TouchedBy(log) <==> TouchedSince(base, legacy, chain, markers, x)
  {
    if x in TouchedBy(log) {
      var e :| e in log && x in Touched(e);
      assert Logged(log, e.hash) && NewlyApplied(base, legacy, markers, e.hash);
    }
    if TouchedSince(base, legacy, chain, markers, x) {
      var h: Hash :| NewlyApplied(base, legacy, markers, h) && x in Touched(chain(h));
      var e :| e in log && e.hash == h;
    }
  }

  /** A balance is stored as the node writes it: empty, or in plain decimal. */
  predicate PlainText(docs: Docs, x: Address) {
    x in docs ==> docs[x].balance == "" || docs[x].balance == Format(Amount(docs[x].balance))
  }

  /** The accounts depend only on which transactions were applied, and the rows of the state
      fingerprint agree exactly where both sides have opened the account or neither has. */
  lemma SameAppliedSameAccounts(base: Db, legacy: MarkerDb, chain: Hash -> Effect,
                                a: seq<Effect>, sa: Slack, da: Db,
                                b: seq<Effect>, sb: Slack, db: Db, x: Address)
    requires ExactlyOnce(base, legacy, a, sa, da) && ExactlyOnce(base, legacy, b, sb, db)
    requires LogOn(chain, a) && LogOn(chain, b)
    requires forall h: Hash :: IsApplied(da.markers, legacy, h) <==> IsApplied(db.markers, legacy, h)
    ensures BalanceOf(da.docs, x) == BalanceOf(db.docs, x) && SentOf(da.docs, x) == SentOf(db.docs, x)
    ensures x !in sa.wrapped + sb.wrapped ==> NonceOf(da.docs, x) == NonceOf(db.docs, x)
    ensures x !in sa.wrapped + sb.wrapped && PlainText(base.docs, x) ==>
              (RowOf(da.docs, x) == RowOf(db.docs, x)
               <==> x in base.docs || TouchedSince(base, legacy, chain, da.markers, x)
                    || (x in sa.created <==> x in sb.created))
    ensures sa == sb && sa.wrapped == {} ==> RowOf(da.docs, x) == RowOf(db.docs, x)
  {
    forall h: Hash ensures Logged(a, h) <==> Logged(b, h) {
      assert IsApplied(da.markers, legacy, h) <==> IsApplied(db.markers, legacy, h);
    }
    SameHashesSameLog(chain, a, b);
    EffectsPermute(a, b, x);
    TouchedByApplied(base, legacy, chain, a, da.markers, x);
    assert Moves(base.docs, a, sa, da.docs, x);
    assert Moves(base.docs, b, sb, db.docs, x);
    RowsExactly(base.docs, a, sa, da.docs, b, sb, db.docs, x);
  }

  lemma RowsExactly(base: Docs, a: seq<Effect>, sa: Slack, da: Docs, b: seq<Effect>, sb: Slack, db: Docs, x: Address)
    requires Moves(base, a, sa, da, x) && Moves(base, b, sb, db, x)
    requires TouchedBy(a) == TouchedBy(b) && BalanceSum(a, x) == BalanceSum(b, x) && SentSum(a, x) == SentSum(b, x)
    requires NonceMax(a, x) == NonceMax(b, x)
    ensures x !in sa.wrapped + sb.wrapped && PlainText(base, x) ==>
              (RowOf(da, x) == RowOf(db, x) <==> x in base || x in TouchedBy(a)
                                                 || (x in sa.created <==> x in sb.created))
    ensures sa == sb && sa.wrapped == {} ==> RowOf(da, x) == RowOf(db, x)
  {
    assert Format(0) == "0";
    if x !in TouchedBy(a) {
      UntouchedUnchanged(a, x);
    }
  }

  /** Order independence over whole runs: two runs of any steps, live and reconciled, that end with
      the same transactions applied agree on every balance and count, and on every nonce that no
      live commit wrapped. They agree on a row of the state fingerprint exactly when the account
      was there, or an applied transaction touches it, or live commits of both runs name it as
      receiver or of neither. */
  lemma RunsAgree(base: Db, legacy: MarkerDb, chain: Hash -> Effect, a: seq<Step>, b: seq<Step>, x: Address)
    requires Keyed(base.docs)
    requires forall s :: s in a + b ==> Sound(s) && On(chain, s)
    requires forall h: Hash :: IsApplied(Run(base, legacy, a).markers, legacy, h)
                               <==> IsApplied(Run(base, legacy, b).markers, legacy, h)
    ensures var (da, db) := (Run(base, legacy, a).docs, Run(base, legacy, b).docs);
            var (sa, sb) := (RunSlack(base, legacy, a), RunSlack(base, legacy, b));
            && BalanceOf(da, x) == BalanceOf(db, x) && SentOf(da, x) == SentOf(db, x)
            && (x !in sa.wrapped + sb.wrapped ==> NonceOf(da, x) == NonceOf(db, x))
            && (x !in sa.wrapped + sb.wrapped && PlainText(base.docs, x) ==>
                  (RowOf(da, x) == RowOf(db, x)
                   <==> x in base.docs || TouchedSince(base, legacy, chain, Run(base, legacy, a).markers, x)
                        || (x in sa.created <==> x in sb.created)))
            && (sa == sb && sa.wrapped == {} ==> RowOf(da, x) == RowOf(db, x))
  {
    assert forall s :: s in a ==> s in a + b;
    assert forall s :: s in b ==> s in a + b;
    var la := LedgerInvariant(base, legacy, a, chain);
    var lb := LedgerInvariant(base, legacy, b, chain);
    SameAppliedSameAccounts(base, legacy, chain, la, RunSlack(base, legacy, a), Run(base, legacy, a),
                            lb, RunSlack(base, legacy, b), Run(base, legacy, b), x);
  }

  /** A live step that cannot part the paths: its nonce leaves room for one more, and its receiver
      exists already or is touched by the transaction itself. */
  predicate Harmless(base: Docs, s: Step) {
    s.Live? && s.tx.to.Some? ==>
      s.tx.nonce < MAX_U64 && (s.tx.to.value in base || s.tx.to.value in Touched(EffectOf(s.fees, s.tx)))
  }

  /** What a live commit names has been touched by an applied transaction, or was there. */
  lemma {:induction false} HarmlessSlack(base: Db, legacy: MarkerDb, chain: Hash -> Effect, steps: seq<Step>,
                                         x: Address)
    requires Keyed(base.docs) && forall s :: s in steps ==> Sound(s) && On(chain, s) && Harmless(base.docs, s)
    ensures RunSlack(base, legacy, steps).wrapped == {}
    ensures x in RunSlack(base, legacy, steps).created ==>
              x in base.docs || TouchedSince(base, legacy, chain, Run(base, legacy, steps).markers, x)
  {
    if steps != [] {
      var front, last := steps[..|steps| - 1], steps[|steps| - 1];
      assert forall s :: s in steps <==> s in front || s == last;
      HarmlessSlack(base, legacy, chain, front, x);
      var mid := Run(base, legacy, front);
      var l1 := LedgerInvariant(base, legacy, front, chain);
      var l2 := StepOnce(mid, legacy, last, chain);
      HarmlessKeepsNonce(base.docs, mid, legacy, last);
      if TouchedSince(base, legacy, chain, mid.markers, x) {
        TouchedGrows(base, legacy, chain, mid.markers, l2, Exec(mid, legacy, last).markers, x);
      }
      if x in StepSlack(mid, legacy, last).created && x !in base.docs {
        HarmlessStep(base, legacy, chain, mid, l1, last, x);
      }
    }
  }

  lemma TouchedGrows(base: Db, legacy: MarkerDb, chain: Hash -> Effect, mid: MarkerDb, log: seq<Effect>,
                     after: MarkerDb, x: Address)
    requires MarksExactly(mid, legacy, log, after) && TouchedSince(base, legacy, chain, mid, x)
    ensures TouchedSince(base, legacy, chain, after, x)
  {
    var h: Hash :| NewlyApplied(base, legacy, mid, h) && x in Touched(chain(h));
    assert NewlyApplied(base, legacy, after, h);
  }

  /** A receiver that a harmless live commit names is touched by the transaction it marks. */
  lemma HarmlessStep(base: Db, legacy: MarkerDb, chain: Hash -> Effect, mid: Db, log: seq<Effect>, step: Step,
                     x: Address)
    requires Sound(step) && On(chain, step) && Harmless(base.docs, step)
    requires MarksExactly(base.markers, legacy, log, mid.markers)
    requires x in StepSlack(mid, legacy, step).created && x !in base.docs
    ensures TouchedSince(base, legacy, chain, Exec(mid, legacy, step).markers, x)
  {
    LiveMarks(mid, legacy, step);
    assert NewlyApplied(base, legacy, Exec(mid, legacy, step).markers, step.tx.hash);
  }

  lemma HarmlessKeepsNonce(base: Docs, db: Db, legacy: MarkerDb, step: Step)
    requires Harmless(base, step)
    ensures StepSlack(db, legacy, step).wrapped == {}
  {}

  lemma LiveMarks(db: Db, legacy: MarkerDb, step: Step)
    requires step.Live? && StepSlack(db, legacy, step) != TIGHT && Sound(step)
    ensures !IsApplied(db.markers, legacy, step.tx.hash)
    ensures IsApplied(Exec(db, legacy, step).markers, legacy, step.tx.hash)
  {
    MarkReads(db.markers, legacy, [step.tx.hash], step.liveAt, step.tx.hash);
  }

  /** So runs of harmless steps agree on every row, however live execution and reconciliation mix. */
  lemma MixedRunsAgree(base: Db, legacy: MarkerDb, chain: Hash -> Effect, a: seq<Step>, b: seq<Step>, x: Address)
    requires Keyed(base.docs) && PlainText(base.docs, x)
    requires forall s :: s in a + b ==> Sound(s) && On(chain, s) && Harmless(base.docs, s)
    requires forall h: Hash :: IsApplied(Run(base, legacy, a).markers, legacy, h)
                               <==> IsApplied(Run(base, legacy, b).markers, legacy, h)
    ensures RowOf(Run(base, legacy, a).docs, x) == RowOf(Run(base, legacy, b).docs, x)
  {
    assert forall s :: s in a ==> s in a + b;
    assert forall s :: s in b ==> s in a + b;
    RunsAgree(base, legacy, chain, a, b, x);
    HarmlessSlack(base, legacy, chain, a, x);
    HarmlessSlack(base, legacy, chain, b, x);
    if TouchedSince(base, legacy, chain, Run(base, legacy, b).markers, x) {
      var h: Hash :| NewlyApplied(base, legacy, Run(base, legacy, b).markers, h) && x in Touched(chain(h));
      assert NewlyApplied(base, legacy, Run(base, legacy, a).markers, h);
    }
  }

  /** Grouping independence inside a block: committing the outstanding transactions in any two
      groupings, one transaction per group among them, gives the same accounts. */
  lemma GroupingsAgree(db: Db, legacy: MarkerDb, blk: Block, p: seq<seq<Hash>>, q: seq<seq<Hash>>, m: nat, n: nat,
                       at: int, x: Address)
    requires Keyed(db.docs) && DistinctHashes(blk.txs) && Clock(at)
    requires Outstanding(db, legacy, blk, Flatten(p)) && Outstanding(db, legacy, blk, Flatten(q))
    requires forall h :: h in Flatten(p) <==> h in Flatten(q)
    requires CommitGroups(db, blk, p, m, at).1 && CommitGroups(db, blk, q, n, at).1
    ensures RowOf(CommitGroups(db, blk, p, m, at).0.docs, x) == RowOf(CommitGroups(db, blk, q, n, at).0.docs, x)
  {
    var a := GroupsOnce(db, legacy, blk, p, m, at);
    var b := GroupsOnce(db, legacy, blk, q, n, at);
    var chain := BlockChain(blk);
    BlockChainKnows(blk, a);
    BlockChainKnows(blk, b);
    SameAppliedSameAccounts(db, legacy, chain, a, TIGHT, CommitGroups(db, blk, p, m, at).0,
                            b, TIGHT, CommitGroups(db, blk, q, n, at).0, x);
  }

  function Find(fees: FeeTargets, txs: seq<Tx>, h: Hash): Effect {
    if txs == [] then Effect(h, None, [])
    else if txs[|txs| - 1].hash == h then EffectOf(fees, txs[|txs| - 1])
    else Find(fees, txs[..|txs| - 1], h)
  }

  function BlockChain(blk: Block): Hash -> Effect {
    (h: Hash) => Find(blk.fees, blk.txs, h)
  }

  lemma {:induction false} FindFinds(fees: FeeTargets, txs: seq<Tx>, t: Tx)
    requires DistinctHashes(txs) && t in txs
    ensures Find(fees, txs, t.hash) == EffectOf(fees, t)
  {
    var n := |txs| - 1;
    var k :| 0 <= k < |txs| && txs[k] == t;
    if k != n {
      assert txs[..n][k] == t;
      FindFinds(fees, txs[..n], t);
    }
  }

  lemma BlockChainKnows(blk: Block, log: seq<Effect>)
    requires DistinctHashes(blk.txs) && FromBlock(blk, log)
    ensures LogOn(BlockChain(blk), log)
  {
    forall e | e in log ensures e == BlockChain(blk)(e.hash) {
      var t :| t in blk.txs && e == EffectOf(blk.fees, t);
      FindFinds(blk.fees, blk.txs, t);
    }
  }

  // ----- Where the two code paths part -----

  /** One transaction committed by reconciliation alone. */
  function ReconAlone(db: Db, fees: FeeTargets, tx: Tx, seconds: int, at: int): Option<Db> {
    CommitGroup(db, Block(0, 0, seconds, [], 0, fees, [tx]), [tx.hash], at)
  }

  lemma GroupOfOne(tx: Tx)
    ensures InGroup([tx], [tx.hash]) == [tx]
  {
    var skip := set t | t in [tx] && t.hash !in [tx.hash] :: t.hash;
    assert [tx][..0] == [];
    assert Kept([], skip) == [];
    assert tx.hash !in skip;
  }

  lemma ReconAloneAdvances(db: Db, fees: FeeTargets, tx: Tx, seconds: int, at: int)
    requires ReconAlone(db, fees, tx, seconds, at).Some?
    ensures Advances(db.docs, [EffectOf(fees, tx)], TIGHT, ReconAlone(db, fees, tx, seconds, at).value.docs)
  {
    GroupAdvances(db, Block(0, 0, seconds, [], 0, fees, [tx]), [tx.hash], at);
    GroupOfOne(tx);
    assert EffectsOf(fees, [tx]) == [EffectOf(fees, tx)];
  }

  /** Live execution opens the receiver's account even when nothing is sent to it, and
      reconciliation does not. So the two paths leave the same set of accounts exactly when
      the receiver already had one or the transaction touches it in some other way. */
  lemma SameAccountSetExactly(db: Db, legacy: MarkerDb, fees: FeeTargets, tx: Tx, seconds: int,
                              carried: map<Address, U64>, at: int)
    requires Keyed(db.docs)
    requires ProcessTx(db, legacy, fees, tx, seconds, carried, at).Committed?
    requires ReconAlone(db, fees, tx, seconds, at).Some?
    ensures ProcessTx(db, legacy, fees, tx, seconds, carried, at).db.docs.Keys
            == ReconAlone(db, fees, tx, seconds, at).value.docs.Keys
            <==> tx.to.value in db.docs || tx.to.value in Touched(EffectOf(fees, tx))
  {
    LiveAdvances(db, legacy, fees, tx, seconds, carried, at);
    ReconAloneAdvances(db, fees, tx, seconds, at);
    AccountSets(db.docs, EffectOf(fees, tx), tx.to.value, LiveSlack(tx),
                ProcessTx(db, legacy, fees, tx, seconds, carried, at).db.docs,
                ReconAlone(db, fees, tx, seconds, at).value.docs);
  }

  lemma AccountSets(before: Docs, e: Effect, to: Address, slack: Slack, live: Docs, recon: Docs)
    requires slack.created == {to} && Advances(before, [e], slack, live) && Advances(before, [e], TIGHT, recon)
    ensures live.Keys == recon.Keys <==> to in before || to in Touched(e)
  {
    OneEffect(e, to);
    forall x: Address
      ensures (x in live <==> x in recon || x == to) && (x in recon <==> x in before || x in Touched(e))
    {
      assert Moves(before, [e], slack, live, x) && Moves(before, [e], TIGHT, recon, x);
    }
  }

  /** A receiver of value is always touched, so only transfers of nothing can part the paths. */
  lemma ValueOpensOnBothPaths(fees: FeeTargets, tx: Tx)
    requires tx.to.Some? && Moved(tx) > 0
    ensures tx.to.value in Touched(EffectOf(fees, tx))
  {
    var c := FeeCredit(tx.to.value, Moved(tx));
    assert EffectOf(fees, tx).credits[0] == c;
  }

  /** Both paths store the same sender nonce exactly when the nonce leaves room for one more,
      or the account had none: at 2^64 - 1 live execution wraps to zero. */
  lemma SameNonceExactly(db: Db, legacy: MarkerDb, fees: FeeTargets, tx: Tx, seconds: int, carried: map<Address, U64>,
                         at: int)
    requires Keyed(db.docs)
    requires ProcessTx(db, legacy, fees, tx, seconds, carried, at).Committed?
    requires ReconAlone(db, fees, tx, seconds, at).Some?
    ensures NonceOf(ProcessTx(db, legacy, fees, tx, seconds, carried, at).db.docs, tx.from.value)
            == NonceOf(ReconAlone(db, fees, tx, seconds, at).value.docs, tx.from.value)
            <==> tx.nonce < MAX_U64 || NonceOf(db.docs, tx.from.value) == 0
  {
    LivePays(db.docs, fees, tx, carried, Nanos(seconds), tx.from.value);
    LiveSenderAgrees(fees, tx);
    ReconAloneAdvances(db, fees, tx, seconds, at);
    NonceCases(db.docs, EffectOf(fees, tx), LiveCredits(fees, tx), tx.to.value,
               ProcessTx(db, legacy, fees, tx, seconds, carried, at).db.docs,
               ReconAlone(db, fees, tx, seconds, at).value.docs);
  }

  lemma NonceCases(before: Docs, e: Effect, cs: seq<FeeCredit>, to: Address, live: Docs, recon: Docs)
    requires e.sender.Some? && Paid(before, e.sender.value, cs, to, live, e.sender.value.addr)
    requires Advances(before, [e], TIGHT, recon)
    ensures var s := e.sender.value;
            NonceOf(live, s.addr) == NonceOf(recon, s.addr) <==> s.nonce < MAX_U64 || NonceOf(before, s.addr) == 0
  {
    var x := e.sender.value.addr;
    OneEffect(e, x);
    assert Moves(before, [e], TIGHT, recon, x);
  }

  /** One marker stands for one effect exactly when the block repeats no hash: a repeated
      hash makes its group apply both transactions under the one marker. */
  lemma OneEffectPerMarkerExactly(txs: seq<Tx>)
    ensures DistinctHashes(txs) <==> forall t :: t in txs ==> |InGroup(txs, [t.hash])| == 1
  {
    if DistinctHashes(txs) {
      forall t | t in txs ensures |InGroup(txs, [t.hash])| == 1 {
        var g := InGroup(txs, [t.hash]);
        KeptDistinct(txs, (set u | u in txs && u.hash !in [t.hash] :: u.hash));
        assert t in g;
        if |g| > 1 {
          SameHashRepeats(g, t.hash);
        }
      }
    } else {
      var i, j :| 0 <= i < j < |txs| && txs[i].hash == txs[j].hash;
      KeptCounts(txs, (set u | u in txs && u.hash !in [txs[i].hash] :: u.hash), i, j);
      assert txs[i] in txs;
    }
  }

  lemma SameHashRepeats(g: seq<Tx>, h: Hash)
    requires |g| > 1 && forall u :: u in g ==> u.hash == h
    ensures !DistinctHashes(g)
  {
    assert g[0] in g && g[1] in g;
  }

  lemma {:induction false} KeptCounts(txs: seq<Tx>, skip: set<Hash>, i: nat, j: nat)
    requires i < j < |txs| && txs[i].hash !in skip && txs[j].hash !in skip
    ensures |Kept(txs, skip)| >= 2
  {
    var n := |txs| - 1;
    if j < n {
      KeptCounts(txs[..n], skip, i, j);
    } else {
      assert txs[..n][i] in Kept(txs[..n], skip);
    }
  }

  // ----- Repeated hashes -----

  /** The transactions whose deltas the groups write, group after group. */
  function GroupsTxs(blk: Block, groups: seq<seq<Hash>>): seq<Tx> {
    if groups == [] then [] else InGroup(blk.txs, groups[0]) + GroupsTxs(blk, groups[1..])
  }

  /** What the groups do, group after group. */
  function GroupsLog(blk: Block, groups: seq<seq<Hash>>): seq<Effect> {
    if groups == [] then [] else EffectsOf(blk.fees, InGroup(blk.txs, groups[0])) + GroupsLog(blk, groups[1..])
  }

  lemma EffectsJoin(fees: FeeTargets, a: seq<Tx>, b: seq<Tx>)
    ensures EffectsOf(fees, a + b) == EffectsOf(fees, a) + EffectsOf(fees, b)
  {}

  lemma {:induction false} GroupsLogIsTxs(blk: Block, groups: seq<seq<Hash>>)
    ensures GroupsLog(blk, groups) == EffectsOf(blk.fees, GroupsTxs(blk, groups))
  {
    if groups != [] {
      GroupsLogIsTxs(blk, groups[1..]);
      EffectsJoin(blk.fees, InGroup(blk.txs, groups[0]), GroupsTxs(blk, groups[1..]));
    }
  }

  /** The accounts before, between and after the groups: each group moves them by its own effects. */
  ghost predicate Path(blk: Block, groups: seq<seq<Hash>>, path: seq<Docs>) {
    |path| == |groups| + 1
    && forall i :: 0 <= i < |groups| ==> GroupMoves(blk, groups[i], path[i], path[i + 1])
  }

  ghost predicate GroupMoves(blk: Block, g: seq<Hash>, before: Docs, after: Docs) {
    Advances(before, EffectsOf(blk.fees, InGroup(blk.txs, g)), TIGHT, after)
  }

  lemma GroupsPath(db: Db, blk: Block, groups: seq<seq<Hash>>, ok: nat, at: int, end: Db) returns (path: seq<Docs>)
    requires GroupsLead(db, blk, groups, 0, ok, at, (end, true))
    ensures Path(blk, groups, path) && path[0] == db.docs && path[|groups|] == end.docs
  {
    var cur, i := db, 0;
    path := [db.docs];
    while i < |groups|
      invariant GroupsLead(cur, blk, groups, i, ok, at, (end, true))
      invariant Path(blk, groups[..i], path) && path[0] == db.docs && path[i] == cur.docs
    {
      cur := NextCommit(cur, blk, groups, i, ok, at, end);
      PathSnoc(blk, groups, i, path, cur.docs);
      path, i := path + [cur.docs], i + 1;
    }
    assert groups[..i] == groups;
  }

  lemma PathSnoc(blk: Block, groups: seq<seq<Hash>>, i: nat, path: seq<Docs>, next: Docs)
    requires i < |groups| && Path(blk, groups[..i], path) && GroupMoves(blk, groups[i], path[i], next)
    ensures Path(blk, groups[..i + 1], path + [next])
  {
    var all := path + [next];
    forall k | 0 <= k < i + 1 ensures GroupMoves(blk, groups[..i + 1][k], all[k], all[k + 1]) {
      if k < i {
        assert GroupMoves(blk, groups[..i][k], path[k], path[k + 1]);
      }
    }
  }

  lemma NextCommit(db: Db, blk: Block, groups: seq<seq<Hash>>, i: nat, ok: nat, at: int, end: Db) returns (next: Db)
    requires i < |groups| && GroupsLead(db, blk, groups, i, ok, at, (end, true))
    ensures GroupsLead(next, blk, groups, i + 1, ok, at, (end, true)) && GroupMoves(blk, groups[i], db.docs, next.docs)
  {
    GroupsUnfold(db, blk, groups, i, ok, at, (end, true));
    next := CommitGroup(db, blk, groups[i], at).value;
    GroupAdvances(db, blk, groups[i], at);
  }

  lemma {:induction false} PathAdvances(blk: Block, groups: seq<seq<Hash>>, path: seq<Docs>)
    requires Path(blk, groups, path)
    ensures Advances(path[0], GroupsLog(blk, groups), TIGHT, path[|groups|])
  {
    if groups == [] {
      AdvancesNothing(path[0]);
    } else {
      assert GroupMoves(blk, groups[0], path[0], path[1]);
      forall i | 0 <= i < |groups[1..]| ensures GroupMoves(blk, groups[1..][i], path[1..][i], path[1..][i + 1]) {
        assert GroupMoves(blk, groups[i + 1], path[i + 1], path[i + 2]);
      }
      PathAdvances(blk, groups[1..], path[1..]);
      TightConcat(path[0], EffectsOf(blk.fees, InGroup(blk.txs, groups[0])), path[1], GroupsLog(blk, groups[1..]),
                  path[|groups|]);
    }
  }

  /** Whatever hashes a block repeats, reconciling it moves the accounts by the effects of these
      transactions, in this multiplicity. */
  lemma GroupsApply(db: Db, blk: Block, groups: seq<seq<Hash>>, ok: nat, at: int, end: Db)
    requires CommitGroups(db, blk, groups, ok, at) == (end, true)
    ensures Advances(db.docs, GroupsLog(blk, groups), TIGHT, end.docs)
  {
    assert groups[0..] == groups;
    var path := GroupsPath(db, blk, groups, ok, at, end);
    PathAdvances(blk, groups, path);
  }

  lemma TightConcat(d0: Docs, a: seq<Effect>, d1: Docs, b: seq<Effect>, d2: Docs)
    requires Advances(d0, a, TIGHT, d1) && Advances(d1, b, TIGHT, d2)
    ensures Advances(d0, a + b, TIGHT, d2)
  {
    AdvancesConcat(d0, a, TIGHT, d1, b, TIGHT, d2);
    assert Join(TIGHT, TIGHT) == TIGHT;
  }

  /** How many groups hold a hash. */
  function Holding(groups: seq<seq<Hash>>, h: Hash): nat {
    if groups == [] then 0 else (if h in groups[0] then 1 else 0) + Holding(groups[1..], h)
  }

  lemma {:induction false} KeptMultiset(txs: seq<Tx>, skip: set<Hash>, t: Tx)
    ensures multiset(Kept(txs, skip))[t] == if t.hash in skip then 0 else multiset(txs)[t]
  {
    if txs != [] {
      var n := |txs| - 1;
      KeptMultiset(txs[..n], skip, t);
      assert txs == txs[..n] + [txs[n]];
    }
  }

  lemma InGroupMultiset(txs: seq<Tx>, g: seq<Hash>, t: Tx)
    requires t in txs
    ensures multiset(InGroup(txs, g))[t] == if t.hash in g then multiset(txs)[t] else 0
  {
    KeptMultiset(txs, (set u | u in txs && u.hash !in g :: u.hash), t);
  }

  function Copies(k: nat, m: nat): nat { if k == 0 then 0 else Copies(k - 1, m) + m }

  lemma {:induction false} CopiesGrow(k: nat, m: nat)
    requires k >= 1
    ensures Copies(k, m) >= m && (k >= 2 ==> Copies(k, m) >= m + m)
  {
    if k >= 2 {
      CopiesGrow(k - 1, m);
    }
  }

  lemma JoinedMultiset(a: seq<Tx>, b: seq<Tx>, t: Tx)
    ensures multiset(a + b)[t] == multiset(a)[t] + multiset(b)[t]
  {}

  /** A transaction is applied once for every group that holds its hash. */
  lemma {:induction false} AppliedPerGroup(blk: Block, groups: seq<seq<Hash>>, t: Tx)
    requires t in blk.txs
    ensures multiset(GroupsTxs(blk, groups))[t] == Copies(Holding(groups, t.hash), multiset(blk.txs)[t])
  {
    if groups != [] {
      AppliedPerGroup(blk, groups[1..], t);
      InGroupMultiset(blk.txs, groups[0], t);
      JoinedMultiset(InGroup(blk.txs, groups[0]), GroupsTxs(blk, groups[1..]), t);
    }
  }

  /** So a reconciled block applies each of its pending transactions once if and only if no hash
      went into two groups. Distinct hashes are enough; a repeated hash that the budget separates
      applies all its transactions once more for every further group. */
  lemma AppliedOnceExactly(blk: Block, pending: set<Hash>, budget: int, t: Tx)
    requires t in blk.txs && t.hash in pending
    ensures multiset(GroupsTxs(blk, Groups(blk, pending, budget)))[t] == multiset(blk.txs)[t]
            <==> Holding(Groups(blk, pending, budget), t.hash) == 1
    ensures Holding(Groups(blk, pending, budget), t.hash) >= 1
  {
    var groups := Groups(blk, pending, budget);
    PartitionMembers(blk, pending, budget);
    var g :| g in groups && t.hash in g;
    HeldOnce(groups, g, t.hash);
    OnceExactly(blk, groups, t);
  }

  lemma OnceExactly(blk: Block, groups: seq<seq<Hash>>, t: Tx)
    requires t in blk.txs && Holding(groups, t.hash) >= 1
    ensures multiset(GroupsTxs(blk, groups))[t] == multiset(blk.txs)[t] <==> Holding(groups, t.hash) == 1
  {
    AppliedPerGroup(blk, groups, t);
    assert t in multiset(blk.txs);
    CopiesGrow(Holding(groups, t.hash), multiset(blk.txs)[t]);
    assert Copies(0, multiset(blk.txs)[t]) == 0;
  }

  lemma {:induction false} HeldOnce(groups: seq<seq<Hash>>, g: seq<Hash>, h: Hash)
    requires g in groups && h in g
    ensures Holding(groups, h) >= 1
  {
    if g != groups[0] {
      assert g in groups[1..];
      HeldOnce(groups[1..], g, h);
    }
  }

  /** A block that lists two transactions under one hash and reconciles them in one group pays for
      both, under one marker; live execution pays for the first and skips the second. */
  lemma RepeatedHashPaysTwice(db: Db, legacy: MarkerDb, blk: Block, t: Tx, u: Tx, ok: nat, at: int, x: Address)
    requires blk.txs == [t, u] && t.hash == u.hash && !IsApplied(db.markers, legacy, t.hash)
    requires Groups(blk, Pending(db, legacy, blk), GROUP_BUDGET) == [[t.hash, t.hash]]
    requires ApplyRecon(db, legacy, blk, None, ok, at).1
    ensures BalanceOf(ApplyRecon(db, legacy, blk, None, ok, at).0.docs, x)
            == BalanceOf(db.docs, x) + BalanceOn(x)(EffectOf(blk.fees, t)) + BalanceOn(x)(EffectOf(blk.fees, u))
  {
    var groups := [[t.hash, t.hash]];
    GroupsApply(db, blk, groups, ok, at, ApplyRecon(db, legacy, blk, None, ok, at).0);
    PairTxs(blk, t, u);
    GroupsLogIsTxs(blk, groups);
    PairMoves(db.docs, blk.fees, t, u, ApplyRecon(db, legacy, blk, None, ok, at).0.docs, x);
  }

  lemma PairMoves(before: Docs, fees: FeeTargets, t: Tx, u: Tx, after: Docs, x: Address)
    requires Advances(before, EffectsOf(fees, [t, u]), TIGHT, after)
    ensures BalanceOf(after, x)
            == BalanceOf(before, x) + BalanceOn(x)(EffectOf(fees, t)) + BalanceOn(x)(EffectOf(fees, u))
  {
    var d, e := EffectOf(fees, t), EffectOf(fees, u);
    assert EffectsOf(fees, [t, u]) == [d] + [e];
    assert Moves(before, [d] + [e], TIGHT, after, x);
    EffectsConcat([d], [e], x);
    OneEffect(d, x);
    OneEffect(e, x);
  }

  lemma PairTxs(blk: Block, t: Tx, u: Tx)
    requires blk.txs == [t, u] && t.hash == u.hash
    ensures GroupsTxs(blk, [[t.hash, t.hash]]) == [t, u]
  {
    var g := [t.hash, t.hash];
    var skip := set v | v in blk.txs && v.hash !in g :: v.hash;
    assert g[0] == t.hash;
    assert skip == {};
    assert [t, u][..1] == [t] && [t][..0] == [];
    assert Kept([t], skip) == [t];
    var groups := [g];
    assert GroupsTxs(blk, groups[1..]) == [];
  }

  lemma RepeatedHashSkippedLive(db: Db, legacy: MarkerDb, first: Step, second: Step)
    requires first.Live? && second.Live? && first.tx.hash == second.tx.hash && Sound(first)
    requires StepSlack(db, legacy, first) != TIGHT
    ensures Exec(Exec(db, legacy, first), legacy, second) == Exec(db, legacy, first)
  {
    LiveMarks(db, legacy, first);
  }
}

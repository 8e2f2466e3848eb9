/** DB_OPs/account_recon.go, grouping half: a block's pending transactions are cut into
    consecutive groups whose projected commit fits one ExecAll. */
module Partition {
  import opened Types
  import opened Sums
  import opened Fees
  import opened Deltas

  /** `reconGroupOpBudget`. */
  const GROUP_BUDGET: int := 1000

  /** `maxExecAllEntries`: a larger commit is refused outright. */
  const EXEC_ALL_CAP: int := 1024

  function Listed(o: Option<Address>): seq<Address> {
    if o.Some? then [o.value] else []
  }

  function RecipientAddrs(rs: seq<FeeRecipient>): (out: seq<Address>)
    ensures |out| == |rs|
    ensures forall i :: 0 <= i < |rs| ==> out[i] == rs[i].addr
  {
    seq(|rs|, i requires 0 <= i < |rs| => rs[i].addr)
  }

  /** `txTouchedAccounts`: the accounts a transaction may write, with repetitions. */
  function Candidates(fees: FeeTargets, tx: Tx): seq<Address> {
    Listed(tx.from) + Listed(tx.to) + Listed(fees.coinbase) + RecipientAddrs(fees.recipients) + Listed(fees.zkvm)
  }

  function Elements(s: seq<Address>): set<Address> {
    set a | a in s
  }

  function CandidateSet(fees: FeeTargets, tx: Tx): set<Address> {
    Elements(Candidates(fees, tx))
  }

  /** How many candidates are not yet in the group. Repetitions count each time. */
  function NewAccounts(cand: seq<Address>, accounts: set<Address>): nat {
    if cand == [] then 0
    else NewAccounts(cand[..|cand| - 1], accounts) + (if cand[|cand| - 1] in accounts then 0 else 1)
  }

  /** Would taking `tx` push the open group over the budget? */
  predicate Full(fees: FeeTargets, tx: Tx, budget: int, accounts: set<Address>, open: seq<Hash>) {
    |open| > 0 && |accounts| + NewAccounts(Candidates(fees, tx), accounts) + |open| + 1 > budget
  }

  /** The groups still to come when transactions `i..` remain and `open` is being filled. */
  function GroupsFrom(blk: Block, pending: set<Hash>, budget: int, i: nat, accounts: set<Address>, open: seq<Hash>)
    : seq<seq<Hash>>
    requires i <= |blk.txs|
    decreases |blk.txs| - i, |open|
  {
    if i == |blk.txs| then
      if open == [] then [] else [open]
    else
      var tx := blk.txs[i];
      if tx.hash !in pending then GroupsFrom(blk, pending, budget, i + 1, accounts, open)
      else if Full(blk.fees, tx, budget, accounts, open) then
        [open] + GroupsFrom(blk, pending, budget, i, {}, [])
      else
        GroupsFrom(blk, pending, budget, i + 1, accounts + CandidateSet(blk.fees, tx), open + [tx.hash])
  }

  function Groups(blk: Block, pending: set<Hash>, budget: int): seq<seq<Hash>> {
    GroupsFrom(blk, pending, budget, 0, {}, [])
  }

  /** `partitionReconGroups`: nested loops over one shared index. */
  method PartitionReconGroups(blk: Block, pending: set<Hash>, budget: int) returns (groups: seq<seq<Hash>>)
    ensures groups == Groups(blk, pending, budget)
  {
    groups := [];
    var i := 0;
    while i < |blk.txs|
      invariant 0 <= i <= |blk.txs|
      invariant Groups(blk, pending, budget) == groups + GroupsFrom(blk, pending, budget, i, {}, [])
    {
      var open;
      i, open := FillGroup(blk, pending, budget, i);
      Reassociate(groups, Closed(open), GroupsFrom(blk, pending, budget, i, {}, []));
      groups := groups + Closed(open);
    }
    assert groups + [] == groups;
  }

  function Closed(open: seq<Hash>): seq<seq<Hash>> { if |open| > 0 then [open] else [] }

  /** The inner loop: take transactions until the next one would push the group over budget. */
  method FillGroup(blk: Block, pending: set<Hash>, budget: int, start: nat) returns (i: nat, open: seq<Hash>)
    requires start < |blk.txs|
    ensures start < i <= |blk.txs|
    ensures GroupsFrom(blk, pending, budget, start, {}, [])
            == Closed(open) + GroupsFrom(blk, pending, budget, i, {}, [])
  {
    var accounts: set<Address> := {};
    i, open := start, [];
    while i < |blk.txs|
      invariant start <= i <= |blk.txs| && (i == start ==> open == [])
      invariant GroupsFrom(blk, pending, budget, i, accounts, open) == GroupsFrom(blk, pending, budget, start, {}, [])
    {
      var tx := blk.txs[i];
      if tx.hash in pending {
        var cand := Candidates(blk.fees, tx);
        var newAccounts := CountNew(cand, accounts);
        if |open| > 0 && |accounts| + newAccounts + |open| + 1 > budget {
          return;
        }
        accounts := accounts + Elements(cand);
        open := open + [tx.hash];
      }
      i := i + 1;
    }
    assert Closed(open) + [] == Closed(open);
  }

  method CountNew(cand: seq<Address>, accounts: set<Address>) returns (n: nat)
    ensures n == NewAccounts(cand, accounts)
  {
    n := 0;
    for k := 0 to |cand|
      invariant n == NewAccounts(cand[..k], accounts)
    {
      assert cand[..k + 1][..k] == cand[..k];
      if cand[k] !in accounts {
        n := n + 1;
      }
    }
    assert cand[..|cand|] == cand;
  }

  // ----- Nothing lost, nothing repeated, nothing empty -----

  function Flatten(groups: seq<seq<Hash>>): seq<Hash> {
    if groups == [] then [] else groups[0] + Flatten(groups[1..])
  }

  function PendingFrom(txs: seq<Tx>, pending: set<Hash>, i: nat): seq<Hash>
    requires i <= |txs|
    decreases |txs| - i
  {
    if i == |txs| then []
    else (if txs[i].hash in pending then [txs[i].hash] else []) + PendingFrom(txs, pending, i + 1)
  }

  /** The groups, read end to end, are the pending transactions in block order, for any budget. */
  lemma PartitionCoversPending(blk: Block, pending: set<Hash>, budget: int)
    ensures Flatten(Groups(blk, pending, budget)) == PendingFrom(blk.txs, pending, 0)
    ensures forall g :: g in Groups(blk, pending, budget) ==> g != []
  {
    GroupsFlatten(blk, pending, budget, 0, {}, []);
    GroupsNonEmpty(blk, pending, budget, 0, {}, []);
    assert [] + PendingFrom(blk.txs, pending, 0) == PendingFrom(blk.txs, pending, 0);
  }

  lemma LastGroup(open: seq<Hash>)
    ensures Flatten(if open == [] then [] else [open]) == open + []
  {
    assert [open][1..] == [];
  }

  lemma CloseGroup(open: seq<Hash>, rest: seq<seq<Hash>>, tail: seq<Hash>)
    requires Flatten(rest) == [] + tail
    ensures Flatten([open] + rest) == open + tail
  {
    assert ([open] + rest)[1..] == rest;
  }

  lemma {:induction false} GroupsFlatten(blk: Block, pending: set<Hash>, budget: int, i: nat, accounts: set<Address>,
                                         open: seq<Hash>)
    requires i <= |blk.txs|
    ensures Flatten(GroupsFrom(blk, pending, budget, i, accounts, open)) == open + PendingFrom(blk.txs, pending, i)
    decreases |blk.txs| - i, |open|
  {
    if i == |blk.txs| {
      LastGroup(open);
    } else {
      var tx := blk.txs[i];
      if tx.hash !in pending {
        GroupsFlatten(blk, pending, budget, i + 1, accounts, open);
      } else if Full(blk.fees, tx, budget, accounts, open) {
        GroupsFlatten(blk, pending, budget, i, {}, []);
        CloseGroup(open, GroupsFrom(blk, pending, budget, i, {}, []), PendingFrom(blk.txs, pending, i));
      } else {
        GroupsFlatten(blk, pending, budget, i + 1, accounts + CandidateSet(blk.fees, tx), open + [tx.hash]);
        Reassociate(open, [tx.hash], PendingFrom(blk.txs, pending, i + 1));
      }
    }
  }

  lemma {:induction false} GroupsNonEmpty(blk: Block, pending: set<Hash>, budget: int, i: nat, accounts: set<Address>,
                                          open: seq<Hash>)
    requires i <= |blk.txs|
    ensures forall g :: g in GroupsFrom(blk, pending, budget, i, accounts, open) ==> g != []
    decreases |blk.txs| - i, |open|
  {
    if i < |blk.txs| {
      var tx := blk.txs[i];
      if tx.hash !in pending {
        GroupsNonEmpty(blk, pending, budget, i + 1, accounts, open);
      } else if Full(blk.fees, tx, budget, accounts, open) {
        GroupsNonEmpty(blk, pending, budget, i, {}, []);
      } else {
        GroupsNonEmpty(blk, pending, budget, i + 1, accounts + CandidateSet(blk.fees, tx), open + [tx.hash]);
      }
    }
  }

  lemma {:induction false} PendingMembers(txs: seq<Tx>, pending: set<Hash>, i: nat)
    requires i <= |txs|
    ensures forall h :: h in PendingFrom(txs, pending, i)
                        <==> h in pending && exists j :: i <= j < |txs| && txs[j].hash == h
    decreases |txs| - i
  {
    if i < |txs| {
      PendingMembers(txs, pending, i + 1);
    }
  }

  lemma {:induction false} FlattenMembers(groups: seq<seq<Hash>>)
    ensures forall h :: h in Flatten(groups) <==> exists g :: g in groups && h in g
  {
    if groups != [] {
      FlattenMembers(groups[1..]);
      assert forall g :: g in groups <==> g == groups[0] || g in groups[1..];
    }
  }

  lemma PartitionMembers(blk: Block, pending: set<Hash>, budget: int)
    ensures forall g, h :: g in Groups(blk, pending, budget) && h in g ==> h in pending && h in Hashes(blk.txs)
    ensures forall t :: t in blk.txs && t.hash in pending ==>
              exists g :: g in Groups(blk, pending, budget) && t.hash in g
  {
    PartitionCoversPending(blk, pending, budget);
    FlattenMembers(Groups(blk, pending, budget));
    PendingMembers(blk.txs, pending, 0);
    forall g, h | g in Groups(blk, pending, budget) && h in g ensures h in pending && h in Hashes(blk.txs) {
      assert h in Flatten(Groups(blk, pending, budget));
      var j :| 0 <= j < |blk.txs| && blk.txs[j].hash == h;
      assert Hashes(blk.txs)[j] == h;
    }
    forall t | t in blk.txs && t.hash in pending ensures exists g :: g in Groups(blk, pending, budget) && t.hash in g {
      assert t.hash in Flatten(Groups(blk, pending, budget));
    }
  }

  // ----- The commit of a group stays under the ExecAll cap -----

  function InGroup(txs: seq<Tx>, g: seq<Hash>): seq<Tx> {
    Kept(txs, (set t | t in txs && t.hash !in g :: t.hash))
  }

  /** The accounts a group is budgeted for, and those its deltas really contain. */
  function Counted(blk: Block, g: seq<Hash>): set<Address> {
    set t, a | t in blk.txs && t.hash in g && a in Candidates(blk.fees, t) :: a
  }

  function Written(blk: Block, g: seq<Hash>): set<Address> {
    TouchedBy(EffectsOf(blk.fees, InGroup(blk.txs, g)))
  }

  /** `commitReconGroup`'s final size check. */
  predicate FitsExecAll(blk: Block, g: seq<Hash>) {
    |Written(blk, g)| + |g| <= EXEC_ALL_CAP
  }

  lemma TouchedAreCandidates(fees: FeeTargets, tx: Tx)
    ensures Touched(EffectOf(fees, tx)) <= CandidateSet(fees, tx)
  {
    forall a | a in Touched(EffectOf(fees, tx)) ensures a in Candidates(fees, tx) {
      if !(tx.from.Some? && a == tx.from.value) {
        var c :| c in EffectOf(fees, tx).credits && c.addr == a;
        CreditIsCandidate(fees, tx, c);
      }
    }
  }

  lemma CreditIsCandidate(fees: FeeTargets, tx: Tx, c: FeeCredit)
    requires c in ReceiverCredits(tx) + FeeCredits(fees, GasFee(tx))
    ensures c.addr in Candidates(fees, tx)
  {
    if c in CoinbaseSide(fees, GasFee(tx)) {
      CreditsGoToTargets(GasFee(tx), fees.coinbase.value, fees.recipients);
      if c.addr != fees.coinbase.value {
        var k :| 0 <= k < |fees.recipients| && fees.recipients[k].addr == c.addr;
        assert RecipientAddrs(fees.recipients)[k] == c.addr;
      } else {
        assert Listed(fees.coinbase)[0] == c.addr;
      }
    } else if c in ZkvmSide(fees, GasFee(tx)) {
      assert Listed(fees.zkvm)[0] == c.addr;
    } else {
      assert c in ReceiverCredits(tx);
      assert Listed(tx.to)[0] == c.addr;
    }
  }

  lemma WrittenMembers(blk: Block, g: seq<Hash>)
    ensures forall a :: a in Written(blk, g) <==>
              exists t :: t in blk.txs && t.hash in g && a in Touched(EffectOf(blk.fees, t))
  {
    var txs := InGroup(blk.txs, g);
    var log := EffectsOf(blk.fees, txs);
    forall e | e in log ensures exists t :: t in txs && e == EffectOf(blk.fees, t) {
      var k :| 0 <= k < |log| && log[k] == e;
      assert txs[k] in txs;
    }
    forall t | t in txs ensures EffectOf(blk.fees, t) in log {
      var k :| 0 <= k < |txs| && txs[k] == t;
      assert log[k] == EffectOf(blk.fees, t);
    }
    assert forall t :: t in txs <==> t in blk.txs && t.hash in g;
  }

  /** Over-counting is harmless: a group writes only accounts it was budgeted for. */
  lemma WrittenAreCounted(blk: Block, g: seq<Hash>)
    ensures Written(blk, g) <= Counted(blk, g)
  {
    WrittenMembers(blk, g);
    forall a | a in Written(blk, g) ensures a in Counted(blk, g) {
      var t :| t in blk.txs && t.hash in g && a in Touched(EffectOf(blk.fees, t));
      TouchedAreCandidates(blk.fees, t);
    }
  }

  lemma {:induction false} NewAccountsBound(cand: seq<Address>, accounts: set<Address>)
    ensures |accounts + Elements(cand)| <= |accounts| + NewAccounts(cand, accounts)
  {
    if cand == [] {
      assert accounts + Elements(cand) == accounts;
    } else {
      var n := |cand| - 1;
      NewAccountsBound(cand[..n], accounts);
      assert accounts + Elements(cand) == accounts + Elements(cand[..n]) + {cand[n]};
      if cand[n] in accounts {
        assert accounts + Elements(cand) == accounts + Elements(cand[..n]);
      }
    }
  }

  /** A group of more than one transaction respects the budget, counted accounts and markers together. */
  ghost predicate Budgeted(blk: Block, budget: int, g: seq<Hash>) {
    |g| <= 1 || |Counted(blk, g)| + |g| <= budget
  }

  lemma {:induction false} GroupsBudgeted(blk: Block, pending: set<Hash>, budget: int, i: nat, accounts: set<Address>,
                                          open: seq<Hash>)
    requires i <= |blk.txs| && DistinctHashes(blk.txs)
    requires accounts == Counted(blk, open) && Budgeted(blk, budget, open)
    ensures forall g :: g in GroupsFrom(blk, pending, budget, i, accounts, open) ==> Budgeted(blk, budget, g)
    decreases |blk.txs| - i, |open|
  {
    if i < |blk.txs| {
      var tx := blk.txs[i];
      if tx.hash !in pending {
        GroupsBudgeted(blk, pending, budget, i + 1, accounts, open);
      } else if Full(blk.fees, tx, budget, accounts, open) {
        CountedNone(blk);
        GroupsBudgeted(blk, pending, budget, i, {}, []);
      } else {
        AdmittedIsBudgeted(blk, budget, open, i);
        GroupsBudgeted(blk, pending, budget, i + 1, accounts + CandidateSet(blk.fees, tx), open + [tx.hash]);
      }
    }
  }

  lemma CountedNone(blk: Block)
    ensures Counted(blk, []) == {}
  {}

  lemma AdmittedIsBudgeted(blk: Block, budget: int, open: seq<Hash>, i: nat)
    requires i < |blk.txs| && DistinctHashes(blk.txs)
    requires !Full(blk.fees, blk.txs[i], budget, Counted(blk, open), open)
    ensures Counted(blk, open + [blk.txs[i].hash]) == Counted(blk, open) + CandidateSet(blk.fees, blk.txs[i])
    ensures Budgeted(blk, budget, open + [blk.txs[i].hash])
  {
    CountedSnoc(blk, open, i);
    NewAccountsBound(Candidates(blk.fees, blk.txs[i]), Counted(blk, open));
  }

  lemma CountedSnoc(blk: Block, g: seq<Hash>, i: nat)
    requires i < |blk.txs| && DistinctHashes(blk.txs)
    ensures Counted(blk, g + [blk.txs[i].hash]) == Counted(blk, g) + CandidateSet(blk.fees, blk.txs[i])
  {
    var h := blk.txs[i].hash;
    assert forall t :: t in blk.txs && t.hash == h ==> t == blk.txs[i];
    assert forall k :: k in g + [h] <==> k in g || k == h;
  }

  lemma SubsetSize<T>(a: set<T>, b: set<T>)
    requires a <= b
    ensures |a| <= |b|
  {
    assert b == a + (b - a);
  }

  /** A group is closed only when the next pending transaction does not fit: with it, the accounts and
      markers of the group would exceed the budget. */
  ghost predicate ClosedFull(blk: Block, budget: int, g: seq<Hash>, next: seq<Hash>) {
    && next != []
    && exists t :: && t in blk.txs && t.hash == next[0]
                   && |Counted(blk, g)| + NewAccounts(Candidates(blk.fees, t), Counted(blk, g)) + |g| + 1 > budget
  }

  /** What is new counts each mention of an account that is not in the group yet. */
  lemma {:induction false} NewAccountsExactly(cand: seq<Address>, accounts: set<Address>)
    ensures NewAccounts(cand, accounts) == |set i | 0 <= i < |cand| && cand[i] !in accounts|
  {
    if cand != [] {
      var n := |cand| - 1;
      NewAccountsExactly(cand[..n], accounts);
      var before := set i | 0 <= i < n && cand[..n][i] !in accounts;
      var now := set i | 0 <= i < |cand| && cand[i] !in accounts;
      assert now == before + if cand[n] in accounts then {} else {n};
    }
  }

  ghost predicate Greedy(blk: Block, budget: int, groups: seq<seq<Hash>>) {
    forall k :: 0 <= k < |groups| - 1 ==> ClosedFull(blk, budget, groups[k], groups[k + 1])
  }

  /** So no group could have taken one more transaction. */
  lemma GroupsGreedy(blk: Block, pending: set<Hash>, budget: int)
    requires DistinctHashes(blk.txs)
    ensures Greedy(blk, budget, Groups(blk, pending, budget))
  {
    CountedNone(blk);
    GroupsGreedyFrom(blk, pending, budget, 0, {}, []);
  }

  lemma {:induction false} GroupsGreedyFrom(blk: Block, pending: set<Hash>, budget: int, i: nat, accounts: set<Address>,
                                            open: seq<Hash>)
    requires i <= |blk.txs| && DistinctHashes(blk.txs) && accounts == Counted(blk, open)
    ensures Greedy(blk, budget, GroupsFrom(blk, pending, budget, i, accounts, open))
    decreases |blk.txs| - i, |open|
  {
    if i < |blk.txs| {
      var tx := blk.txs[i];
      if tx.hash !in pending {
        GroupsGreedyFrom(blk, pending, budget, i + 1, accounts, open);
      } else if Full(blk.fees, tx, budget, accounts, open) {
        CountedNone(blk);
        GroupsGreedyFrom(blk, pending, budget, i, {}, []);
        NextStartsWith(blk, pending, budget, i);
        GreedyMore(blk, budget, open, GroupsFrom(blk, pending, budget, i, {}, []), tx);
      } else {
        CountedSnoc(blk, open, i);
        GroupsGreedyFrom(blk, pending, budget, i + 1, accounts + CandidateSet(blk.fees, tx), open + [tx.hash]);
      }
    }
  }

  lemma NextStartsWith(blk: Block, pending: set<Hash>, budget: int, i: nat)
    requires i < |blk.txs| && DistinctHashes(blk.txs) && blk.txs[i].hash in pending
    ensures var groups := GroupsFrom(blk, pending, budget, i, {}, []);
            groups != [] && groups[0] != [] && groups[0][0] == blk.txs[i].hash
  {
    var open := [blk.txs[i].hash];
    assert [] + open == open;
    KeepsOpen(blk, pending, budget, i + 1, {} + CandidateSet(blk.fees, blk.txs[i]), open);
  }

  lemma {:induction false} KeepsOpen(blk: Block, pending: set<Hash>, budget: int, i: nat, accounts: set<Address>,
                                     open: seq<Hash>)
    requires i <= |blk.txs| && open != []
    ensures var groups := GroupsFrom(blk, pending, budget, i, accounts, open);
            groups != [] && open <= groups[0]
    decreases |blk.txs| - i
  {
    if i < |blk.txs| && (blk.txs[i].hash !in pending || !Full(blk.fees, blk.txs[i], budget, accounts, open)) {
      if blk.txs[i].hash !in pending {
        KeepsOpen(blk, pending, budget, i + 1, accounts, open);
      } else {
        KeepsOpen(blk, pending, budget, i + 1, accounts + CandidateSet(blk.fees, blk.txs[i]),
                  open + [blk.txs[i].hash]);
      }
    }
  }

  lemma GreedyMore(blk: Block, budget: int, open: seq<Hash>, rest: seq<seq<Hash>>, tx: Tx)
    requires Greedy(blk, budget, rest) && rest != [] && rest[0] != [] && rest[0][0] == tx.hash && tx in blk.txs
    requires Full(blk.fees, tx, budget, Counted(blk, open), open)
    ensures Greedy(blk, budget, [open] + rest)
  {
    var groups := [open] + rest;
    forall k | 0 <= k < |groups| - 1 ensures ClosedFull(blk, budget, groups[k], groups[k + 1]) {
      if k > 0 {
        assert groups[k] == rest[k - 1] && groups[k + 1] == rest[k];
      }
    }
  }

  predicate AloneFits(fees: FeeTargets, tx: Tx) {
    |Touched(EffectOf(fees, tx))| + 1 <= EXEC_ALL_CAP
  }

  /** Exactly when reconciliation can commit a block: no group hits the ExecAll cap if and
      only if no pending transaction would hit it all by itself. */
  lemma CapExact(blk: Block, pending: set<Hash>)
    requires DistinctHashes(blk.txs)
    ensures (forall g :: g in Groups(blk, pending, GROUP_BUDGET) ==> FitsExecAll(blk, g))
            <==> (forall t :: t in blk.txs && t.hash in pending ==> AloneFits(blk.fees, t))
  {
    var groups := Groups(blk, pending, GROUP_BUDGET);
    PartitionMembers(blk, pending, GROUP_BUDGET);
    if forall g :: g in groups ==> FitsExecAll(blk, g) {
      forall t | t in blk.txs && t.hash in pending ensures AloneFits(blk.fees, t) {
        var g :| g in groups && t.hash in g;
        GroupHoldsTx(blk, g, t);
      }
    }
    if forall t :: t in blk.txs && t.hash in pending ==> AloneFits(blk.fees, t) {
      CountedNone(blk);
      GroupsBudgeted(blk, pending, GROUP_BUDGET, 0, {}, []);
      PartitionCoversPending(blk, pending, GROUP_BUDGET);
      forall g | g in groups ensures FitsExecAll(blk, g) {
        BudgetedFits(blk, g);
      }
    }
  }

  lemma BudgetedFits(blk: Block, g: seq<Hash>)
    requires DistinctHashes(blk.txs) && g != [] && Budgeted(blk, GROUP_BUDGET, g)
    requires forall h :: h in g ==> h in Hashes(blk.txs)
    requires forall t :: t in blk.txs && t.hash in g ==> AloneFits(blk.fees, t)
    ensures FitsExecAll(blk, g)
  {
    if |g| == 1 {
      SingleGroup(blk, g[0]);
      assert g == [g[0]];
    } else {
      WrittenAreCounted(blk, g);
      SubsetSize(Written(blk, g), Counted(blk, g));
    }
  }

  lemma GroupHoldsTx(blk: Block, g: seq<Hash>, t: Tx)
    requires t in blk.txs && t.hash in g
    requires FitsExecAll(blk, g)
    ensures AloneFits(blk.fees, t)
  {
    WrittenMembers(blk, g);
    SubsetSize(Touched(EffectOf(blk.fees, t)), Written(blk, g));
  }

  /** A group of one writes what its transaction touches. */
  lemma SingleGroup(blk: Block, h: Hash)
    requires DistinctHashes(blk.txs) && h in Hashes(blk.txs)
    ensures exists t :: t in blk.txs && t.hash == h && Written(blk, [h]) == Touched(EffectOf(blk.fees, t))
  {
    var k :| 0 <= k < |blk.txs| && Hashes(blk.txs)[k] == h;
    var t := blk.txs[k];
    assert t in blk.txs;
    OnlyWriter(blk, t);
  }

  lemma OnlyWriter(blk: Block, t: Tx)
    requires t in blk.txs && forall u :: u in blk.txs && u.hash == t.hash ==> u == t
    ensures Written(blk, [t.hash]) == Touched(EffectOf(blk.fees, t))
  {
    WrittenMembers(blk, [t.hash]);
    forall a ensures a in Written(blk, [t.hash]) <==> a in Touched(EffectOf(blk.fees, t)) {}
  }

  lemma {:induction false} ElementsSize(s: seq<Address>)
    ensures |Elements(s)| <= |s|
  {
    if s != [] {
      ElementsSize(s[..|s| - 1]);
      assert Elements(s) == Elements(s[..|s| - 1]) + {s[|s| - 1]};
    }
  }

  /** With at most 1019 fee recipients every group of every block fits. */
  lemma CapHolds(blk: Block, pending: set<Hash>)
    requires DistinctHashes(blk.txs)
    requires |blk.fees.recipients| <= 1019
    ensures forall g :: g in Groups(blk, pending, GROUP_BUDGET) ==> FitsExecAll(blk, g)
  {
    forall t | t in blk.txs ensures AloneFits(blk.fees, t) {
      TouchedAreCandidates(blk.fees, t);
      ElementsSize(Candidates(blk.fees, t));
      SubsetSize(Touched(EffectOf(blk.fees, t)), CandidateSet(blk.fees, t));
    }
    CapExact(blk, pending);
  }
}

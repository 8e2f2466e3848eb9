/** What a commit leaves of an account document besides its counters
    (DB_OPs/account_recon.go, messaging/BlockProcessing/Processing.go): DID, type, creation time
    and metadata stay, the update stamp is the time of the block, and an identity changes only to
    the one the block carries. */
module Documents {
  import opened Types
  import opened Fees
  import opened Deltas
  import opened Ledger

  /** The fields no commit changes, with the others blanked out. */
  function Profile(doc: Account): Account {
    doc.(nonce := 0, balance := "", txNonce := 0, txCountSent := 0, updatedAt := 0)
  }

  /** A new account is a user without metadata. */
  predicate NewProfile(doc: Account, x: Address) {
    doc.address == x && doc.accountType == "user" && doc.metadata == None && doc.did in ["", ReceiverDid(x)]
  }

  /** Account `x` keeps its profile, or is new. */
  ghost predicate KeepsProfile(before: Docs, after: Docs, x: Address) {
    && (x in before ==> x in after && Profile(after[x]) == Profile(before[x]))
    && (x in after && x !in before ==> NewProfile(after[x], x))
  }

  lemma KeepsTwice(before: Docs, mid: Docs, after: Docs, x: Address)
    requires KeepsProfile(before, mid, x) && KeepsProfile(mid, after, x)
    ensures KeepsProfile(before, after, x)
  {
    if x in mid {
      SameFields(mid[x], after[x]);
    }
  }

  lemma SameFields(a: Account, b: Account)
    requires Profile(a) == Profile(b)
    ensures a.did == b.did && a.address == b.address && a.accountType == b.accountType
    ensures a.createdAt == b.createdAt && a.metadata == b.metadata
  {
    assert Profile(a).did == a.did && Profile(a).address == a.address && Profile(a).accountType == a.accountType;
    assert Profile(a).createdAt == a.createdAt && Profile(a).metadata == a.metadata;
  }

  /** Account `x` after one writer has written the accounts in `who` at time `at`. A new account is
      created at that time, by live execution with a DID and by reconciliation without one; and it
      takes the name it is given, if any. */
  ghost predicate WrittenAt(before: Docs, who: set<Address>, at: int, live: bool, names: map<Address, U64>, after: Docs,
                            x: Address) {
    if x !in who then Lookup(after, x) == Lookup(before, x)
    else
      && x in after && after[x].updatedAt == at
      && after[x].nonce == (if x in names then names[x] else if x in before then before[x].nonce else 0)
      && (x in before ==> Profile(after[x]) == Profile(before[x]))
      && (x !in before ==> NewProfile(after[x], x) && after[x].createdAt == at
                           && after[x].did == if live then ReceiverDid(x) else "")
  }

  ghost predicate Stamped(before: Docs, who: set<Address>, at: int, live: bool, names: map<Address, U64>, after: Docs) {
    forall x: Address :: WrittenAt(before, who, at, live, names, after, x)
  }

  lemma WrittenKeeps(before: Docs, who: set<Address>, at: int, live: bool, names: map<Address, U64>, after: Docs,
                     x: Address)
    requires WrittenAt(before, who, at, live, names, after, x)
    ensures KeepsProfile(before, after, x)
  {}

  lemma StampedKeeps(before: Docs, who: set<Address>, at: int, live: bool, names: map<Address, U64>, after: Docs)
    requires Stamped(before, who, at, live, names, after)
    ensures forall x: Address :: KeepsProfile(before, after, x)
  {
    forall x: Address ensures KeepsProfile(before, after, x) {
      WrittenKeeps(before, who, at, live, names, after, x);
    }
  }

  // ----- Reconciliation -----

  lemma DeltasWrite(docs: Docs, m: DeltaMap, at: int, x: Address)
    ensures WrittenAt(docs, m.Keys, at, false, map[], WriteDeltas(docs, m, at), x)
  {}

  lemma DeltasStamp(docs: Docs, m: DeltaMap, at: int)
    ensures Stamped(docs, m.Keys, at, false, map[], WriteDeltas(docs, m, at))
  {
    forall x: Address ensures WrittenAt(docs, m.Keys, at, false, map[], WriteDeltas(docs, m, at), x) {
      DeltasWrite(docs, m, at, x);
    }
  }

  lemma StampedNothing(docs: Docs, at: int)
    ensures Stamped(docs, {}, at, false, map[], docs)
  {}

  /** Two groups of one block, one after the other. */
  lemma WrittenTwice(before: Docs, mid: Docs, after: Docs, who: set<Address>, more: set<Address>, at: int, x: Address)
    requires WrittenAt(before, who, at, false, map[], mid, x) && WrittenAt(mid, more, at, false, map[], after, x)
    ensures WrittenAt(before, who + more, at, false, map[], after, x)
  {
    WrittenKeeps(before, who, at, false, map[], mid, x);
    WrittenKeeps(mid, more, at, false, map[], after, x);
    KeepsTwice(before, mid, after, x);
    if x in mid {
      SameFields(mid[x], after[x]);
    }
  }

  lemma StampedTwice(before: Docs, mid: Docs, after: Docs, who: set<Address>, more: set<Address>, at: int)
    requires Stamped(before, who, at, false, map[], mid) && Stamped(mid, more, at, false, map[], after)
    ensures Stamped(before, who + more, at, false, map[], after)
  {
    forall x: Address ensures WrittenAt(before, who + more, at, false, map[], after, x) {
      assert WrittenAt(before, who, at, false, map[], mid, x) && WrittenAt(mid, more, at, false, map[], after, x);
      WrittenTwice(before, mid, after, who, more, at, x);
    }
  }

  // ----- Live execution -----

  /** What debits and credits staged for the accounts in `who` do to the view of `x`. */
  ghost predicate StagedAt(view: Docs, who: set<Address>, at: int, next: Docs, x: Address) {
    if x !in who then Lookup(next, x) == Lookup(view, x)
    else x in view && x in next && next[x].updatedAt == at && next[x].nonce == view[x].nonce
         && Profile(next[x]) == Profile(view[x])
  }

  lemma StagedTwice(view: Docs, mid: Docs, next: Docs, who: set<Address>, more: set<Address>, at: int, x: Address)
    requires StagedAt(view, who, at, mid, x) && StagedAt(mid, more, at, next, x)
    ensures StagedAt(view, who + more, at, next, x)
  {}

  lemma DebitStages(docs: Docs, stage: Docs, s: Sender, at: int, x: Address)
    requires Keyed(docs) && Keyed(stage) && StageDebit(docs, stage, s, at).Some?
    ensures var next := StageDebit(docs, stage, s, at).value;
            Keyed(next) && StagedAt(docs + stage, {s.addr}, at, docs + next, x)
  {
    assert (docs + stage)[s.addr].address == s.addr;
  }

  lemma CreditStages(docs: Docs, stage: Docs, c: FeeCredit, at: int, x: Address)
    requires Keyed(docs) && Keyed(stage) && StageCredit(docs, stage, c, at).Some?
    ensures var next := StageCredit(docs, stage, c, at).value;
            Keyed(next) && StagedAt(docs + stage, {c.addr}, at, docs + next, x)
  {
    assert (docs + stage)[c.addr].address == c.addr;
  }

  lemma {:induction false} CreditsStage(docs: Docs, stage: Docs, cs: seq<FeeCredit>, at: int, x: Address)
    requires Keyed(docs) && Keyed(stage) && StageCredits(docs, stage, cs, at).Some?
    ensures var next := StageCredits(docs, stage, cs, at).value;
            Keyed(next) && StagedAt(docs + stage, CreditedBy(cs), at, docs + next, x)
  {
    if cs != [] {
      var front, c := cs[..|cs| - 1], cs[|cs| - 1];
      CreditsStage(docs, stage, front, at, x);
      CreditedSnoc(cs);
      OneMoreCredit(docs, docs + stage, CreditedBy(front), StageCredits(docs, stage, front, at).value, c, at, x);
    }
  }

  lemma CreditedSnoc(cs: seq<FeeCredit>)
    requires cs != []
    ensures CreditedBy(cs) == CreditedBy(cs[..|cs| - 1]) + {cs[|cs| - 1].addr}
  {}

  lemma OneMoreCredit(docs: Docs, view: Docs, who: set<Address>, mid: Docs, c: FeeCredit, at: int, x: Address)
    requires Keyed(docs) && Keyed(mid) && StagedAt(view, who, at, docs + mid, x) && StageCredit(docs, mid, c, at).Some?
    ensures var next := StageCredit(docs, mid, c, at).value;
            Keyed(next) && StagedAt(view, who + {c.addr}, at, docs + next, x)
  {
    CreditStages(docs, mid, c, at, x);
    StagedTwice(view, docs + mid, docs + StageCredit(docs, mid, c, at).value, who, {c.addr}, at, x);
  }

  /** The identities a transaction's block gives to its sender and receiver. */
  function Names(from: Address, to: Address, carried: map<Address, U64>): map<Address, U64> {
    map a | a in carried && (a == from || a == to) && carried[a] != 0 :: carried[a]
  }

  /** The view of `x` before anything is paid: the receiver is there and names are adopted. */
  ghost predicate Prepared(docs: Docs, from: Address, to: Address, carried: map<Address, U64>, at: int, view: Docs,
                           x: Address) {
    if x != from && x != to then Lookup(view, x) == Lookup(docs, x)
    else
      var names := Names(from, to, carried);
      && x in view && (x !in docs ==> x in names && view[x].did == ReceiverDid(x))
      && view[x].nonce == (if x in names then names[x] else if x in docs then docs[x].nonce else 0)
      && (x in docs ==> Profile(view[x]) == Profile(docs[x]))
      && (x !in docs ==> NewProfile(view[x], x) && view[x].createdAt == at)
  }

  lemma ReadyPrepares(docs: Docs, from: Address, to: Address, carried: map<Address, U64>, at: int, x: Address)
    requires Keyed(docs) && Ready(docs, from, to, carried, at).Some?
    ensures var ready := Ready(docs, from, to, carried, at).value;
            Keyed(ready) && Prepared(docs, from, to, carried, at, docs + ready, x)
  {
    var created := StageReceiver(docs, to, carried, at).value;
    var named := Adopt(docs, created, from, carried);
    AdoptNames(docs, created, from, carried, x);
    if to in docs {
      AdoptNames(docs, named, to, carried, x);
    }
  }

  lemma AdoptNames(docs: Docs, stage: Docs, a: Address, carried: map<Address, U64>, x: Address)
    requires Keyed(docs) && Keyed(stage) && a in docs + stage
    ensures var next := Adopt(docs, stage, a, carried);
            && Keyed(next) && (x in docs + next <==> x in docs + stage)
            && (x in docs + stage ==>
                  (docs + next)[x] == if x == a && a in carried && carried[a] != 0
                                      then (docs + stage)[x].(nonce := carried[a]) else (docs + stage)[x])
  {
    assert (docs + stage)[a].address == a;
  }

  lemma PreparedThenStaged(docs: Docs, from: Address, to: Address, carried: map<Address, U64>, at: int, view: Docs,
                           who: set<Address>, next: Docs, x: Address)
    requires Prepared(docs, from, to, carried, at, view, x) && StagedAt(view, who, at, next, x)
    requires from in who && to in who
    ensures WrittenAt(docs, who, at, true, Names(from, to, carried), next, x)
  {
    if x in who {
      SameFields(view[x], next[x]);
    }
  }

  /** The accounts a live transaction writes: those its effect touches, and its receiver. */
  lemma LiveWrites(docs: Docs, fees: FeeTargets, tx: Tx, carried: map<Address, U64>, at: int, x: Address)
    requires Keyed(docs) && LiveShape(fees, tx) && LiveStage(docs, fees, tx, carried, at).Some?
    ensures WrittenAt(docs, Touched(EffectOf(fees, tx)) + {tx.to.value}, at, true,
                      Names(tx.from.value, tx.to.value, carried),
                      docs + LiveStage(docs, fees, tx, carried, at).value, x)
  {
    var from, to, cs := tx.from.value, tx.to.value, LiveCredits(fees, tx);
    var ready := Ready(docs, from, to, carried, at).value;
    var debited := StageDebit(docs, ready, LiveSender(tx), at).value;
    var paid := StageCredits(docs, debited, cs, at).value;
    ReadyPrepares(docs, from, to, carried, at, x);
    DebitStages(docs, ready, LiveSender(tx), at, x);
    CreditsStage(docs, debited, cs, at, x);
    StagedTwice(docs + ready, docs + debited, docs + paid, {from}, CreditedBy(cs), at, x);
    LiveTouches(fees, tx);
    PreparedThenStaged(docs, from, to, carried, at, docs + ready, {from} + CreditedBy(cs), docs + paid, x);
  }

  lemma LiveStamps(docs: Docs, fees: FeeTargets, tx: Tx, carried: map<Address, U64>, at: int)
    requires Keyed(docs) && LiveShape(fees, tx) && LiveStage(docs, fees, tx, carried, at).Some?
    ensures Stamped(docs, Touched(EffectOf(fees, tx)) + {tx.to.value}, at, true,
                    Names(tx.from.value, tx.to.value, carried),
                    docs + LiveStage(docs, fees, tx, carried, at).value)
  {
    forall x: Address
      ensures WrittenAt(docs, Touched(EffectOf(fees, tx)) + {tx.to.value}, at, true,
                        Names(tx.from.value, tx.to.value, carried),
                        docs + LiveStage(docs, fees, tx, carried, at).value, x)
    {
      LiveWrites(docs, fees, tx, carried, at, x);
    }
  }

  lemma LiveTouches(fees: FeeTargets, tx: Tx)
    requires LiveShape(fees, tx)
    ensures {tx.from.value} + CreditedBy(LiveCredits(fees, tx)) == Touched(EffectOf(fees, tx)) + {tx.to.value}
  {
    var c, rest := FeeCredit(tx.to.value, LiveValue(tx)), FeeCredits(fees, GasFee(tx));
    assert CreditedBy([c] + rest) == {tx.to.value} + CreditedBy(rest);
    assert CreditedBy(ReceiverCredits(tx) + rest) == CreditedBy(ReceiverCredits(tx)) + CreditedBy(rest);
  }
}

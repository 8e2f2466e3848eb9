/** Restoring accounts in bulk (DB_OPs/account_immuclient.go, `BatchRestoreAccounts`): address
    entries are deduplicated and merged over what is stored, DID entries become references to
    address keys, and the resulting operations are committed in chunks. */
module Restore {
  import opened Types
  import opened Merge

  /** A stored or transmitted value; `Raw` is one that does not decode to an account. */
  datatype Payload = Doc(account: Account) | Raw(bytes: nat)

  datatype Key = NoKey | AddrKey(addr: Address) | DidKey(did: string) | OtherKey

  datatype Entry = Entry(key: Key, value: Option<Payload>)

  /** The accounts database: values under address keys and references under DID keys. */
  datatype Kv = Kv(addrs: map<Address, Payload>, refs: map<string, Address>)

  datatype Op = Put(addr: Address, value: Payload) | Ref(did: string, target: Address)

  function KeyOf(op: Op): Key { if op.Put? then AddrKey(op.addr) else DidKey(op.did) }

  function Apply(kv: Kv, op: Op): Kv {
    if op.Put? then kv.(addrs := kv.addrs[op.addr := op.value]) else kv.(refs := kv.refs[op.did := op.target])
  }

  function ApplyAll(kv: Kv, ops: seq<Op>): Kv {
    if ops == [] then kv else Apply(ApplyAll(kv, ops[..|ops| - 1]), ops[|ops| - 1])
  }

  const OPS_PER_TX: nat := 1000

  // ----- Deduplication -----

  type AddrSet = map<Address, Payload>
  type DidSet = map<string, Payload>

  predicate Newer(than: Payload, p: Payload) {
    than.Doc? && p.Doc? && Normalize(p.account.updatedAt) > Normalize(than.account.updatedAt)
  }

  /** The entry for `a` that survives: the first, replaced by every strictly newer one. */
  function Survivor(entries: seq<Entry>, a: Address): Option<Payload> {
    if entries == [] then None
    else
      var front, e := Survivor(entries[..|entries| - 1], a), entries[|entries| - 1];
      if e.key != AddrKey(a) || e.value.None? then front
      else if front.None? || Newer(front.value, e.value.value) then e.value
      else front
  }

  /** Entry `i` is for address `a`. */
  predicate ForAddr(entries: seq<Entry>, i: int, a: Address) {
    0 <= i < |entries| && entries[i].key == AddrKey(a) && entries[i].value.Some?
  }

  /** Entry `i` is the first for `a`, or strictly newer than every earlier one that decodes, with the
      very first among them. */
  ghost predicate Overtakes(entries: seq<Entry>, i: int, a: Address) {
    && ForAddr(entries, i, a)
    && (forall j :: 0 <= j < i && ForAddr(entries, j, a) && entries[j].value.value.Doc? ==>
          Newer(entries[j].value.value, entries[i].value.value))
    && (forall j :: ForAddr(entries, j, a) && (forall k :: 0 <= k < j ==> !ForAddr(entries, k, a)) ==>
          j == i || entries[j].value.value.Doc?)
  }

  /** The survivor is the earliest entry that no other entry for the address is newer than. */
  lemma {:induction false} SurvivorOvertakes(entries: seq<Entry>, a: Address) returns (i: int)
    ensures Survivor(entries, a).Some? ==> Overtakes(entries, i, a) && entries[i].value == Survivor(entries, a)
  {
    i := -1;
    if entries != [] {
      var front, e := entries[..|entries| - 1], entries[|entries| - 1];
      i := SurvivorOvertakes(front, a);
      SurvivorIsNewest(front, a);
      assert forall j :: 0 <= j < |front| ==> (ForAddr(entries, j, a) <==> ForAddr(front, j, a));
      if Survivor(entries, a) != Survivor(front, a) {
        i := |front|;
      }
    }
  }

  /** The survivor is one of the entries, and none that decodes is newer if the first decodes. */
  lemma {:induction false} SurvivorIsNewest(entries: seq<Entry>, a: Address)
    ensures Survivor(entries, a).Some? <==> exists e :: e in entries && e.key == AddrKey(a) && e.value.Some?
    ensures Survivor(entries, a).Some? ==> Entry(AddrKey(a), Survivor(entries, a)) in entries
    ensures Survivor(entries, a).Some? ==>
              forall e :: e in entries && e.key == AddrKey(a) && e.value.Some? ==>
                  !Newer(Survivor(entries, a).value, e.value.value)
  {
    if entries != [] {
      var front, e := entries[..|entries| - 1], entries[|entries| - 1];
      SurvivorIsNewest(front, a);
      assert forall x :: x in entries <==> x in front || x == e;
    }
  }

  /** The last entry for a DID wins. */
  function LastDid(entries: seq<Entry>, d: string): Option<Payload> {
    if entries == [] then None
    else
      var e := entries[|entries| - 1];
      if e.key == DidKey(d) && e.value.Some? then e.value else LastDid(entries[..|entries| - 1], d)
  }

  lemma {:induction false} LastDidIsLast(entries: seq<Entry>, d: string)
    ensures LastDid(entries, d).None? <==> forall e :: e in entries && e.key == DidKey(d) ==> e.value.None?
    ensures LastDid(entries, d).Some? ==>
              exists i :: && 0 <= i < |entries| && entries[i] == Entry(DidKey(d), LastDid(entries, d))
                          && forall j :: i < j < |entries| ==> entries[j].key != DidKey(d) || entries[j].value.None?
  {
    if entries != [] {
      var n := |entries| - 1;
      LastDidIsLast(entries[..n], d);
      assert forall e :: e in entries <==> e in entries[..n] || e == entries[n];
    }
  }

  predicate ValidEntries(entries: seq<Entry>) {
    entries != [] && forall e :: e in entries ==> e.key != NoKey && e.value.Some?
  }

  /** The two hash sets the entries are folded into. */
  method Deduplicate(entries: seq<Entry>) returns (ok: bool, addrs: AddrSet, dids: DidSet)
    ensures ok <==> ValidEntries(entries)
    ensures ok ==> Folded(entries, addrs, dids)
  {
    addrs, dids := map[], map[];
    if entries == [] {
      return false, addrs, dids;
    }
    for i := 0 to |entries|
      invariant forall j :: 0 <= j < i ==> entries[j].key != NoKey && entries[j].value.Some?
      invariant Folded(entries[..i], addrs, dids)
    {
      var e := entries[i];
      if e.key == NoKey || e.value.None? {
        assert e in entries;
        return false, addrs, dids;
      }
      assert entries[..i + 1][..i] == entries[..i];
      if e.key.AddrKey? {
        if e.key.addr !in addrs || Newer(addrs[e.key.addr], e.value.value) {
          addrs := addrs[e.key.addr := e.value.value];
        }
      } else if e.key.DidKey? {
        dids := dids[e.key.did := e.value.value];
      }
    }
    assert entries[..|entries|] == entries;
    return true, addrs, dids;
  }

  ghost predicate Folded(entries: seq<Entry>, addrs: AddrSet, dids: DidSet) {
    && (forall a: Address :: Survivor(entries, a) == if a in addrs then Some(addrs[a]) else None)
    && (forall d: string :: LastDid(entries, d) == if d in dids then Some(dids[d]) else None)
  }

  // ----- The plan -----

  /** The stored account under an address key, if it decodes. */
  function Existing(kv: Kv, a: Address): Option<Account> {
    if a in kv.addrs && kv.addrs[a].Doc? then Some(kv.addrs[a].account) else None
  }

  /** What an entry writes; a value that does not decode is written as it is. */
  function ToWrite(kv: Kv, a: Address, p: Payload, isHex: HexTest): Option<Payload> {
    if p.Raw? then Some(p)
    else
      var m := MergeForWrite(Existing(kv, a), p.account, isHex);
      if m.Some? then Some(Doc(m.value)) else None
  }

  predicate PointsTo(p: Payload, a: Address) { p.Doc? && p.account.address == a }

  /** References to `a` among the DIDs listed. */
  function RefsTo(dids: DidSet, order: seq<string>, a: Address): seq<Op> {
    if order == [] then []
    else
      var d := order[|order| - 1];
      RefsTo(dids, order[..|order| - 1], a) + if d in dids && PointsTo(dids[d], a) then [Ref(d, a)] else []
  }

  /** One address and its references, if it is written at all. */
  function WriteWithRefs(kv: Kv, addrs: AddrSet, dids: DidSet, didOrder: seq<string>, isHex: HexTest,
                         a: Address): seq<Op> {
    if a !in addrs || ToWrite(kv, a, addrs[a], isHex).None? then []
    else [Put(a, ToWrite(kv, a, addrs[a], isHex).value)] + RefsTo(dids, didOrder, a)
  }

  function FirstPass(kv: Kv, addrs: AddrSet, dids: DidSet, order: seq<Address>, didOrder: seq<string>,
                     isHex: HexTest): seq<Op> {
    if order == [] then []
    else FirstPass(kv, addrs, dids, order[..|order| - 1], didOrder, isHex)
         + WriteWithRefs(kv, addrs, dids, didOrder, isHex, order[|order| - 1])
  }

  predicate Written(kv: Kv, addrs: AddrSet, isHex: HexTest, a: Address) {
    a in addrs && ToWrite(kv, a, addrs[a], isHex).Some?
  }

  /** References to accounts that this batch does not write but the database has. */
  function SecondPass(kv: Kv, addrs: AddrSet, dids: DidSet, didOrder: seq<string>, isHex: HexTest): seq<Op> {
    if didOrder == [] then []
    else
      var d := didOrder[|didOrder| - 1];
      SecondPass(kv, addrs, dids, didOrder[..|didOrder| - 1], isHex)
        + if d in dids && dids[d].Doc? && !Written(kv, addrs, isHex, dids[d].account.address)
             && Existing(kv, dids[d].account.address).Some?
          then [Ref(d, dids[d].account.address)] else []
  }

  function Plan(kv: Kv, addrs: AddrSet, dids: DidSet, order: seq<Address>, didOrder: seq<string>,
                isHex: HexTest): seq<Op> {
    FirstPass(kv, addrs, dids, order, didOrder, isHex) + SecondPass(kv, addrs, dids, didOrder, isHex)
  }

  // ----- References never dangle -----

  ghost predicate RefsResolve(kv: Kv) { forall d :: d in kv.refs ==> kv.refs[d] in kv.addrs }

  /** Every reference in `ops` is to a known address or to one put earlier. */
  ghost predicate Grounded(known: set<Address>, ops: seq<Op>) {
    forall i :: 0 <= i < |ops| && ops[i].Ref? ==> ops[i].target in known || PutBefore(ops, i, ops[i].target)
  }

  ghost predicate PutBefore(ops: seq<Op>, i: nat, a: Address)
    requires i <= |ops|
  {
    exists j :: 0 <= j < i && ops[j].Put? && ops[j].addr == a
  }

  lemma GroundedConcat(known: set<Address>, a: seq<Op>, b: seq<Op>)
    requires Grounded(known, a) && Grounded(known, b)
    ensures Grounded(known, a + b)
  {
    var ops := a + b;
    forall i | 0 <= i < |ops| && ops[i].Ref? && ops[i].target !in known ensures PutBefore(ops, i, ops[i].target) {
      if i < |a| {
        var j :| 0 <= j < i && a[j].Put? && a[j].addr == a[i].target;
        assert ops[j] == a[j];
      } else {
        var j :| 0 <= j < i - |a| && b[j].Put? && b[j].addr == b[i - |a|].target;
        assert ops[|a| + j] == b[j];
      }
    }
  }

  lemma {:induction false} RefsToShape(dids: DidSet, order: seq<string>, a: Address)
    ensures forall op :: op in RefsTo(dids, order, a) <==>
              op.Ref? && op.target == a && op.did in order && op.did in dids && PointsTo(dids[op.did], a)
  {
    if order != [] {
      RefsToShape(dids, order[..|order| - 1], a);
      assert forall d :: d in order <==> d in order[..|order| - 1] || d == order[|order| - 1];
    }
  }

  lemma WriteGrounded(kv: Kv, addrs: AddrSet, dids: DidSet, didOrder: seq<string>, isHex: HexTest, a: Address,
                      known: set<Address>)
    ensures Grounded(known, WriteWithRefs(kv, addrs, dids, didOrder, isHex, a))
  {
    var ops := WriteWithRefs(kv, addrs, dids, didOrder, isHex, a);
    RefsToShape(dids, didOrder, a);
    forall i | 0 <= i < |ops| && ops[i].Ref? ensures PutBefore(ops, i, ops[i].target) {
      assert ops[i] in RefsTo(dids, didOrder, a) && ops[0].Put? && ops[0].addr == a;
    }
  }

  lemma {:induction false} FirstPassGrounded(kv: Kv, addrs: AddrSet, dids: DidSet, order: seq<Address>,
                                             didOrder: seq<string>, isHex: HexTest)
    ensures Grounded(kv.addrs.Keys, FirstPass(kv, addrs, dids, order, didOrder, isHex))
  {
    if order != [] {
      var front, a := order[..|order| - 1], order[|order| - 1];
      FirstPassGrounded(kv, addrs, dids, front, didOrder, isHex);
      WriteGrounded(kv, addrs, dids, didOrder, isHex, a, kv.addrs.Keys);
      GroundedConcat(kv.addrs.Keys, FirstPass(kv, addrs, dids, front, didOrder, isHex),
                     WriteWithRefs(kv, addrs, dids, didOrder, isHex, a));
    }
  }

  lemma {:induction false} SecondPassShape(kv: Kv, addrs: AddrSet, dids: DidSet, order: seq<string>, isHex: HexTest)
    ensures forall op :: op in SecondPass(kv, addrs, dids, order, isHex) <==>
              op.Ref? && op.did in order && op.did in dids && PointsTo(dids[op.did], op.target)
              && !Written(kv, addrs, isHex, op.target) && Existing(kv, op.target).Some?
  {
    if order != [] {
      SecondPassShape(kv, addrs, dids, order[..|order| - 1], isHex);
      assert forall d :: d in order <==> d in order[..|order| - 1] || d == order[|order| - 1];
    }
  }

  lemma PlanGrounded(kv: Kv, addrs: AddrSet, dids: DidSet, order: seq<Address>, didOrder: seq<string>, isHex: HexTest)
    ensures Grounded(kv.addrs.Keys, Plan(kv, addrs, dids, order, didOrder, isHex))
  {
    FirstPassGrounded(kv, addrs, dids, order, didOrder, isHex);
    SecondPassShape(kv, addrs, dids, didOrder, isHex);
    var second := SecondPass(kv, addrs, dids, didOrder, isHex);
    forall i | 0 <= i < |second| && second[i].Ref? ensures second[i].target in kv.addrs.Keys {
      assert second[i] in second;
    }
    GroundedConcat(kv.addrs.Keys, FirstPass(kv, addrs, dids, order, didOrder, isHex), second);
  }

  /** What a prefix of a grounded list has stored. */
  lemma {:induction false} PrefixResolves(kv: Kv, ops: seq<Op>, k: nat)
    requires RefsResolve(kv) && Grounded(kv.addrs.Keys, ops) && k <= |ops|
    ensures RefsResolve(ApplyAll(kv, ops[..k]))
    ensures forall a :: a in ApplyAll(kv, ops[..k]).addrs <==> a in kv.addrs || PutBefore(ops, k, a)
  {
    if k == 0 {
      assert ops[..0] == [];
    } else {
      PrefixResolves(kv, ops, k - 1);
      assert ops[..k][..k - 1] == ops[..k - 1];
      var before := ApplyAll(kv, ops[..k - 1]);
      forall a ensures a in Apply(before, ops[k - 1]).addrs <==> a in kv.addrs || PutBefore(ops, k, a) {
        assert PutBefore(ops, k, a) <==> PutBefore(ops, k - 1, a) || (ops[k - 1].Put? && ops[k - 1].addr == a);
      }
    }
  }

  /** After any committed prefix of the plan, in whole chunks or not, every DID reference points
      to an address key that exists. */
  lemma RefsNeverDangle(kv: Kv, addrs: AddrSet, dids: DidSet, order: seq<Address>, didOrder: seq<string>,
                        isHex: HexTest, k: nat)
    requires RefsResolve(kv) && k <= |Plan(kv, addrs, dids, order, didOrder, isHex)|
    ensures RefsResolve(ApplyAll(kv, Plan(kv, addrs, dids, order, didOrder, isHex)[..k]))
  {
    PlanGrounded(kv, addrs, dids, order, didOrder, isHex);
    PrefixResolves(kv, Plan(kv, addrs, dids, order, didOrder, isHex), k);
  }

  // ----- Each key is written once -----

  ghost predicate KeysDistinct(ops: seq<Op>) {
    forall i, j :: 0 <= i < j < |ops| ==> KeyOf(ops[i]) != KeyOf(ops[j])
  }

  ghost predicate Distinct<T>(s: seq<T>) { forall i, j :: 0 <= i < j < |s| ==> s[i] != s[j] }

  lemma DistinctConcat(a: seq<Op>, b: seq<Op>)
    requires KeysDistinct(a) && KeysDistinct(b)
    requires forall x, y :: x in a && y in b ==> KeyOf(x) != KeyOf(y)
    ensures KeysDistinct(a + b)
  {}

  lemma {:induction false} RefsToDistinct(dids: DidSet, order: seq<string>, a: Address)
    requires Distinct(order)
    ensures KeysDistinct(RefsTo(dids, order, a))
  {
    if order != [] {
      var front, d := order[..|order| - 1], order[|order| - 1];
      RefsToDistinct(dids, front, a);
      RefsToShape(dids, front, a);
      DistinctConcat(RefsTo(dids, front, a), if d in dids && PointsTo(dids[d], a) then [Ref(d, a)] else []);
    }
  }

  lemma WriteDistinct(kv: Kv, addrs: AddrSet, dids: DidSet, didOrder: seq<string>, isHex: HexTest, a: Address)
    requires Distinct(didOrder)
    ensures KeysDistinct(WriteWithRefs(kv, addrs, dids, didOrder, isHex, a))
  {
    RefsToDistinct(dids, didOrder, a);
    RefsToShape(dids, didOrder, a);
    if Written(kv, addrs, isHex, a) {
      DistinctConcat([Put(a, ToWrite(kv, a, addrs[a], isHex).value)], RefsTo(dids, didOrder, a));
    }
  }

  /** An operation of the first pass: a written account of `order`, or a reference to one. */
  ghost predicate FromFirst(kv: Kv, addrs: AddrSet, dids: DidSet, didOrder: seq<string>, isHex: HexTest, a: Address,
                            op: Op) {
    && Written(kv, addrs, isHex, a)
    && (op.Put? ==> op == Put(a, ToWrite(kv, a, addrs[a], isHex).value))
    && (op.Ref? ==> op.target == a && op.did in didOrder && op.did in dids && PointsTo(dids[op.did], a))
  }

  lemma WriteShape(kv: Kv, addrs: AddrSet, dids: DidSet, didOrder: seq<string>, isHex: HexTest, a: Address)
    ensures forall op :: op in WriteWithRefs(kv, addrs, dids, didOrder, isHex, a) <==>
            FromFirst(kv, addrs, dids, didOrder, isHex, a, op)
  {
    RefsToShape(dids, didOrder, a);
  }

  lemma {:induction false} FirstPassShape(kv: Kv, addrs: AddrSet, dids: DidSet, order: seq<Address>,
                                          didOrder: seq<string>, isHex: HexTest)
    ensures forall op :: op in FirstPass(kv, addrs, dids, order, didOrder, isHex) <==>
              exists a :: a in order && FromFirst(kv, addrs, dids, didOrder, isHex, a, op)
  {
    if order != [] {
      var front, a := order[..|order| - 1], order[|order| - 1];
      FirstPassShape(kv, addrs, dids, front, didOrder, isHex);
      WriteShape(kv, addrs, dids, didOrder, isHex, a);
      assert forall x :: x in order <==> x in front || x == a;
    }
  }

  lemma {:induction false} FirstPassDistinct(kv: Kv, addrs: AddrSet, dids: DidSet, order: seq<Address>,
                                             didOrder: seq<string>, isHex: HexTest)
    requires Distinct(order) && Distinct(didOrder)
    ensures KeysDistinct(FirstPass(kv, addrs, dids, order, didOrder, isHex))
  {
    if order != [] {
      var front, a := order[..|order| - 1], order[|order| - 1];
      FirstPassDistinct(kv, addrs, dids, front, didOrder, isHex);
      FirstPassShape(kv, addrs, dids, front, didOrder, isHex);
      WriteDistinct(kv, addrs, dids, didOrder, isHex, a);
      WriteShape(kv, addrs, dids, didOrder, isHex, a);
      DistinctConcat(FirstPass(kv, addrs, dids, front, didOrder, isHex),
                     WriteWithRefs(kv, addrs, dids, didOrder, isHex, a));
    }
  }

  lemma {:induction false} SecondPassDistinct(kv: Kv, addrs: AddrSet, dids: DidSet, order: seq<string>, isHex: HexTest)
    requires Distinct(order)
    ensures KeysDistinct(SecondPass(kv, addrs, dids, order, isHex))
  {
    if order != [] {
      var front, d := order[..|order| - 1], order[|order| - 1];
      SecondPassDistinct(kv, addrs, dids, front, isHex);
      SecondPassShape(kv, addrs, dids, front, isHex);
      var whole, head := SecondPass(kv, addrs, dids, order, isHex), SecondPass(kv, addrs, dids, front, isHex);
      if whole != head {
        DistinctConcat(head, [Ref(d, dids[d].account.address)]);
      }
    }
  }

  /** No key, address or DID, is written twice. */
  lemma PlanWritesOnce(kv: Kv, addrs: AddrSet, dids: DidSet, order: seq<Address>, didOrder: seq<string>, isHex: HexTest)
    requires Distinct(order) && Distinct(didOrder)
    ensures KeysDistinct(Plan(kv, addrs, dids, order, didOrder, isHex))
  {
    FirstPassDistinct(kv, addrs, dids, order, didOrder, isHex);
    SecondPassDistinct(kv, addrs, dids, didOrder, isHex);
    FirstPassShape(kv, addrs, dids, order, didOrder, isHex);
    SecondPassShape(kv, addrs, dids, didOrder, isHex);
    DistinctConcat(FirstPass(kv, addrs, dids, order, didOrder, isHex), SecondPass(kv, addrs, dids, didOrder, isHex));
  }

  // ----- The final state -----

  lemma {:induction false} AppliedOnce(kv: Kv, ops: seq<Op>)
    requires KeysDistinct(ops)
    ensures forall op :: op in ops && op.Put? ==> op.addr in ApplyAll(kv, ops).addrs
                                                  && ApplyAll(kv, ops).addrs[op.addr] == op.value
    ensures forall op :: op in ops && op.Ref? ==> op.did in ApplyAll(kv, ops).refs
                                                  && ApplyAll(kv, ops).refs[op.did] == op.target
  {
    if ops != [] {
      var front, last := ops[..|ops| - 1], ops[|ops| - 1];
      AppliedOnce(kv, front);
      forall op | op in front ensures KeyOf(op) != KeyOf(last) {
        var i :| 0 <= i < |front| && front[i] == op;
      }
      assert forall op :: op in ops <==> op in front || op == last;
    }
  }

  lemma {:induction false} NotApplied(kv: Kv, ops: seq<Op>, key: Key)
    requires forall op :: op in ops ==> KeyOf(op) != key
    ensures key.AddrKey? ==> (key.addr in ApplyAll(kv, ops).addrs <==> key.addr in kv.addrs)
                             && (key.addr in kv.addrs ==> ApplyAll(kv, ops).addrs[key.addr] == kv.addrs[key.addr])
    ensures key.DidKey? ==> (key.did in ApplyAll(kv, ops).refs <==> key.did in kv.refs)
                            && (key.did in kv.refs ==> ApplyAll(kv, ops).refs[key.did] == kv.refs[key.did])
  {
    if ops != [] {
      NotApplied(kv, ops[..|ops| - 1], key);
      assert ops[|ops| - 1] in ops;
    }
  }

  /** What an address key ends as: an entry that decodes is merged over what is stored, one that does not
      is written as it is, and without an entry the key stays. */
  function AddrAfter(kv: Kv, addrs: AddrSet, isHex: HexTest, a: Address): Option<Payload> {
    if a !in addrs then if a in kv.addrs then Some(kv.addrs[a]) else None
    else if addrs[a].Raw? then Some(addrs[a])
    else Some(Doc(Stored(Existing(kv, a), addrs[a].account, isHex)))
  }

  /** A DID reference is set when its account is in the batch or already stored. */
  function RefAfter(kv: Kv, addrs: AddrSet, dids: DidSet, d: string): Option<Address> {
    if d in dids && dids[d].Doc?
       && (dids[d].account.address in addrs || Existing(kv, dids[d].account.address).Some?)
    then Some(dids[d].account.address)
    else if d in kv.refs then Some(kv.refs[d]) else None
  }

  lemma WrittenExactly(kv: Kv, addrs: AddrSet, isHex: HexTest, a: Address)
    ensures AddrAfter(kv, addrs, isHex, a)
            == if Written(kv, addrs, isHex, a) then ToWrite(kv, a, addrs[a], isHex)
               else if a in kv.addrs then Some(kv.addrs[a]) else None
    ensures Written(kv, addrs, isHex, a) || Existing(kv, a).Some? <==> a in addrs || Existing(kv, a).Some?
  {}

  ghost predicate Lists<K(!new), V>(m: map<K, V>, order: seq<K>) {
    Distinct(order) && forall k :: k in order <==> k in m
  }

  /** Whatever order the maps are walked in, every address key ends as the merge of its surviving
      entry over what was stored, and every DID as described. */
  lemma RestoredState(kv: Kv, addrs: AddrSet, dids: DidSet, order: seq<Address>, didOrder: seq<string>, isHex: HexTest,
                      a: Address, d: string)
    requires Lists(addrs, order) && Lists(dids, didOrder)
    ensures var end := ApplyAll(kv, Plan(kv, addrs, dids, order, didOrder, isHex));
            && (if a in end.addrs then Some(end.addrs[a]) else None) == AddrAfter(kv, addrs, isHex, a)
            && (if d in end.refs then Some(end.refs[d]) else None) == RefAfter(kv, addrs, dids, d)
  {
    var ops := Plan(kv, addrs, dids, order, didOrder, isHex);
    WrittenExactly(kv, addrs, isHex, a);
    PlanWritesOnce(kv, addrs, dids, order, didOrder, isHex);
    AppliedOnce(kv, ops);
    FirstPassShape(kv, addrs, dids, order, didOrder, isHex);
    SecondPassShape(kv, addrs, dids, didOrder, isHex);
    if Written(kv, addrs, isHex, a) {
      assert Put(a, ToWrite(kv, a, addrs[a], isHex).value) in ops;
    } else {
      NotApplied(kv, ops, AddrKey(a));
    }
    RestoredRef(kv, addrs, dids, order, didOrder, isHex, d);
  }

  lemma RestoredRef(kv: Kv, addrs: AddrSet, dids: DidSet, order: seq<Address>, didOrder: seq<string>, isHex: HexTest,
                    d: string)
    requires Lists(addrs, order) && Lists(dids, didOrder)
    ensures var end := ApplyAll(kv, Plan(kv, addrs, dids, order, didOrder, isHex));
            (if d in end.refs then Some(end.refs[d]) else None) == RefAfter(kv, addrs, dids, d)
  {
    var ops := Plan(kv, addrs, dids, order, didOrder, isHex);
    PlanWritesOnce(kv, addrs, dids, order, didOrder, isHex);
    AppliedOnce(kv, ops);
    FirstPassShape(kv, addrs, dids, order, didOrder, isHex);
    SecondPassShape(kv, addrs, dids, didOrder, isHex);
    if d in dids && dids[d].Doc? {
      var t := dids[d].account.address;
      WrittenExactly(kv, addrs, isHex, t);
      if Written(kv, addrs, isHex, t) {
        assert FromFirst(kv, addrs, dids, didOrder, isHex, t, Ref(d, t));
        assert Ref(d, t) in ops;
      } else if Existing(kv, t).Some? {
        assert Ref(d, t) in ops;
      } else {
        NotApplied(kv, ops, DidKey(d));
      }
    } else {
      NotApplied(kv, ops, DidKey(d));
    }
  }

  // ----- The operation -----

  /** A map flattened to a slice, in no particular order. */
  method Enumerate<K(==), V>(m: map<K, V>) returns (order: seq<K>)
    ensures Distinct(order) && forall k :: k in order <==> k in m
  {
    order := [];
    var rest := m.Keys;
    while rest != {}
      invariant rest <= m.Keys && Distinct(order) && forall k :: k in order <==> k in m && k !in rest
      decreases rest
    {
      var k :| k in rest;
      order := order + [k];
      rest := rest - {k};
    }
  }

  /** The references grouped under one address key. */
  method GroupRefs(dids: DidSet, didOrder: seq<string>, a: Address) returns (ops: seq<Op>)
    ensures ops == RefsTo(dids, didOrder, a)
  {
    ops := [];
    for i := 0 to |didOrder|
      invariant ops == RefsTo(dids, didOrder[..i], a)
    {
      var d := didOrder[i];
      assert didOrder[..i + 1][..i] == didOrder[..i];
      if d in dids && PointsTo(dids[d], a) {
        ops := ops + [Ref(d, a)];
      }
    }
    assert didOrder[..|didOrder|] == didOrder;
  }

  method PlanAddresses(kv: Kv, addrs: AddrSet, dids: DidSet, order: seq<Address>, didOrder: seq<string>, isHex: HexTest)
    returns (ops: seq<Op>, inBatch: set<Address>)
    requires forall a :: a in order <==> a in addrs
    ensures ops == FirstPass(kv, addrs, dids, order, didOrder, isHex)
    ensures forall a :: a in inBatch <==> Written(kv, addrs, isHex, a)
  {
    ops, inBatch := [], {};
    for i := 0 to |order|
      invariant ops == FirstPass(kv, addrs, dids, order[..i], didOrder, isHex)
      invariant forall a :: a in inBatch <==> a in order[..i] && Written(kv, addrs, isHex, a)
    {
      var a := order[i];
      assert order[..i + 1] == order[..i] + [a] && order[..i + 1][..i] == order[..i];
      var more := PlanAddress(kv, addrs, dids, didOrder, isHex, a);
      ops := ops + more;
      if more != [] {
        inBatch := inBatch + {a};
      }
    }
    assert order[..|order|] == order;
  }

  /** One address: the merged document and the references to it, or nothing. */
  method PlanAddress(kv: Kv, addrs: AddrSet, dids: DidSet, didOrder: seq<string>, isHex: HexTest, a: Address)
    returns (ops: seq<Op>)
    requires a in addrs
    ensures ops == WriteWithRefs(kv, addrs, dids, didOrder, isHex, a)
    ensures ops != [] <==> Written(kv, addrs, isHex, a)
  {
    var value := ToWrite(kv, a, addrs[a], isHex);
    if value.None? {
      return [];
    }
    var refs := GroupRefs(dids, didOrder, a);
    return [Put(a, value.value)] + refs;
  }

  method PlanRefs(kv: Kv, addrs: AddrSet, dids: DidSet, didOrder: seq<string>, isHex: HexTest, inBatch: set<Address>)
    returns (ops: seq<Op>)
    requires forall a :: a in inBatch <==> Written(kv, addrs, isHex, a)
    requires forall d :: d in didOrder ==> d in dids
    ensures ops == SecondPass(kv, addrs, dids, didOrder, isHex)
  {
    ops := [];
    for i := 0 to |didOrder|
      invariant ops == SecondPass(kv, addrs, dids, didOrder[..i], isHex)
    {
      var d := didOrder[i];
      assert didOrder[..i + 1][..i] == didOrder[..i];
      if dids[d].Doc? && dids[d].account.address !in inBatch && Existing(kv, dids[d].account.address).Some? {
        ops := ops + [Ref(d, dids[d].account.address)];
      }
    }
    assert didOrder[..|didOrder|] == didOrder;
  }

  /** What a call leaves behind: a prefix of a plan for the surviving entries. */
  ghost predicate Restored(before: Kv, entries: seq<Entry>, isHex: HexTest, plan: seq<Op>, k: nat, after: Kv) {
    && k <= |plan| && after == ApplyAll(before, plan[..k])
    && exists addrs, dids, order, didOrder :: Planned(before, entries, isHex, plan, addrs, dids, order, didOrder)
  }

  ghost predicate Planned(before: Kv, entries: seq<Entry>, isHex: HexTest, plan: seq<Op>,
                          addrs: AddrSet, dids: DidSet, order: seq<Address>, didOrder: seq<string>) {
    Folded(entries, addrs, dids) && Lists(addrs, order) && Lists(dids, didOrder)
    && plan == Plan(before, addrs, dids, order, didOrder, isHex)
  }

  class AccountsKv {
    var kv: Kv

    constructor (k: Kv)
      ensures kv == k
    {
      kv := k;
    }

    /** `BatchRestoreAccounts`; only `ok` chunks reach the server. */
    method BatchRestoreAccounts(entries: seq<Entry>, isHex: HexTest, ok: nat)
      returns (done: bool, ghost plan: seq<Op>, ghost k: nat)
      modifies this
      ensures !ValidEntries(entries) ==> !done && kv == old(kv)
      ensures ValidEntries(entries) ==> Restored(old(kv), entries, isHex, plan, k, kv) && (done <==> k == |plan|)
      ensures ValidEntries(entries) ==> k == Min(|plan|, 1000 * ok)
      ensures RefsResolve(old(kv)) ==> RefsResolve(kv)
    {
      plan, k := [], 0;
      var valid, addrs, dids := Deduplicate(entries);
      if !valid {
        return false, plan, k;
      }
      var order := Enumerate(addrs);
      var didOrder := Enumerate(dids);
      var first, inBatch := PlanAddresses(kv, addrs, dids, order, didOrder, isHex);
      var second := PlanRefs(kv, addrs, dids, didOrder, isHex, inBatch);
      var ops := first + second;
      plan := ops;
      assert Planned(kv, entries, isHex, plan, addrs, dids, order, didOrder);
      ghost var before := kv;
      k := CommitChunks(ops, ok);
      if RefsResolve(before) {
        RefsNeverDangle(before, addrs, dids, order, didOrder, isHex, k);
      }
      done := CommittedAll(ops, ok);
    }

    /** Chunks of 1000 operations, each its own transaction, until one fails. */
    method CommitChunks(ops: seq<Op>, ok: nat) returns (k: nat)
      modifies this
      ensures k <= |ops| && kv == ApplyAll(old(kv), ops[..k])
      ensures k == Min(|ops|, OPS_PER_TX * ok)
    {
      k := 0;
      var chunk := 0;
      assert ops[..0] == [];
      while k < |ops|
        invariant k <= |ops| && kv == ApplyAll(old(kv), ops[..k])
        invariant chunk <= ok && (k == OPS_PER_TX * chunk || (k == |ops| && CommittedAll(ops, ok)))
      {
        if chunk == ok {
          return;
        }
        var end := if k + OPS_PER_TX > |ops| then |ops| else k + OPS_PER_TX;
        ApplyConcat(old(kv), ops[..k], ops[k..end]);
        assert ops[..k] + ops[k..end] == ops[..end];
        kv := ApplyAll(kv, ops[k..end]);
        k, chunk := end, chunk + 1;
      }
    }
  }

  predicate CommittedAll(ops: seq<Op>, ok: nat) { |ops| <= OPS_PER_TX * ok }

  lemma {:induction false} ApplyConcat(kv: Kv, a: seq<Op>, b: seq<Op>)
    ensures ApplyAll(kv, a + b) == ApplyAll(ApplyAll(kv, a), b)
  {
    if b == [] {
      assert a + b == a;
    } else {
      assert (a + b)[..|a + b| - 1] == a + b[..|b| - 1];
      ApplyConcat(kv, a, b[..|b| - 1]);
    }
  }
}

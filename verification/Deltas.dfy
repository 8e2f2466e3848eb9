/** DB_OPs/account_recon.go, delta half: what a transaction does to each account, and the
    per-account deltas of a whole list of transactions. */
module Deltas {
  import opened Types
  import opened Sums
  import opened Fees

  // ----- The effect of one transaction -----

  datatype Sender = Sender(addr: Address, debit: int, nonce: U64)

  /** Everything one transaction does to the ledger. */
  datatype Effect = Effect(hash: Hash, sender: Option<Sender>, credits: seq<FeeCredit>)

  /** The value that changes hands: a missing, zero or negative value moves nothing. */
  function Moved(tx: Tx): nat {
    if tx.value.Some? && tx.value.value > 0 then tx.value.value else 0
  }

  function SenderOf(tx: Tx): Option<Sender> {
    if tx.from.Some? then Some(Sender(tx.from.value, GasFee(tx) + Moved(tx), tx.nonce)) else None
  }

  function ReceiverCredits(tx: Tx): seq<FeeCredit> {
    if tx.to.Some? && Moved(tx) > 0 then [FeeCredit(tx.to.value, Moved(tx))] else []
  }

  /** A block without a coinbase credits none of its fee recipients either. */
  function CoinbaseSide(fees: FeeTargets, fee: int): seq<FeeCredit> {
    if fees.coinbase.Some? then CoinbaseCredits(fee, fees.coinbase.value, fees.recipients) else []
  }

  function ZkvmSide(fees: FeeTargets, fee: int): seq<FeeCredit> {
    if fees.zkvm.Some? then [FeeCredit(fees.zkvm.value, ZkvmShare(fee))] else []
  }

  function FeeCredits(fees: FeeTargets, fee: int): seq<FeeCredit> {
    CoinbaseSide(fees, fee) + ZkvmSide(fees, fee)
  }

  function EffectOf(fees: FeeTargets, tx: Tx): Effect {
    Effect(tx.hash, SenderOf(tx), ReceiverCredits(tx) + FeeCredits(fees, GasFee(tx)))
  }

  function EffectsOf(fees: FeeTargets, txs: seq<Tx>): (log: seq<Effect>)
    ensures |log| == |txs|
    ensures forall i :: 0 <= i < |txs| ==> log[i] == EffectOf(fees, txs[i])
  {
    seq(|txs|, i requires 0 <= i < |txs| => EffectOf(fees, txs[i]))
  }

  // ----- Account by account -----

  predicate Sends(e: Effect, x: Address) { e.sender.Some? && e.sender.value.addr == x }

  /** The change one transaction makes to the balance of `x`, whatever roles `x` plays in it. */
  function BalanceOn(x: Address): Effect -> int {
    (e: Effect) => (if Sends(e, x) then -e.sender.value.debit else 0) + CreditSum(e.credits, x)
  }

  function SentOn(x: Address): Effect -> int {
    (e: Effect) => if Sends(e, x) then 1 else 0
  }

  function CreditedBy(cs: seq<FeeCredit>): set<Address> {
    set c | c in cs :: c.addr
  }

  function Touched(e: Effect): set<Address> {
    (if e.sender.Some? then {e.sender.value.addr} else {}) + CreditedBy(e.credits)
  }

  /** What one transaction does to the balance of `x`: the sender pays value and fee, the receiver gets
      the value, ZKVM half of the fee, and the coinbase side what `SplitMeaning` says of the rest. */
  lemma {:induction false} EffectMeaning(fees: FeeTargets, tx: Tx, x: Address)
    ensures BalanceOn(x)(EffectOf(fees, tx))
            == - (if tx.from == Some(x) then Moved(tx) + GasFee(tx) else 0)
               + (if tx.to == Some(x) then Moved(tx) else 0)
               + (if fees.zkvm == Some(x) then GasFee(tx) / 2 else 0)
               + (if fees.coinbase.Some?
                  then CreditSum(CoinbaseCredits(GasFee(tx), fees.coinbase.value, fees.recipients), x) else 0)
    ensures SentOn(x)(EffectOf(fees, tx)) == if tx.from == Some(x) then 1 else 0
    ensures NonceOn(EffectOf(fees, tx), x) == if tx.from == Some(x) then Inc(tx.nonce) else 0
  {
    ReceiverMeaning(tx, x);
    FeeMeaning(fees, GasFee(tx), x);
    PartsMeaning(EffectOf(fees, tx), ReceiverCredits(tx), FeeCredits(fees, GasFee(tx)), x);
  }

  lemma PartsMeaning(e: Effect, receiver: seq<FeeCredit>, fee: seq<FeeCredit>, x: Address)
    requires e.credits == receiver + fee
    ensures BalanceOn(x)(e)
            == (if Sends(e, x) then -e.sender.value.debit else 0) + CreditSum(receiver, x) + CreditSum(fee, x)
  {
    SumConcat(receiver, fee, AmountTo(x));
  }

  lemma {:induction false} ReceiverMeaning(tx: Tx, x: Address)
    ensures CreditSum(ReceiverCredits(tx), x) == if tx.to == Some(x) then Moved(tx) else 0
  {
    if ReceiverCredits(tx) != [] {
      SumOne(ReceiverCredits(tx)[0], AmountTo(x));
    }
  }

  lemma {:induction false} FeeMeaning(fees: FeeTargets, fee: int, x: Address)
    ensures CreditSum(FeeCredits(fees, fee), x)
            == (if fees.zkvm == Some(x) then fee / 2 else 0)
               + (if fees.coinbase.Some?
                  then CreditSum(CoinbaseCredits(fee, fees.coinbase.value, fees.recipients), x) else 0)
  {
    SumConcat(CoinbaseSide(fees, fee), ZkvmSide(fees, fee), AmountTo(x));
    if fees.zkvm.Some? {
      SumOne(FeeCredit(fees.zkvm.value, fee / 2), AmountTo(x));
    }
  }

  // ----- The effect of a list of transactions -----

  function BalanceSum(log: seq<Effect>, x: Address): int { SumBy(log, BalanceOn(x)) }
  function SentSum(log: seq<Effect>, x: Address): int { SumBy(log, SentOn(x)) }

  function NonceOn(e: Effect, x: Address): U64 {
    if Sends(e, x) then Inc(e.sender.value.nonce) else 0
  }

  /** The highest nonce candidate `x` earned as a sender; zero if it sent nothing. */
  function NonceMax(log: seq<Effect>, x: Address): U64 {
    if log == [] then 0 else Max(NonceMax(log[..|log| - 1], x), NonceOn(log[|log| - 1], x))
  }

  function TouchedBy(log: seq<Effect>): set<Address> {
    set e, x | e in log && x in Touched(e) :: x
  }

  // ----- The delta map the node builds -----

  datatype Delta = Delta(balance: int, txNonce: U64, sent: nat, isSender: bool)

  type DeltaMap = map<Address, Delta>

  function At(m: DeltaMap, a: Address): Delta {
    if a in m then m[a] else Delta(0, 0, 0, false)
  }

  function Credit(m: DeltaMap, c: FeeCredit): DeltaMap {
    m[c.addr := At(m, c.addr).(balance := At(m, c.addr).balance + c.amount)]
  }

  function CreditAll(m: DeltaMap, cs: seq<FeeCredit>): DeltaMap {
    if cs == [] then m else Credit(CreditAll(m, cs[..|cs| - 1]), cs[|cs| - 1])
  }

  /** First touch or ascending: the sender's nonce candidate only ever rises. */
  function DebitSender(m: DeltaMap, s: Sender): DeltaMap {
    var d := At(m, s.addr);
    var candidate := Inc(s.nonce);
    var nonce := if !d.isSender || candidate > d.txNonce then candidate else d.txNonce;
    m[s.addr := Delta(d.balance - s.debit, nonce, d.sent + 1, true)]
  }

  function AddEffect(m: DeltaMap, e: Effect): DeltaMap {
    CreditAll(if e.sender.Some? then DebitSender(m, e.sender.value) else m, e.credits)
  }

  function DeltasOf(log: seq<Effect>): DeltaMap {
    if log == [] then map[] else AddEffect(DeltasOf(log[..|log| - 1]), log[|log| - 1])
  }

  /** The transactions of a block that are not skipped, in block order. */
  function Kept(txs: seq<Tx>, skip: set<Hash>): (r: seq<Tx>)
    ensures forall t :: t in r <==> t in txs && t.hash !in skip
  {
    if txs == [] then []
    else
      var t := txs[|txs| - 1];
      var front := Kept(txs[..|txs| - 1], skip);
      if t.hash in skip then front else front + [t]
  }

  /** `ComputeBlockDeltas`: one pass over the block, updating the delta map in place. */
  method ComputeBlockDeltas(blk: Block, skip: set<Hash>) returns (deltas: DeltaMap)
    ensures deltas == DeltasOf(EffectsOf(blk.fees, Kept(blk.txs, skip)))
  {
    deltas := map[];
    for i := 0 to |blk.txs|
      invariant deltas == DeltasOf(EffectsOf(blk.fees, Kept(blk.txs[..i], skip)))
    {
      var tx := blk.txs[i];
      assert blk.txs[..i + 1][..i] == blk.txs[..i];
      if tx.hash in skip {
        continue;
      }
      ghost var kept := Kept(blk.txs[..i], skip);
      assert EffectsOf(blk.fees, kept + [tx])[..|kept|] == EffectsOf(blk.fees, kept);
      deltas := AddInPlace(deltas, blk.fees, tx);
    }
    assert blk.txs[..|blk.txs|] == blk.txs;
  }

  /** The body of that pass. */
  method AddInPlace(m: DeltaMap, fees: FeeTargets, tx: Tx) returns (deltas: DeltaMap)
    ensures deltas == AddEffect(m, EffectOf(fees, tx))
  {
    var gasFee := GasFee(tx);
    deltas := m;
    if tx.from.Some? {
      deltas := DebitInPlace(m, tx, gasFee);
    }
    CreditOrder(deltas, fees, tx, gasFee);
    deltas := CreditReceiver(deltas, tx);
    deltas := CreditFees(deltas, fees, gasFee);
  }

  /** Receiver first, then the fees: the order in which the pass credits one transaction. */
  lemma CreditOrder(m: DeltaMap, fees: FeeTargets, tx: Tx, fee: int)
    requires fee == GasFee(tx)
    ensures CreditAll(m, EffectOf(fees, tx).credits) == CreditAll(CreditAll(m, ReceiverCredits(tx)),
                                                                  FeeCredits(fees, fee))
  {
    var a, b := ReceiverCredits(tx), FeeCredits(fees, fee);
    CreditAllConcat(m, a, b);
  }

  method DebitInPlace(m: DeltaMap, tx: Tx, gasFee: int) returns (deltas: DeltaMap)
    requires tx.from.Some?
    ensures deltas == DebitSender(m, Sender(tx.from.value, gasFee + Moved(tx), tx.nonce))
  {
    var d := At(m, tx.from.value);
    var balance := d.balance - gasFee;
    if tx.value.Some? && tx.value.value > 0 {
      balance := balance - tx.value.value;
    }
    var nonce := d.txNonce;
    if !d.isSender || Inc(tx.nonce) > d.txNonce {
      nonce := Inc(tx.nonce);
    }
    deltas := m[tx.from.value := Delta(balance, nonce, d.sent + 1, true)];
  }

  method CreditReceiver(m: DeltaMap, tx: Tx) returns (deltas: DeltaMap)
    ensures deltas == CreditAll(m, ReceiverCredits(tx))
  {
    deltas := m;
    if tx.to.Some? && tx.value.Some? && tx.value.value > 0 {
      deltas := Credit(deltas, FeeCredit(tx.to.value, tx.value.value));
      CreditAllSnoc(m, [], FeeCredit(tx.to.value, tx.value.value));
    }
  }

  method CreditFees(m: DeltaMap, fees: FeeTargets, gasFee: int) returns (deltas: DeltaMap)
    ensures deltas == CreditAll(m, FeeCredits(fees, gasFee))
  {
    var coinbase := if fees.coinbase.Some? then fees.coinbase.value else 0;
    var zkvmShare, credits := SplitFee(gasFee, coinbase, fees.recipients);
    deltas := m;
    if fees.coinbase.Some? {
      deltas := CreditEach(deltas, credits);
    }
    if fees.zkvm.Some? {
      CreditAllSnoc(m, CoinbaseSide(fees, gasFee), FeeCredit(fees.zkvm.value, zkvmShare));
      deltas := Credit(deltas, FeeCredit(fees.zkvm.value, zkvmShare));
    } else {
      assert FeeCredits(fees, gasFee) == CoinbaseSide(fees, gasFee);
    }
  }

  method CreditEach(m: DeltaMap, credits: seq<FeeCredit>) returns (deltas: DeltaMap)
    ensures deltas == CreditAll(m, credits)
  {
    deltas := m;
    for j := 0 to |credits|
      invariant deltas == CreditAll(m, credits[..j])
    {
      assert credits[..j + 1] == credits[..j] + [credits[j]];
      CreditAllSnoc(m, credits[..j], credits[j]);
      deltas := Credit(deltas, credits[j]);
    }
    assert credits[..|credits|] == credits;
  }

  lemma CreditAllSnoc(m: DeltaMap, cs: seq<FeeCredit>, c: FeeCredit)
    ensures CreditAll(m, cs + [c]) == Credit(CreditAll(m, cs), c)
  {
    assert (cs + [c])[..|cs|] == cs;
  }

  lemma {:induction false} CreditAllConcat(m: DeltaMap, a: seq<FeeCredit>, b: seq<FeeCredit>)
    ensures CreditAll(m, a + b) == CreditAll(CreditAll(m, a), b)
  {
    if b == [] {
      assert a + b == a;
    } else {
      assert (a + b)[..|a + b| - 1] == a + b[..|b| - 1];
      CreditAllConcat(m, a, b[..|b| - 1]);
    }
  }

  // ----- What the delta map means -----

  lemma {:induction false} CreditAllMeaning(m: DeltaMap, cs: seq<FeeCredit>, x: Address)
    ensures var r := CreditAll(m, cs);
            && (x in r <==> x in m || x in CreditedBy(cs))
            && At(r, x) == At(m, x).(balance := At(m, x).balance + CreditSum(cs, x))
  {
    if cs != [] {
      CreditAllMeaning(m, cs[..|cs| - 1], x);
      assert CreditedBy(cs) == CreditedBy(cs[..|cs| - 1]) + {cs[|cs| - 1].addr};
    }
  }

  /** `d` is exactly the aggregate effect of `log` on account `x`. */
  ghost predicate Describes(m: DeltaMap, log: seq<Effect>, x: Address) {
    var d := At(m, x);
    && (x in m <==> x in TouchedBy(log))
    && d.balance == BalanceSum(log, x)
    && d.sent == SentSum(log, x)
    && d.txNonce == NonceMax(log, x)
    && (d.isSender <==> d.sent > 0)
  }

  /** The map built transaction by transaction holds, for every account, the sum of the
      effects of the transactions on it, however sender, receiver, coinbase, fee
      recipients and ZKVM coincide. */
  lemma {:induction false} DeltasMeaning(log: seq<Effect>, x: Address)
    ensures Describes(DeltasOf(log), log, x)
  {
    if log != [] {
      var front, e := log[..|log| - 1], log[|log| - 1];
      DeltasMeaning(front, x);
      NoSenderNoNonce(front, x);
      AddEffectMeaning(DeltasOf(front), e, x);
      assert x in TouchedBy(log) <==> x in TouchedBy(front) || x in Touched(e) by {
        assert forall f :: f in log <==> f in front || f == e;
      }
    }
  }

  lemma AddEffectMeaning(m: DeltaMap, e: Effect, x: Address)
    requires !At(m, x).isSender ==> At(m, x).txNonce == 0
    ensures var r, d := AddEffect(m, e), At(m, x);
            && (x in r <==> x in m || x in Touched(e))
            && At(r, x) == Delta(d.balance + BalanceOn(x)(e), Max(d.txNonce, NonceOn(e, x)),
                                 d.sent + SentOn(x)(e), d.isSender || Sends(e, x))
  {
    CreditAllMeaning(if e.sender.Some? then DebitSender(m, e.sender.value) else m, e.credits, x);
  }

  lemma {:induction false} NoSenderNoNonce(log: seq<Effect>, x: Address)
    ensures SentSum(log, x) >= 0
    ensures SentSum(log, x) == 0 ==> NonceMax(log, x) == 0
  {
    if log != [] {
      NoSenderNoNonce(log[..|log| - 1], x);
    }
  }

  // ----- Additivity -----

  /** Applying `a` and then `b` is applying `a + b`: the effect of a list does not depend
      on where it is cut. */
  lemma {:induction false} EffectsConcat(a: seq<Effect>, b: seq<Effect>, x: Address)
    ensures BalanceSum(a + b, x) == BalanceSum(a, x) + BalanceSum(b, x)
    ensures SentSum(a + b, x) == SentSum(a, x) + SentSum(b, x)
    ensures NonceMax(a + b, x) == Max(NonceMax(a, x), NonceMax(b, x))
    ensures TouchedBy(a + b) == TouchedBy(a) + TouchedBy(b)
  {
    SumConcat(a, b, BalanceOn(x));
    SumConcat(a, b, SentOn(x));
    NonceConcat(a, b, x);
    assert forall p :: p in a + b <==> p in a || p in b;
  }

  lemma {:induction false} NonceConcat(a: seq<Effect>, b: seq<Effect>, x: Address)
    ensures NonceMax(a + b, x) == Max(NonceMax(a, x), NonceMax(b, x))
  {
    if b == [] {
      assert a + b == a;
    } else {
      assert (a + b)[..|a + b| - 1] == a + b[..|b| - 1];
      NonceConcat(a, b[..|b| - 1], x);
    }
  }

  lemma {:induction false} NonceMaxIsBound(log: seq<Effect>, x: Address)
    ensures forall e :: e in log ==> NonceOn(e, x) <= NonceMax(log, x)
    ensures NonceMax(log, x) > 0 ==> exists e :: e in log && NonceOn(e, x) == NonceMax(log, x)
  {
    if log != [] {
      NonceMaxIsBound(log[..|log| - 1], x);
      assert forall p :: p in log <==> p in log[..|log| - 1] || p == log[|log| - 1];
    }
  }

  /** The effect of a list does not depend on the order of the list. */
  lemma EffectsPermute(a: seq<Effect>, b: seq<Effect>, x: Address)
    requires multiset(a) == multiset(b)
    ensures BalanceSum(a, x) == BalanceSum(b, x)
    ensures SentSum(a, x) == SentSum(b, x)
    ensures NonceMax(a, x) == NonceMax(b, x)
    ensures TouchedBy(a) == TouchedBy(b)
  {
    SumPermutation(a, b, BalanceOn(x));
    SumPermutation(a, b, SentOn(x));
    assert forall p :: p in a <==> p in multiset(a);
    assert forall p :: p in b <==> p in multiset(b);
    NonceMaxIsBound(a, x);
    NonceMaxIsBound(b, x);
  }
}

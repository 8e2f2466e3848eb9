/** No wei is created or lost by a block, except where the block names no one to receive it. */
module Conservation {
  import opened Types
  import opened Sums
  import opened Fees
  import opened Deltas

  /** The sum of all balance deltas of a map. */
  ghost function Total(m: DeltaMap): int {
    if m == map[] then 0
    else
      var a :| a in m;
      m[a].balance + Total(m - {a})
  }

  lemma {:induction false} TotalWithout(m: DeltaMap, a: Address)
    requires a in m
    ensures Total(m) == m[a].balance + Total(m - {a})
    decreases |m|
  {
    var b :| b in m && Total(m) == m[b].balance + Total(m - {b});
    if a != b {
      TotalWithout(m - {b}, a);
      TotalWithout(m - {a}, b);
      assert m - {a} - {b} == m - {b} - {a};
    }
  }

  lemma TotalUpdate(m: DeltaMap, a: Address, d: Delta)
    ensures Total(m[a := d]) == Total(m) - At(m, a).balance + d.balance
  {
    TotalWithout(m[a := d], a);
    if a in m {
      TotalWithout(m, a);
      assert m[a := d] - {a} == m - {a};
    } else {
      assert m[a := d] - {a} == m;
    }
  }

  lemma {:induction false} TotalCreditAll(m: DeltaMap, cs: seq<FeeCredit>)
    ensures Total(CreditAll(m, cs)) == Total(m) + CreditTotal(cs)
  {
    if cs != [] {
      var front, c := cs[..|cs| - 1], cs[|cs| - 1];
      TotalCreditAll(m, front);
      var r := CreditAll(m, front);
      TotalUpdate(r, c.addr, At(r, c.addr).(balance := At(r, c.addr).balance + c.amount));
    }
  }

  /** What a transaction adds to the money in circulation. */
  function Net(e: Effect): int {
    CreditTotal(e.credits) - (if e.sender.Some? then e.sender.value.debit else 0)
  }

  lemma {:induction false} TotalIsNet(log: seq<Effect>)
    ensures Total(DeltasOf(log)) == SumBy(log, Net)
  {
    if log != [] {
      var front, e := log[..|log| - 1], log[|log| - 1];
      TotalIsNet(front);
      var m := DeltasOf(front);
      var debited := if e.sender.Some? then DebitSender(m, e.sender.value) else m;
      if e.sender.Some? {
        TotalUpdate(m, e.sender.value.addr, debited[e.sender.value.addr]);
      }
      TotalCreditAll(debited, e.credits);
    }
  }

  /** The part of what a sender pays that no one receives. */
  function Leak(fees: FeeTargets, tx: Tx): int {
    (if tx.to.None? then Moved(tx) else 0)
    + (if fees.coinbase.None? then CoinbaseShare(GasFee(tx)) else 0)
    + (if fees.zkvm.None? then ZkvmShare(GasFee(tx)) else 0)
  }

  lemma CreditTotals(fees: FeeTargets, fee: int)
    ensures CreditTotal(CoinbaseSide(fees, fee)) == (if fees.coinbase.Some? then CoinbaseShare(fee) else 0)
    ensures CreditTotal(ZkvmSide(fees, fee)) == (if fees.zkvm.Some? then ZkvmShare(fee) else 0)
    ensures CreditTotal(FeeCredits(fees, fee))
            == CreditTotal(CoinbaseSide(fees, fee)) + CreditTotal(ZkvmSide(fees, fee))
  {
    if fees.coinbase.Some? {
      SplitExact(fee, fees.coinbase.value, fees.recipients);
    }
    if fees.zkvm.Some? {
      SumOne(FeeCredit(fees.zkvm.value, ZkvmShare(fee)), AmountOf);
    }
    SumConcat(CoinbaseSide(fees, fee), ZkvmSide(fees, fee), AmountOf);
  }

  lemma NetIsLeak(fees: FeeTargets, tx: Tx)
    requires tx.from.Some?
    ensures Net(EffectOf(fees, tx)) == -Leak(fees, tx)
  {
    var fee := GasFee(tx);
    CreditTotals(fees, fee);
    SumConcat(ReceiverCredits(tx), FeeCredits(fees, fee), AmountOf);
    if tx.to.Some? && Moved(tx) > 0 {
      SumOne(FeeCredit(tx.to.value, Moved(tx)), AmountOf);
    }
  }

  /** The deltas of any list of sent transactions sum to minus what was sent to no receiver
      and minus the fee shares with no address to take them, however the addresses coincide. */
  lemma {:induction false} BlockConservation(fees: FeeTargets, txs: seq<Tx>)
    requires forall t :: t in txs ==> t.from.Some?
    ensures Total(DeltasOf(EffectsOf(fees, txs))) == -SumBy(txs, (t: Tx) => Leak(fees, t))
  {
    var log := EffectsOf(fees, txs);
    TotalIsNet(log);
    NetSum(fees, txs);
  }

  lemma {:induction false} NetSum(fees: FeeTargets, txs: seq<Tx>)
    requires forall t :: t in txs ==> t.from.Some?
    ensures SumBy(EffectsOf(fees, txs), Net) == -SumBy(txs, (t: Tx) => Leak(fees, t))
  {
    if txs != [] {
      var n := |txs| - 1;
      NetSum(fees, txs[..n]);
      NetIsLeak(fees, txs[n]);
      assert EffectsOf(fees, txs)[..n] == EffectsOf(fees, txs[..n]);
    }
  }

  /** With every address named, a block only moves money. */
  lemma {:induction false} BlockConservesExactly(fees: FeeTargets, txs: seq<Tx>)
    requires fees.coinbase.Some? && fees.zkvm.Some?
    requires forall t :: t in txs ==> t.from.Some? && t.to.Some?
    ensures Total(DeltasOf(EffectsOf(fees, txs))) == 0
  {
    BlockConservation(fees, txs);
    NothingLeaks(fees, txs);
  }

  lemma {:induction false} NothingLeaks(fees: FeeTargets, txs: seq<Tx>)
    requires fees.coinbase.Some? && fees.zkvm.Some?
    requires forall t :: t in txs ==> t.to.Some?
    ensures SumBy(txs, (t: Tx) => Leak(fees, t)) == 0
  {
    if txs != [] {
      NothingLeaks(fees, txs[..|txs| - 1]);
    }
  }
}

/** config/gasfee.go: what a transaction pays in gas, and who is credited with it. */
module Fees {
  import opened Types
  import opened Sums

  const BASE_FEE_WEI: int := 35_000_000_000
  const FALLBACK_GAS_PRICE_WEI: int := 1_000_000_000
  const FALLBACK_GAS_LIMIT: nat := 21000

  function OrElse(o: Option<int>, d: int): int {
    if o.Some? then o.value else d
  }

  function EffectiveGasPrice(tx: Tx): int {
    if tx.kind == 2 then
      var cap := OrElse(tx.maxFee, BASE_FEE_WEI);
      var basePlusTip := BASE_FEE_WEI + OrElse(tx.maxPriorityFee, 0);
      if cap <= basePlusTip then cap else basePlusTip
    else if tx.gasPrice.Some? then tx.gasPrice.value
    else if tx.maxFee.Some? then tx.maxFee.value
    else OrElse(tx.maxPriorityFee, FALLBACK_GAS_PRICE_WEI)
  }

  function EffectiveGasLimit(tx: Tx): nat {
    if tx.gasLimit == 0 then FALLBACK_GAS_LIMIT else tx.gasLimit
  }

  /** `n` units at `price`, added up; proofs that only move fees around then stay linear. */
  function Cost(n: nat, price: int): int {
    if n == 0 then 0 else Cost(n - 1, price) + price
  }

  function GasFee(tx: Tx): int {
    Cost(EffectiveGasLimit(tx), EffectiveGasPrice(tx))
  }

  lemma {:induction false} CostIsProduct(n: nat, price: int)
    ensures Cost(n, price) == n * price
  {
    if n > 0 {
      CostIsProduct(n - 1, price);
    }
  }

  /** The fee is gas limit times gas price, and is non-negative when the price is. */
  lemma GasFeeIsProduct(tx: Tx)
    ensures GasFee(tx) == EffectiveGasLimit(tx) * EffectiveGasPrice(tx)
    ensures EffectiveGasPrice(tx) >= 0 ==> GasFee(tx) >= 0
  {
    CostIsProduct(EffectiveGasLimit(tx), EffectiveGasPrice(tx));
  }

  /** What a unit of gas costs. A kind-2 transaction pays the smaller of its cap and 35 gwei plus its
      tip; any other its gas price, or else its cap, or else its tip, or else one gwei. */
  lemma GasPriceExactly(tx: Tx)
    ensures tx.kind == 2 ==>
              EffectiveGasPrice(tx) == Min(OrElse(tx.maxFee, 35_000_000_000),
                                           35_000_000_000 + OrElse(tx.maxPriorityFee, 0))
    ensures tx.kind != 2 && tx.gasPrice.Some? ==> EffectiveGasPrice(tx) == tx.gasPrice.value
    ensures tx.kind != 2 && tx.gasPrice.None? && tx.maxFee.Some? ==> EffectiveGasPrice(tx) == tx.maxFee.value
    ensures tx.kind != 2 && tx.gasPrice.None? && tx.maxFee.None? ==>
              EffectiveGasPrice(tx) == OrElse(tx.maxPriorityFee, 1_000_000_000)
    ensures EffectiveGasLimit(tx) == if tx.gasLimit > 0 then tx.gasLimit else 21000
  {}

  // ----- Splitting one fee -----

  datatype FeeCredit = FeeCredit(addr: Address, amount: int)

  function AmountOf(c: FeeCredit): int { c.amount }
  function AmountTo(x: Address): FeeCredit -> int {
    (c: FeeCredit) => if c.addr == x then c.amount else 0
  }

  /** Everything credited, and everything credited to `x`. */
  function CreditTotal(cs: seq<FeeCredit>): int { SumBy(cs, AmountOf) }
  function CreditSum(cs: seq<FeeCredit>, x: Address): int { SumBy(cs, AmountTo(x)) }

  ghost predicate NonNegative(cs: seq<FeeCredit>) { forall c :: c in cs ==> c.amount >= 0 }

  lemma {:induction false} CreditsNonNegative(cs: seq<FeeCredit>, x: Address)
    requires NonNegative(cs)
    ensures CreditSum(cs, x) >= 0
  {
    if cs != [] {
      CreditsNonNegative(cs[..|cs| - 1], x);
    }
  }

  function ZkvmShare(fee: int): int { fee / 2 }
  function CoinbaseShare(fee: int): int { fee - fee / 2 }

  function WeightOf(r: FeeRecipient): int { r.weight }
  function TotalWeight(rs: seq<FeeRecipient>): int { SumBy(rs, WeightOf) }

  predicate ByAddress(rs: seq<FeeRecipient>) {
    forall i, j :: 0 <= i < j < |rs| ==> rs[i].addr <= rs[j].addr
  }

  /** How many of the ordered recipients stay in front of address `a`. */
  function Position(a: Address, rs: seq<FeeRecipient>): (k: nat)
    requires ByAddress(rs)
    ensures k <= |rs|
    ensures forall i :: 0 <= i < k ==> rs[i].addr <= a
    ensures forall i :: k <= i < |rs| ==> a < rs[i].addr
  {
    if rs == [] || rs[|rs| - 1].addr <= a then |rs| else Position(a, rs[..|rs| - 1])
  }

  function Insert(r: FeeRecipient, rs: seq<FeeRecipient>): (out: seq<FeeRecipient>)
    requires ByAddress(rs)
    ensures ByAddress(out) && multiset(out) == multiset(rs) + multiset{r}
  {
    var k := Position(r.addr, rs);
    assert rs == rs[..k] + rs[k..];
    rs[..k] + [r] + rs[k..]
  }

  /** The recipients in canonical order: a copy sorted by address. */
  function Canonical(rs: seq<FeeRecipient>): (out: seq<FeeRecipient>)
    ensures ByAddress(out) && multiset(out) == multiset(rs)
  {
    if rs == [] then []
    else
      assert rs == rs[..|rs| - 1] + [rs[|rs| - 1]];
      Insert(rs[|rs| - 1], Canonical(rs[..|rs| - 1]))
  }

  /** What each recipient is due before the remainder is placed, rounded down. */
  function Portion(share: int, total: int): FeeRecipient -> int {
    (r: FeeRecipient) => if r.weight == 0 || total <= 0 then 0 else share * r.weight / total
  }

  /** One credit per recipient of positive weight, in the given order. */
  function Portions(due: FeeRecipient -> int, rs: seq<FeeRecipient>): seq<FeeCredit> {
    if rs == [] then []
    else
      var r := rs[|rs| - 1];
      Portions(due, rs[..|rs| - 1]) + (if r.weight == 0 then [] else [FeeCredit(r.addr, due(r))])
  }

  /** The first credit also takes what integer division left over. */
  function WithRemainder(share: int, cs: seq<FeeCredit>): seq<FeeCredit> {
    var rem := share - CreditTotal(cs);
    if rem != 0 && cs != [] then cs[0 := cs[0].(amount := cs[0].amount + rem)] else cs
  }

  /** The distribution over recipients already put in some order. */
  function Distribute(share: int, coinbase: Address, ordered: seq<FeeRecipient>): seq<FeeCredit> {
    if ordered == [] || TotalWeight(ordered) <= 0 then [FeeCredit(coinbase, share)]
    else WithRemainder(share, Portions(Portion(share, TotalWeight(ordered)), ordered))
  }

  function CoinbaseCredits(fee: int, coinbase: Address, recipients: seq<FeeRecipient>): seq<FeeCredit> {
    Distribute(CoinbaseShare(fee), coinbase, Canonical(recipients))
  }

  /** `SplitFee` as the node runs it: two passes over the recipients and a correction
      written into the first credit. */
  method SplitFee(fee: int, coinbase: Address, recipients: seq<FeeRecipient>)
    returns (zkvmShare: int, credits: seq<FeeCredit>)
    ensures zkvmShare == ZkvmShare(fee)
    ensures credits == CoinbaseCredits(fee, coinbase, recipients)
    ensures zkvmShare + CreditTotal(credits) == fee
  {
    zkvmShare := fee / 2;
    var share := fee - zkvmShare;
    var total := SumWeights(recipients);
    var ordered := Canonical(recipients);
    assert total == TotalWeight(ordered) && |ordered| == |recipients| by {
      SumPermutation(recipients, ordered, WeightOf);
      assert |multiset(ordered)| == |multiset(recipients)|;
    }
    credits := DistributeOrdered(share, coinbase, total, ordered);
    SplitExact(fee, coinbase, recipients);
  }

  /** The coinbase side, once the recipients are in order and their weight is known. */
  method DistributeOrdered(share: int, coinbase: Address, total: int, ordered: seq<FeeRecipient>)
    returns (credits: seq<FeeCredit>)
    requires total == TotalWeight(ordered) && total >= 0
    ensures credits == Distribute(share, coinbase, ordered)
  {
    if |ordered| == 0 || total == 0 {
      return [FeeCredit(coinbase, share)];
    }
    var distributed;
    credits, distributed := CreditOrdered(share, total, ordered);
    var rem := share - distributed;
    if rem != 0 && |credits| > 0 {
      credits := credits[0 := credits[0].(amount := credits[0].amount + rem)];
    }
  }

  /** The pass that adds up the positive weights. */
  method SumWeights(recipients: seq<FeeRecipient>) returns (total: int)
    ensures total == TotalWeight(recipients) && total >= 0
  {
    total := 0;
    for i := 0 to |recipients|
      invariant total == TotalWeight(recipients[..i]) && total >= 0
    {
      assert recipients[..i + 1][..i] == recipients[..i];
      if recipients[i].weight > 0 {
        total := total + recipients[i].weight;
      }
    }
    assert recipients[..|recipients|] == recipients;
  }

  /** The pass over the ordered recipients that emits credits and counts what went out. */
  method CreditOrdered(share: int, total: int, ordered: seq<FeeRecipient>)
    returns (credits: seq<FeeCredit>, distributed: int)
    requires total > 0
    ensures credits == Portions(Portion(share, total), ordered)
    ensures distributed == CreditTotal(credits)
  {
    credits, distributed := [], 0;
    for i := 0 to |ordered|
      invariant credits == Portions(Portion(share, total), ordered[..i])
      invariant distributed == CreditTotal(credits)
    {
      assert ordered[..i + 1][..i] == ordered[..i];
      if ordered[i].weight != 0 {
        var c := FeeCredit(ordered[i].addr, share * ordered[i].weight / total);
        SumConcat(credits, [c], AmountOf);
        SumOne(c, AmountOf);
        credits := credits + [c];
        distributed := distributed + c.amount;
      }
    }
    assert ordered[..|ordered|] == ordered;
  }

  // ----- What the split guarantees -----

  lemma {:induction false} WeightsNonNegative(rs: seq<FeeRecipient>)
    ensures TotalWeight(rs) >= 0
    ensures TotalWeight(rs) > 0 <==> exists r :: r in rs && r.weight > 0
  {
    if rs != [] {
      var n := |rs| - 1;
      WeightsNonNegative(rs[..n]);
      if r :| r in rs && r.weight > 0 {
        assert r in rs[..n] || r == rs[n];
      }
    }
  }

  /** Which recipients end up with a credit. */
  lemma {:induction false} PortionsWho(due: FeeRecipient -> int, rs: seq<FeeRecipient>)
    ensures forall c :: c in Portions(due, rs) ==>
              exists r :: r in rs && r.weight > 0 && c == FeeCredit(r.addr, due(r))
    ensures forall r :: r in rs && r.weight > 0 ==> FeeCredit(r.addr, due(r)) in Portions(due, rs)
  {
    if rs != [] {
      PortionsWho(due, rs[..|rs| - 1]);
    }
  }

  lemma PortionsNonEmpty(due: FeeRecipient -> int, rs: seq<FeeRecipient>)
    ensures Portions(due, rs) != [] <==> TotalWeight(rs) > 0
  {
    PortionsWho(due, rs);
    WeightsNonNegative(rs);
    if Portions(due, rs) != [] {
      assert Portions(due, rs)[0] in Portions(due, rs);
    }
  }

  lemma UpdateFirst(cs: seq<FeeCredit>, extra: int, f: FeeCredit -> int)
    requires cs != []
    ensures var c := cs[0].(amount := cs[0].amount + extra);
            SumBy(cs[0 := c], f) == SumBy(cs, f) - f(cs[0]) + f(c)
  {
    var c := cs[0].(amount := cs[0].amount + extra);
    SumWithout(cs, 0, f);
    SumWithout(cs[0 := c], 0, f);
    assert Without(cs, 0) == Without(cs[0 := c], 0);
  }

  /** The ZKVM share and the credits add up to the fee, to the wei, for every fee,
      every coinbase and every recipient list. */
  lemma SplitExact(fee: int, coinbase: Address, recipients: seq<FeeRecipient>)
    ensures ZkvmShare(fee) + CreditTotal(CoinbaseCredits(fee, coinbase, recipients)) == fee
  {
    DistributeExact(CoinbaseShare(fee), coinbase, Canonical(recipients));
  }

  lemma DistributeExact(share: int, coinbase: Address, ordered: seq<FeeRecipient>)
    ensures CreditTotal(Distribute(share, coinbase, ordered)) == share
  {
    var due := Portion(share, TotalWeight(ordered));
    var cs := Portions(due, ordered);
    PortionsNonEmpty(due, ordered);
    if cs != [] {
      UpdateFirst(cs, share - CreditTotal(cs), AmountOf);
    }
    SumOne(FeeCredit(coinbase, share), AmountOf);
  }

  lemma FloorMul(a: int, b: int)
    requires b > 0
    ensures b * (a / b) <= a
  {}

  lemma Distribute3(k: int, a: int, b: int)
    ensures k * (a + b) == k * a + k * b
  {}

  /** Rounding down never hands out more than the share. */
  lemma {:induction false} PortionsBelow(share: int, total: int, rs: seq<FeeRecipient>)
    requires share >= 0 && total > 0
    ensures total * SumBy(rs, Portion(share, total)) <= share * TotalWeight(rs)
  {
    if rs != [] {
      var n := |rs| - 1;
      PortionsBelow(share, total, rs[..n]);
      PortionBelow(share, total, rs[n]);
      Distribute3(total, SumBy(rs[..n], Portion(share, total)), Portion(share, total)(rs[n]));
      Distribute3(share, TotalWeight(rs[..n]), rs[n].weight);
    }
  }

  lemma PortionBelow(share: int, total: int, r: FeeRecipient)
    requires share >= 0 && total > 0
    ensures 0 <= Portion(share, total)(r)
    ensures total * Portion(share, total)(r) <= share * r.weight
  {
    if r.weight != 0 {
      assert 0 <= share * r.weight;
      FloorMul(share * r.weight, total);
    }
  }

  lemma MulCancel(total: int, a: int, b: int)
    requires total > 0 && total * a <= b * total
    ensures a <= b
  {}

  /** A non-negative fee is split into non-negative parts. */
  lemma SplitNonNegative(fee: int, coinbase: Address, recipients: seq<FeeRecipient>)
    requires fee >= 0
    ensures ZkvmShare(fee) >= 0
    ensures forall c :: c in CoinbaseCredits(fee, coinbase, recipients) ==> c.amount >= 0
  {
    var share := CoinbaseShare(fee);
    var ordered := Canonical(recipients);
    var total := TotalWeight(ordered);
    if ordered != [] && total > 0 {
      PortionsNonNegative(share, total, ordered);
    }
  }

  /** The rounded-down portions are non-negative and leave a non-negative remainder. */
  lemma PortionsNonNegative(share: int, total: int, ordered: seq<FeeRecipient>)
    requires share >= 0 && total == TotalWeight(ordered) && total > 0
    ensures CreditTotal(Portions(Portion(share, total), ordered)) <= share
    ensures forall c :: c in Portions(Portion(share, total), ordered) ==> c.amount >= 0
  {
    var due := Portion(share, total);
    var cs := Portions(due, ordered);
    PortionsWho(due, ordered);
    PortionWeighted(share, total);
    PortionsTotal(due, ordered);
    PortionsBelow(share, total, ordered);
    MulCancel(total, CreditTotal(cs), share);
    forall c | c in cs ensures c.amount >= 0 {
      var r :| r in ordered && r.weight > 0 && c == FeeCredit(r.addr, due(r));
      PortionBelow(share, total, r);
    }
  }

  /** Credits go only to the coinbase or to a listed recipient. */
  lemma CreditsGoToTargets(fee: int, coinbase: Address, recipients: seq<FeeRecipient>)
    ensures forall c :: c in CoinbaseCredits(fee, coinbase, recipients) ==>
              c.addr == coinbase || exists r :: r in recipients && r.addr == c.addr
  {
    var ordered := Canonical(recipients);
    PortionsWho(Portion(CoinbaseShare(fee), TotalWeight(ordered)), ordered);
    assert forall r :: r in ordered <==> r in multiset(ordered);
    assert forall r :: r in recipients <==> r in multiset(recipients);
    forall c | c in CoinbaseCredits(fee, coinbase, recipients) && c.addr != coinbase
      ensures exists r :: r in recipients && r.addr == c.addr
    {
      var cs := Portions(Portion(CoinbaseShare(fee), TotalWeight(ordered)), ordered);
      if c !in cs {
        assert c.addr == cs[0].addr && cs[0] in cs;
      }
    }
  }

  // ----- Who gets how much -----

  /** Half and half; the odd wei goes to the coinbase side. */
  lemma HalvesExactly(fee: int)
    ensures ZkvmShare(fee) <= CoinbaseShare(fee) <= ZkvmShare(fee) + 1
    ensures ZkvmShare(fee) + CoinbaseShare(fee) == fee
  {}

  /** A recipient's portion is its weight's part of the share, rounded down to the wei. */
  lemma PortionExactly(share: int, total: int, r: FeeRecipient)
    requires total > 0
    ensures total * Portion(share, total)(r) <= share * r.weight < total * (Portion(share, total)(r) + 1)
  {
    if r.weight != 0 {
      FloorExactly(share * r.weight, total);
    } else {
      assert share * r.weight == 0;
    }
  }

  lemma FloorExactly(a: int, b: int)
    requires b > 0
    ensures b * (a / b) <= a < b * (a / b + 1)
  {
    Distribute3(b, a / b, 1);
  }

  lemma {:induction false} PortionsAbove(share: int, total: int, rs: seq<FeeRecipient>)
    requires total > 0
    ensures share * TotalWeight(rs) <= total * (SumBy(rs, Portion(share, total)) + |rs|)
  {
    if rs != [] {
      var n := |rs| - 1;
      PortionsAbove(share, total, rs[..n]);
      PortionExactly(share, total, rs[n]);
      Distribute3(total, SumBy(rs[..n], Portion(share, total)) + n, Portion(share, total)(rs[n]) + 1);
      Distribute3(share, TotalWeight(rs[..n]), rs[n].weight);
    }
  }

  /** What the coinbase side of a fee credits to `x`: without weighted recipients the coinbase takes it
      all. Otherwise every recipient gets its rounded portion, and the one with the lowest address also
      the few wei that rounding left, at most one per recipient. */
  lemma {:induction false} SplitMeaning(fee: int, coinbase: Address, recipients: seq<FeeRecipient>, x: Address,
                                        low: Address)
    requires fee >= 0 && (TotalWeight(recipients) > 0 ==> Lowest(low, recipients))
    ensures var share, total := CoinbaseShare(fee), TotalWeight(recipients);
            var due := Portion(share, total);
            var left := share - SumBy(recipients, due);
            CreditSum(CoinbaseCredits(fee, coinbase, recipients), x)
            == (if total <= 0 then if x == coinbase then share else 0
                else SumBy(recipients, DueTo(due, x)) + if x == low then left else 0)
            && (total > 0 ==> 0 <= left <= |recipients|)
  {
    var share, ordered := CoinbaseShare(fee), Canonical(recipients);
    SumPermutation(recipients, ordered, WeightOf);
    var total := TotalWeight(recipients);
    if total <= 0 {
      SumOne(FeeCredit(coinbase, share), AmountTo(x));
    } else {
      var due := Portion(share, total);
      PortionWeighted(share, total);
      LowestPermutes(recipients, ordered, low);
      PortionsNonEmpty(due, ordered);
      DistributeMeaning(share, due, ordered, x, low);
      SumPermutation(recipients, ordered, due);
      SumPermutation(recipients, ordered, DueTo(due, x));
      LeftoverSmall(share, total, recipients);
    }
  }

  lemma LowestPermutes(p: seq<FeeRecipient>, q: seq<FeeRecipient>, low: Address)
    requires multiset(p) == multiset(q) && Lowest(low, p)
    ensures Lowest(low, q)
  {
    assert forall r :: r in p <==> r in multiset(p);
    assert forall r :: r in q <==> r in multiset(q);
  }

  lemma LeftoverSmall(share: int, total: int, rs: seq<FeeRecipient>)
    requires share >= 0 && total == TotalWeight(rs) && total > 0
    ensures 0 <= share - SumBy(rs, Portion(share, total)) <= |rs|
  {
    PortionsBelow(share, total, rs);
    PortionsAbove(share, total, rs);
    MulCancel(total, SumBy(rs, Portion(share, total)), share);
    MulCancelRight(total, share, SumBy(rs, Portion(share, total)) + |rs|);
  }

  lemma MulCancelRight(total: int, a: int, b: int)
    requires total > 0 && a * total <= total * b
    ensures a <= b
  {}

  // ----- The split does not depend on the order of the recipient list -----

  function DueTo(due: FeeRecipient -> int, x: Address): FeeRecipient -> int {
    (r: FeeRecipient) => if r.addr == x then due(r) else 0
  }

  /** Recipients without weight are due nothing. */
  ghost predicate Weighted(due: FeeRecipient -> int) {
    forall r: FeeRecipient :: r.weight == 0 ==> due(r) == 0
  }

  lemma {:induction false} PortionsSum(due: FeeRecipient -> int, rs: seq<FeeRecipient>, x: Address)
    requires Weighted(due)
    ensures CreditSum(Portions(due, rs), x) == SumBy(rs, DueTo(due, x))
  {
    if rs != [] {
      var n := |rs| - 1;
      PortionsSum(due, rs[..n], x);
      var last := if rs[n].weight == 0 then [] else [FeeCredit(rs[n].addr, due(rs[n]))];
      SumConcat(Portions(due, rs[..n]), last, AmountTo(x));
    }
  }

  lemma {:induction false} PortionsTotal(due: FeeRecipient -> int, rs: seq<FeeRecipient>)
    requires Weighted(due)
    ensures CreditTotal(Portions(due, rs)) == SumBy(rs, due)
  {
    if rs != [] {
      var n := |rs| - 1;
      PortionsTotal(due, rs[..n]);
      var last := if rs[n].weight == 0 then [] else [FeeCredit(rs[n].addr, due(rs[n]))];
      SumConcat(Portions(due, rs[..n]), last, AmountOf);
    }
  }

  /** The credit that takes the remainder belongs to the lowest address with weight. */
  lemma {:induction false} FirstPortionIsLowest(due: FeeRecipient -> int, rs: seq<FeeRecipient>)
    requires ByAddress(rs) && Portions(due, rs) != []
    ensures Lowest(Portions(due, rs)[0].addr, rs)
  {
    var n := |rs| - 1;
    var front := Portions(due, rs[..n]);
    assert forall r :: r in rs ==> r in rs[..n] || r == rs[n];
    if front != [] {
      FirstPortionIsLowest(due, rs[..n]);
    } else {
      PortionsWho(due, rs[..n]);
    }
  }

  ghost predicate Lowest(a: Address, rs: seq<FeeRecipient>) {
    && (exists r :: r in rs && r.weight > 0 && r.addr == a)
    && forall r :: r in rs && r.weight > 0 ==> a <= r.addr
  }

  lemma SameLowest(p: seq<FeeRecipient>, q: seq<FeeRecipient>, a: Address, b: Address)
    requires multiset(p) == multiset(q) && Lowest(a, p) && Lowest(b, q)
    ensures a == b
  {
    assert forall r :: r in p <==> r in multiset(p);
    assert forall r :: r in q <==> r in multiset(q);
  }

  lemma PortionWeighted(share: int, total: int)
    ensures Weighted(Portion(share, total))
  {}

  /** What one address receives, said without mentioning the order of the list. */
  lemma DistributeMeaning(share: int, due: FeeRecipient -> int, rs: seq<FeeRecipient>, x: Address, low: Address)
    requires Weighted(due) && ByAddress(rs) && TotalWeight(rs) > 0 && Lowest(low, rs)
    ensures CreditSum(WithRemainder(share, Portions(due, rs)), x)
            == SumBy(rs, DueTo(due, x)) + (if x == low then share - SumBy(rs, due) else 0)
  {
    var cs := Portions(due, rs);
    PortionsNonEmpty(due, rs);
    FirstPortionIsLowest(due, rs);
    SameLowest(rs, rs, low, cs[0].addr);
    PortionsTotal(due, rs);
    PortionsSum(due, rs, x);
    UpdateFirst(cs, share - CreditTotal(cs), AmountTo(x));
  }

  /** Any two address-ordered arrangements of the same recipients, however a sort breaks
      ties, credit every address with the same amount. */
  lemma DistributeStable(share: int, coinbase: Address, p: seq<FeeRecipient>, q: seq<FeeRecipient>, x: Address)
    requires ByAddress(p) && ByAddress(q) && multiset(p) == multiset(q)
    ensures CreditSum(Distribute(share, coinbase, p), x) == CreditSum(Distribute(share, coinbase, q), x)
  {
    SumPermutation(p, q, WeightOf);
    assert |multiset(p)| == |multiset(q)|;
    if TotalWeight(p) > 0 {
      var due := Portion(share, TotalWeight(p));
      PortionsNonEmpty(due, p);
      FirstPortionIsLowest(due, p);
      PortionsNonEmpty(due, q);
      FirstPortionIsLowest(due, q);
      var low := Portions(due, p)[0].addr;
      SameLowest(p, q, low, Portions(due, q)[0].addr);
      PortionWeighted(share, TotalWeight(p));
      DistributeMeaning(share, due, p, x, low);
      DistributeMeaning(share, due, q, x, low);
      SumPermutation(p, q, due);
      SumPermutation(p, q, DueTo(due, x));
    }
  }

  /** Nodes holding the block's recipients in different orders credit every account alike. */
  lemma SplitOrderIndependent(fee: int, coinbase: Address, a: seq<FeeRecipient>, b: seq<FeeRecipient>, x: Address)
    requires multiset(a) == multiset(b)
    ensures CreditSum(CoinbaseCredits(fee, coinbase, a), x) == CreditSum(CoinbaseCredits(fee, coinbase, b), x)
  {
    DistributeStable(CoinbaseShare(fee), coinbase, Canonical(a), Canonical(b), x);
  }
}

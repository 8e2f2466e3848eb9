/** Exactly which blocks validation accepts (Security/Security.go, Security/security_cache.go), said of
    the stored accounts and the transactions alone, without the cache. */
module Acceptance {
  import opened Types
  import opened Decimal
  import opened Sums
  import opened Fees
  import opened Ledger
  import opened Validation

  // ----- What an account has left, and which nonce is due -----

  function ValueOf(tx: Tx): int { if tx.value.Some? then tx.value.value else 0 }

  function ReceivedBy(x: Address): Tx -> int { (t: Tx) => if t.to == Some(x) then ValueOf(t) else 0 }

  function SpentBy(x: Address): Tx -> int { (t: Tx) => if t.from == Some(x) then ValueOf(t) + GasFee(t) else 0 }

  /** What `x` holds after `txs`: its stored balance, plus what it received, minus what it sent and
      paid in fees. */
  function Left(docs: Docs, txs: seq<Tx>, x: Address): int {
    BalanceOf(docs, x) + SumBy(txs, ReceivedBy(x)) - SumBy(txs, SpentBy(x))
  }

  /** The lowest nonce `x` may use after `txs`: one above its latest, or the stored one. */
  function Due(docs: Docs, txs: seq<Tx>, x: Address): U64 {
    if txs == [] then NonceOf(docs, x)
    else if txs[|txs| - 1].from == Some(x) then Inc(txs[|txs| - 1].nonce)
    else Due(docs, txs[..|txs| - 1], x)
  }

  /** A stored account whose balance can be read. */
  predicate Solid(docs: Docs, a: Option<Address>) { a.Some? && a.value in docs && Parse(docs[a.value].balance).Some? }

  /** Transaction `tx`, coming after `front`, is genuine, from a known account that can pay for it,
      with a value, and to a known account unless new ones are allowed. */
  predicate Payable(docs: Docs, front: seq<Tx>, tx: Tx, allowNew: bool, genuine: Tx -> bool) {
    && genuine(tx) && tx.value.Some? && Solid(docs, tx.from)
    && (tx.to.Some? && !allowNew ==> tx.to.value in docs)
    && Left(docs, front, tx.from.value) >= tx.value.value + GasFee(tx)
  }

  predicate InOrder(docs: Docs, front: seq<Tx>, tx: Tx, allowNew: bool, genuine: Tx -> bool) {
    Payable(docs, front, tx, allowNew, genuine) && tx.nonce >= Due(docs, front, tx.from.value)
  }

  // ----- The cache holds exactly that -----

  ghost predicate Tracks(docs: Docs, txs: seq<Tx>, cache: Docs, x: Address) {
    x in cache ==>
      && x in docs && cache[x].txNonce == Due(docs, txs, x)
      && (Parse(cache[x].balance).Some? <==> Parse(docs[x].balance).Some?)
      && (Parse(docs[x].balance).Some? ==> BalanceOf(cache, x) == Left(docs, txs, x))
  }

  lemma LeftSnoc(docs: Docs, txs: seq<Tx>, x: Address)
    requires txs != []
    ensures Left(docs, txs, x)
            == Left(docs, txs[..|txs| - 1], x) + ReceivedBy(x)(txs[|txs| - 1]) - SpentBy(x)(txs[|txs| - 1])
  {}

  lemma TrackedStep(docs: Docs, txs: seq<Tx>, cache: Docs, allowNew: bool, genuine: Tx -> bool, next: Docs, x: Address)
    requires txs != [] && Tracks(docs, txs[..|txs| - 1], cache, x)
    requires CheckTx(cache, txs[|txs| - 1], allowNew, genuine) == Some(next)
    ensures Tracks(docs, txs, next, x) && next.Keys == cache.Keys
  {
    var tx := txs[|txs| - 1];
    LeftSnoc(docs, txs, x);
    Simulated(cache, tx, GasFee(tx), x);
    CheckedNonce(cache, tx, allowNew, genuine, x);
  }

  /** The prefix passed and the cache is as described. */
  lemma {:induction false} Tracked(docs: Docs, cache: Docs, txs: seq<Tx>, allowNew: bool, genuine: Tx -> bool,
                                   x: Address)
    requires forall a :: a in cache ==> a in docs && cache[a] == docs[a]
    requires CheckAll(cache, txs, allowNew, genuine).Some?
    ensures var now := CheckAll(cache, txs, allowNew, genuine).value;
            Tracks(docs, txs, now, x) && now.Keys == cache.Keys
  {
    if txs != [] {
      var front := txs[..|txs| - 1];
      Tracked(docs, cache, front, allowNew, genuine, x);
      TrackedStep(docs, txs, CheckAll(cache, front, allowNew, genuine).value, allowNew, genuine,
                  CheckAll(cache, txs, allowNew, genuine).value, x);
    }
  }

  /** One more transaction passes exactly if it is in order. */
  lemma NextPassesExactly(docs: Docs, front: seq<Tx>, cache: Docs, tx: Tx, allowNew: bool, genuine: Tx -> bool)
    requires forall x :: Tracks(docs, front, cache, x)
    requires (tx.from.Some? ==> (tx.from.value in cache <==> tx.from.value in docs))
    requires (tx.to.Some? ==> (tx.to.value in cache <==> tx.to.value in docs))
    ensures CheckTx(cache, tx, allowNew, genuine).Some? <==> InOrder(docs, front, tx, allowNew, genuine)
  {
    if tx.from.Some? && tx.from.value in cache {
      assert Tracks(docs, front, cache, tx.from.value);
      if AddressesKnown(cache, tx, allowNew) && Affordable(cache, tx) {
        Simulated(cache, tx, GasFee(tx), tx.from.value);
      }
    }
  }

  ghost predicate AllInOrder(docs: Docs, txs: seq<Tx>, allowNew: bool, genuine: Tx -> bool) {
    forall k :: 0 <= k < |txs| ==> InOrder(docs, txs[..k], txs[k], allowNew, genuine)
  }

  lemma AllInOrderSnoc(docs: Docs, txs: seq<Tx>, allowNew: bool, genuine: Tx -> bool)
    requires txs != []
    ensures var n := |txs| - 1;
            AllInOrder(docs, txs, allowNew, genuine)
            <==> AllInOrder(docs, txs[..n], allowNew, genuine) && InOrder(docs, txs[..n], txs[n], allowNew, genuine)
  {
    var n := |txs| - 1;
    forall k | 0 <= k < n ensures txs[..n][..k] == txs[..k] && txs[..n][k] == txs[k] {}
    if AllInOrder(docs, txs, allowNew, genuine) {
      forall k | 0 <= k < n ensures InOrder(docs, txs[..n][..k], txs[..n][k], allowNew, genuine) {
        assert InOrder(docs, txs[..k], txs[k], allowNew, genuine);
      }
    }
    if AllInOrder(docs, txs[..n], allowNew, genuine) {
      forall k | 0 <= k < n ensures InOrder(docs, txs[..k], txs[k], allowNew, genuine) {
        assert InOrder(docs, txs[..n][..k], txs[..n][k], allowNew, genuine);
      }
    }
  }

  lemma {:induction false} PassesExactly(docs: Docs, cache: Docs, txs: seq<Tx>, allowNew: bool, genuine: Tx -> bool)
    requires forall a :: a in cache ==> a in docs && cache[a] == docs[a]
    requires forall a :: a in Named(txs) && a in docs ==> a in cache
    ensures CheckAll(cache, txs, allowNew, genuine).Some? <==> AllInOrder(docs, txs, allowNew, genuine)
  {
    if txs != [] {
      var front, tx := txs[..|txs| - 1], txs[|txs| - 1];
      assert forall t :: t in front ==> t in txs;
      assert Named(front) <= Named(txs);
      PassesExactly(docs, cache, front, allowNew, genuine);
      AllInOrderSnoc(docs, txs, allowNew, genuine);
      if CheckAll(cache, front, allowNew, genuine).Some? {
        var mid := CheckAll(cache, front, allowNew, genuine).value;
        forall x ensures Tracks(docs, front, mid, x) && mid.Keys == cache.Keys {
          Tracked(docs, cache, front, allowNew, genuine, x);
        }
        Tracked(docs, cache, front, allowNew, genuine, 0);
        LastIsNamed(txs);
        NextPassesExactly(docs, front, mid, tx, allowNew, genuine);
      }
    }
  }

  lemma LastIsNamed(txs: seq<Tx>)
    requires txs != []
    ensures var tx := txs[|txs| - 1];
            (tx.from.Some? ==> tx.from.value in Named(txs)) && (tx.to.Some? ==> tx.to.value in Named(txs))
  {
    assert txs[|txs| - 1] in txs;
  }

  /** A block is accepted if and only if it has transactions and each of them is in order: what its
      sender has left covers value and fee, and its nonce is not below the one due. */
  lemma AcceptedExactly(docs: Docs, txs: seq<Tx>, allowNew: bool, genuine: Tx -> bool)
    ensures Accepted(docs, txs, allowNew, genuine) <==> txs != [] && AllInOrder(docs, txs, allowNew, genuine)
  {
    PassesExactly(docs, Loaded(docs, txs), txs, allowNew, genuine);
  }

  // ----- The nonces, without a recursion -----

  /** Away from the wrap: no nonce is below the stored one, and each sender's nonces ascend. */
  ghost predicate NoncesInOrder(docs: Docs, txs: seq<Tx>) {
    && Ascending(txs)
    && forall k :: 0 <= k < |txs| && txs[k].from.Some? ==> txs[k].nonce >= NonceOf(docs, txs[k].from.value)
  }

  /** The nonce due comes from the sender's latest transaction, or from the store. */
  lemma {:induction false} DueComesFrom(docs: Docs, txs: seq<Tx>, x: Address) returns (i: Option<nat>)
    ensures i.None? ==> Due(docs, txs, x) == NonceOf(docs, x)
    ensures i.Some? ==> i.value < |txs| && txs[i.value].from == Some(x) && Due(docs, txs, x) == Inc(txs[i.value].nonce)
  {
    if txs == [] {
      return None;
    }
    var n := |txs| - 1;
    if txs[n].from == Some(x) {
      return Some(n);
    }
    i := DueComesFrom(docs, txs[..n], x);
  }

  lemma DueMet(docs: Docs, txs: seq<Tx>, k: nat)
    requires k < |txs| && txs[k].from.Some? && NoncesInOrder(docs, txs)
    ensures txs[k].nonce >= Due(docs, txs[..k], txs[k].from.value)
  {
    var x := txs[k].from.value;
    var i := DueComesFrom(docs, txs[..k], x);
    if i.Some? {
      assert txs[i.value].nonce < txs[k].nonce;
    }
  }

  lemma StoredIsBelow(docs: Docs, txs: seq<Tx>, k: nat)
    requires k < |txs| && txs[k].from.Some? && RoomForNext(txs) && Ascending(txs)
    requires forall i :: 0 <= i <= k && txs[i].from.Some? ==> txs[i].nonce >= Due(docs, txs[..i], txs[i].from.value)
    ensures txs[k].nonce >= NonceOf(docs, txs[k].from.value)
  {
    var x := txs[k].from.value;
    var i := DueComesFrom(docs, txs[..k], x);
    if i.Some? {
      StoredIsBelow(docs, txs, i.value);
    }
  }

  /** If no sender goes on after nonce 2^64-1: a block is accepted if and only if every transaction can
      be paid out of what its sender has left, no nonce is below the stored one, and each sender's
      nonces ascend. */
  lemma AcceptedAscendingExactly(docs: Docs, txs: seq<Tx>, allowNew: bool, genuine: Tx -> bool)
    requires RoomForNext(txs)
    ensures Accepted(docs, txs, allowNew, genuine) <==>
            && txs != [] && NoncesInOrder(docs, txs)
            && forall k :: 0 <= k < |txs| ==> Payable(docs, txs[..k], txs[k], allowNew, genuine)
  {
    AcceptedExactly(docs, txs, allowNew, genuine);
    if Accepted(docs, txs, allowNew, genuine) {
      NoncesAscendExactly(docs, txs, allowNew, genuine);
      forall k | 0 <= k < |txs|
        ensures txs[k].nonce >= NonceOf(docs, txs[k].from.value) && Payable(docs, txs[..k], txs[k], allowNew, genuine)
      {
        assert InOrder(docs, txs[..k], txs[k], allowNew, genuine);
        assert forall i :: 0 <= i <= k ==> InOrder(docs, txs[..i], txs[i], allowNew, genuine);
        StoredIsBelow(docs, txs, k);
      }
    }
    if NoncesInOrder(docs, txs) && forall k :: 0 <= k < |txs| ==> Payable(docs, txs[..k], txs[k], allowNew, genuine) {
      forall k | 0 <= k < |txs| ensures InOrder(docs, txs[..k], txs[k], allowNew, genuine) {
        assert Payable(docs, txs[..k], txs[k], allowNew, genuine);
        DueMet(docs, txs, k);
      }
    }
  }
}

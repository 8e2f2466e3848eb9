/** Choosing a listener (Vote/Trigger.go): start at a hash of the peer's id and walk on while the
    slot is empty. */
module Listener {
  import opened Types

  type Buddy = nat

  /** Buddies by index; indices need not be contiguous. */
  type Buddies = map<int, Buddy>

  function Slot(n: nat, base: nat, offset: nat): nat
    requires n > 0
  {
    (base + offset) % n
  }

  /** One call answers without calling itself again. */
  predicate Answers(b: Buddies, base: nat, offset: nat) {
    |b| == 0 || Slot(|b|, base, offset) in b || offset >= |b|
  }

  function Iterate(f: nat -> nat, x: nat, k: nat): nat {
    if k == 0 then x else f(Iterate(f, x, k - 1))
  }

  lemma {:induction false} IterateShift(f: nat -> nat, x: nat, k: nat)
    ensures Iterate(f, x, k + 1) == Iterate(f, f(x), k)
  {
    if k > 0 {
      IterateShift(f, x, k - 1);
    }
  }

  function NextOf(n: nat): nat -> nat
    requires n > 0
  {
    (offset: nat) => (offset + 1) % n
  }

  /** The offset after `k` calls. */
  function OffsetAfter(n: nat, offset: nat, k: nat): nat
    requires n > 0
  {
    Iterate(NextOf(n), offset, k)
  }

  ghost predicate Returns(b: Buddies, base: nat, offset: nat) {
    |b| == 0 || exists k: nat :: Answers(b, base, OffsetAfter(|b|, offset, k))
  }

  predicate SomeSlotTaken(b: Buddies) { exists key :: 0 <= key < |b| && key in b }

  lemma NextOffset(n: nat, offset: nat)
    requires offset < n
    ensures (offset + 1) % n == if offset + 1 < n then offset + 1 else 0
  {
    if offset + 1 == n {
      assert n % n == 0;
    }
  }

  lemma SlotWithin(n: nat, base: nat, offset: nat)
    requires base < n && offset < n
    ensures Slot(n, base, offset) == if base + offset < n then base + offset else base + offset - n
  {
    WrapOnce(n, base + offset);
  }

  lemma WrapOnce(n: nat, x: nat)
    requires x < 2 * n
    ensures x % n == if x < n then x else x - n
  {
    var q := x / n;
    assert x == q * n + x % n;
    assert q >= 2 ==> q * n >= 2 * n;
  }

  lemma {:induction false} OffsetWithin(n: nat, offset: nat, k: nat)
    requires n > 0 && offset < n && k < n
    ensures OffsetAfter(n, offset, k) == if offset + k < n then offset + k else offset + k - n
  {
    if k > 0 {
      OffsetWithin(n, offset, k - 1);
      NextOffset(n, OffsetAfter(n, offset, k - 1));
    }
  }

  lemma {:induction false} OffsetBelow(n: nat, offset: nat, k: nat)
    requires n > 0 && offset < n
    ensures OffsetAfter(n, offset, k) < n
  {
  }

  /** The walk ends exactly when there is no one to choose from, when it starts past the last
      slot, or when some slot below the number of buddies is taken. */
  lemma ReturnsExactly(b: Buddies, base: nat, offset: nat)
    requires base < |b| || |b| == 0
    ensures Returns(b, base, offset) <==> |b| == 0 || offset >= |b| || SomeSlotTaken(b)
  {
    var n := |b|;
    if n > 0 && offset >= n {
      assert Answers(b, base, OffsetAfter(n, offset, 0));
    } else if n > 0 && SomeSlotTaken(b) {
      var key: nat :| key < n && key in b;
      var want := if key >= base then key - base else key + n - base;
      var k := if want >= offset then want - offset else want + n - offset;
      OffsetWithin(n, offset, k);
      SlotWithin(n, base, want);
      assert Answers(b, base, OffsetAfter(n, offset, k));
    } else if n > 0 {
      forall k: nat ensures !Answers(b, base, OffsetAfter(n, offset, k)) {
        OffsetBelow(n, offset, k);
        SlotWithin(n, base, OffsetAfter(n, offset, k));
      }
    }
  }

  /** One buddy filed under index 1 is enough to make the walk endless. */
  lemma EndlessWalk() returns (b: Buddies)
    ensures |b| == 1 && !Returns(b, 0, 0)
  {
    b := map[1 := 7];
    ReturnsExactly(b, 0, 0);
  }

  /** How many slots the walk still has to pass; the taken slot `key` stops it. */
  function Left(n: nat, base: nat, offset: nat, key: nat): nat
    requires base < n && offset < n && key < n
  {
    var at := if base + offset < n then base + offset else base + offset - n;
    if key >= at then key - at else key + n - at
  }

  lemma LeftShrinks(n: nat, base: nat, offset: nat, key: nat)
    requires base < n && offset < n && key < n && Slot(n, base, offset) != key
    ensures (offset + 1) % n < n && Left(n, base, (offset + 1) % n, key) < Left(n, base, offset, key)
  {
    SlotWithin(n, base, offset);
    NextOffset(n, offset);
  }

  ghost function TakenSlot(b: Buddies): (key: nat)
    requires SomeSlotTaken(b)
    ensures key < |b| && key in b
  {
    var key :| 0 <= key < |b| && key in b;
    key
  }

  lemma OffsetShift(n: nat, offset: nat, k: nat)
    requires n > 0
    ensures OffsetAfter(n, offset, k + 1) == OffsetAfter(n, (offset + 1) % n, k)
  {
    IterateShift(NextOf(n), offset, k);
  }

  /** Slot number `k` of the walk is the first one taken. */
  ghost predicate FirstTaken(b: Buddies, base: nat, offset: nat, k: nat)
    requires |b| > 0
  {
    Slot(|b|, base, OffsetAfter(|b|, offset, k)) in b
    && forall j :: 0 <= j < k ==> Slot(|b|, base, OffsetAfter(|b|, offset, j)) !in b
  }

  lemma FirstTakenNext(b: Buddies, base: nat, offset: nat, k: nat)
    requires |b| > 0 && Slot(|b|, base, offset) !in b && FirstTaken(b, base, (offset + 1) % |b|, k)
    ensures FirstTaken(b, base, offset, k + 1)
  {
    OffsetShift(|b|, offset, k);
    forall j | 0 <= j < k + 1 ensures Slot(|b|, base, OffsetAfter(|b|, offset, j)) !in b {
      if j > 0 {
        OffsetShift(|b|, offset, j - 1);
      }
    }
  }

  /** `PickListnerWithOffset`, wherever it returns. None is the zero value. */
  function PickListener(b: Buddies, base: nat, offset: nat): Option<Buddy>
    requires |b| == 0 || (base < |b| && (offset >= |b| || SomeSlotTaken(b)))
    decreases if |b| > 0 && offset < |b| then Left(|b|, base, offset, TakenSlot(b)) else 0
  {
    if |b| == 0 then None
    else if Slot(|b|, base, offset) in b then Some(b[Slot(|b|, base, offset)])
    else if offset < |b| then
      LeftShrinks(|b|, base, offset, TakenSlot(b));
      PickListener(b, base, (offset + 1) % |b|)
    else if 0 in b then Some(b[0]) else None
  }

  /** It picks the buddy in the first taken slot of the walk. */
  lemma {:induction false} PicksFirstTaken(b: Buddies, base: nat, offset: nat) returns (k: nat)
    requires base < |b| && offset < |b| && SomeSlotTaken(b)
    ensures FirstTaken(b, base, offset, k)
    ensures PickListener(b, base, offset) == Some(b[Slot(|b|, base, OffsetAfter(|b|, offset, k))])
    decreases Left(|b|, base, offset, TakenSlot(b))
  {
    k := 0;
    if Slot(|b|, base, offset) !in b {
      LeftShrinks(|b|, base, offset, TakenSlot(b));
      k := PicksFirstTaken(b, base, (offset + 1) % |b|);
      FirstTakenNext(b, base, offset, k);
      OffsetShift(|b|, offset, k);
      k := k + 1;
    }
  }
}

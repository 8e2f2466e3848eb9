/** Canonical account ordinals (DB_OPs/art_ordinal.go): a persistent counter the sequencer
    reserves from, raised by every node past the ordinals it has seen. */
module Ordinals {
  import opened Types
  import opened Ledger

  const ORDINAL_MAX: int := 0x100_0000_0000

  /** The next ordinal a stored counter stands for; absent and zero both mean 1. */
  function Next(stored: Option<U64>): U64 {
    if stored.None? || stored.value == 0 then 1 else stored.value
  }

  /** uint64 addition. */
  function AddU64(a: U64, b: U64): U64 { (a + b) % (MAX_U64 + 1) }

  class OrdinalCounter {
    var stored: Option<U64>

    constructor ()
      ensures stored == None
    {
      stored := None;
    }

    /** `reserveARTOrdinals`; `up` says whether the write goes through. */
    method Reserve(n: U64, up: bool) returns (first: Option<U64>)
      modifies this
      ensures (stored, first) == Reserved(old(stored), n, up)
      ensures Next(old(stored)) + n <= MAX_U64 ==>
                (first.Some? <==> n > 0 && up && Next(old(stored)) + n < ORDINAL_MAX)
    {
      if n == 0 {
        return None;
      }
      var next := Next(stored);
      if AddU64(next, n) >= ORDINAL_MAX || !up {
        return None;
      }
      stored := Some(AddU64(next, n));
      return Some(next);
    }

    /** `BumpARTOrdinalFloor`. */
    method Bump(floor: U64)
      modifies this
      ensures stored == Bumped(old(stored), floor)
    {
      if floor == 0 || floor >= ORDINAL_MAX {
        return;
      }
      if floor > Next(stored) {
        stored := Some(floor);
      }
    }

    /** What applying a block does with the ordinals it carries. */
    method BumpForBlock(carried: seq<U64>)
      modifies this
      ensures stored == BumpedFor(old(stored), carried)
    {
      var highest: U64 := 0;
      for i := 0 to |carried|
        invariant highest == HighestOrdinal(carried[..i])
      {
        assert carried[..i + 1][..i] == carried[..i];
        if carried[i] < ORDINAL_MAX && carried[i] > highest {
          highest := carried[i];
        }
      }
      assert carried[..|carried|] == carried;
      if highest > 0 {
        Bump(highest + 1);
      }
    }
  }

  function Reserved(stored: Option<U64>, n: U64, up: bool): (Option<U64>, Option<U64>) {
    if n == 0 || AddU64(Next(stored), n) >= ORDINAL_MAX || !up then (stored, None)
    else (Some(AddU64(Next(stored), n)), Some(Next(stored)))
  }

  function Bumped(stored: Option<U64>, floor: U64): Option<U64> {
    if floor != 0 && floor < ORDINAL_MAX && floor > Next(stored) then Some(floor) else stored
  }

  function HighestOrdinal(carried: seq<U64>): (h: U64)
    ensures h < ORDINAL_MAX
    ensures forall v :: v in carried && v < ORDINAL_MAX ==> v <= h
  {
    if carried == [] then 0
    else
      var front, v := HighestOrdinal(carried[..|carried| - 1]), carried[|carried| - 1];
      assert forall x :: x in carried ==> x in carried[..|carried| - 1] || x == v;
      if v < ORDINAL_MAX && v > front then v else front
  }

  function BumpedFor(stored: Option<U64>, carried: seq<U64>): Option<U64> {
    if HighestOrdinal(carried) > 0 then Bumped(stored, HighestOrdinal(carried) + 1) else stored
  }

  /** A reservation moves the counter past what it hands out exactly when the addition does not
      wrap; every caller passes the length of a list. */
  lemma ReserveAdvancesExactly(stored: Option<U64>, n: U64)
    requires Next(stored) < ORDINAL_MAX && Reserved(stored, n, true).1.Some?
    ensures Next(Reserved(stored, n, true).0) == Next(stored) + n <==> n <= MAX_U64 - Next(stored)
  {}

  // ----- Runs -----

  /** A reservation may be followed by a crash, in which case nothing is handed out. */
  datatype Act =
    | Take(n: U64, up: bool, crash: bool)
    | Apply(carried: seq<U64>)

  datatype State = State(stored: Option<U64>, given: seq<U64>)

  function Ordinal(first: U64, n: U64): seq<U64>
    requires first + n <= MAX_U64
  {
    seq(n, i requires 0 <= i < n => first + i)
  }

  predicate Small(a: Act) { a.Take? ==> a.n < ORDINAL_MAX }

  function Do(s: State, a: Act): State
    requires Small(a) && Next(s.stored) <= ORDINAL_MAX
  {
    match a
    case Take(n, up, crash) =>
      var (stored, first) := Reserved(s.stored, n, up);
      State(stored, if first.None? || crash then s.given else s.given + Ordinal(first.value, n))
    case Apply(carried) => s.(stored := BumpedFor(s.stored, carried))
  }

  /** Everything handed out is an ordinal below the counter, and no two are equal. */
  ghost predicate Valid(s: State) {
    && 1 <= Next(s.stored) < ORDINAL_MAX
    && (forall i :: 0 <= i < |s.given| ==> 1 <= s.given[i] < Next(s.stored))
    && (forall i, j :: 0 <= i < j < |s.given| ==> s.given[i] != s.given[j])
  }

  lemma DoValid(s: State, a: Act)
    requires Valid(s) && Small(a)
    ensures Valid(Do(s, a)) && Next(Do(s, a).stored) >= Next(s.stored) && s.given <= Do(s, a).given
  {
    match a
    case Take(n, up, crash) =>
      var (stored, first) := Reserved(s.stored, n, up);
      if first.Some? && !crash {
        TakeValid(s, stored, first.value, n);
      }
    case Apply(carried) =>
  }

  lemma TakeValid(s: State, stored: Option<U64>, first: U64, n: U64)
    requires Valid(s) && first == Next(s.stored) && first + n < ORDINAL_MAX && stored == Some(first + n) && n > 0
    ensures Valid(State(stored, s.given + Ordinal(first, n)))
  {
    var given := s.given + Ordinal(first, n);
    forall i | 0 <= i < |given| ensures 1 <= given[i] < first + n && (i < |s.given| <==> given[i] < first) {
    }
  }

  function Run(s: State, acts: seq<Act>): State
    requires Valid(s) && forall a :: a in acts ==> Small(a)
    ensures Valid(Run(s, acts))
  {
    if acts == [] then s
    else
      var mid := Run(s, acts[..|acts| - 1]);
      DoValid(mid, acts[|acts| - 1]);
      Do(mid, acts[|acts| - 1])
  }

  /** Over any run of reservations, crashes after the counter is persisted, and applied blocks,
      the ordinals handed out are distinct and in [1, 2^40), and the counter never falls. */
  lemma {:induction false} OrdinalsNeverRepeat(s: State, acts: seq<Act>)
    requires Valid(s) && forall a :: a in acts ==> Small(a)
    ensures var end := Run(s, acts);
            && Next(end.stored) >= Next(s.stored) && s.given <= end.given
            && (forall i :: 0 <= i < |end.given| ==> 1 <= end.given[i] < ORDINAL_MAX)
            && (forall i, j :: 0 <= i < j < |end.given| ==> end.given[i] != end.given[j])
  {
    if acts != [] {
      OrdinalsNeverRepeat(s, acts[..|acts| - 1]);
      DoValid(Run(s, acts[..|acts| - 1]), acts[|acts| - 1]);
    }
  }

  lemma {:induction false} LaterIsAbove(s: State, acts: seq<Act>, i: nat)
    requires Valid(s) && forall a :: a in acts ==> Small(a)
    requires |s.given| <= i < |Run(s, acts).given|
    ensures Next(s.stored) <= Run(s, acts).given[i] < ORDINAL_MAX - 1
  {
    if acts == [] {
    } else {
      var front, last := acts[..|acts| - 1], acts[|acts| - 1];
      var mid := Run(s, front);
      OrdinalsNeverRepeat(s, front);
      DoValid(mid, last);
      if i < |mid.given| {
        LaterIsAbove(s, front, i);
      }
    }
  }

  /** Failover: a node that raised its counter for every block it applied hands out no ordinal
      that any of those blocks carried, whatever it did before and whatever it does after. The
      last ordinal is never handed out, so no block of a correct sequencer carries it. */
  lemma PromotedNeverReuses(s: State, before: seq<Act>, carried: seq<U64>, after: seq<Act>, i: nat)
    requires Valid(s) && (forall a :: a in before ==> Small(a)) && (forall a :: a in after ==> Small(a))
    requires var mid := Do(Run(s, before), Apply(carried));
             Valid(mid) && |mid.given| <= i < |Run(mid, after).given|
    requires ORDINAL_MAX - 1 !in carried
    ensures Run(Do(Run(s, before), Apply(carried)), after).given[i] !in carried
  {
    var start := Run(s, before);
    var mid := Do(start, Apply(carried));
    LaterIsAbove(mid, after, i);
    BumpCoversExactly(start.stored, carried);
  }

  /** The counter ends above every carried ordinal. */
  ghost predicate Covers(stored: Option<U64>, carried: seq<U64>) {
    forall v :: v in carried && v < ORDINAL_MAX - 1 ==> v < Next(stored)
  }

  /** Applying a block raises the counter past all its ordinals except in one case: a block that
      carries the last ordinal does not raise it at all. */
  lemma BumpCoversExactly(stored: Option<U64>, carried: seq<U64>)
    requires Next(stored) < ORDINAL_MAX
    ensures Covers(BumpedFor(stored, carried), carried) <==> ORDINAL_MAX - 1 !in carried || Covers(stored, carried)
    ensures var next := Next(BumpedFor(stored, carried));
            next == Next(stored) || (next > Next(stored) && next - 1 in carried)
  {
    HighestIsCarried(carried);
  }

  lemma {:induction false} HighestIsCarried(carried: seq<U64>)
    ensures HighestOrdinal(carried) == 0 || HighestOrdinal(carried) in carried
  {
    if carried != [] {
      HighestIsCarried(carried[..|carried| - 1]);
    }
  }

  /** So a block carrying 5 and the last ordinal lets a fresh node hand 5 out again. */
  lemma LastOrdinalDefeatsBump() returns (carried: seq<U64>, s: State)
    ensures 5 in carried && !Covers(BumpedFor(None, carried), carried)
    ensures s == Do(State(BumpedFor(None, carried), []), Take(5, true, false)) && 5 in s.given
  {
    carried := [5, ORDINAL_MAX - 1];
    assert carried[0] == 5 && carried[1] == ORDINAL_MAX - 1;
    assert HighestOrdinal(carried) == ORDINAL_MAX - 1;
    s := Do(State(BumpedFor(None, carried), []), Take(5, true, false));
    assert s.given[4] == 5;
  }

  // ----- Enriching a block -----

  /** The addresses of a block in the order they are mentioned. */
  function Mentioned(txs: seq<Tx>): seq<Address> {
    if txs == [] then []
    else
      var t := txs[|txs| - 1];
      Mentioned(txs[..|txs| - 1])
      + (if t.from.Some? then [t.from.value] else []) + (if t.to.Some? then [t.to.value] else [])
  }

  function Touch(seen: seq<Address>, a: Option<Address>): seq<Address> {
    if a.None? || a.value in seen then seen else seen + [a.value]
  }

  /** Each address once, in first-seen order. */
  function FirstSeen(txs: seq<Tx>): (r: seq<Address>)
    ensures forall i, j :: 0 <= i < j < |r| ==> r[i] != r[j]
    ensures forall a :: a in r <==> a in Mentioned(txs)
  {
    if txs == [] then []
    else Touch(Touch(FirstSeen(txs[..|txs| - 1]), txs[|txs| - 1].from), txs[|txs| - 1].to)
  }

  /** An account without an identity: not stored, or stored with the zero sentinel. */
  predicate NeedsOrdinal(docs: Docs, a: Address) { a !in docs || docs[a].nonce == 0 }

  function Missing(docs: Docs, order: seq<Address>): (r: seq<Address>)
    ensures forall a :: a in r <==> a in order && NeedsOrdinal(docs, a)
  {
    if order == [] then []
    else
      var a := order[|order| - 1];
      assert forall x :: x in order <==> x in order[..|order| - 1] || x == a;
      Missing(docs, order[..|order| - 1]) + if NeedsOrdinal(docs, a) then [a] else []
  }

  /** The order in which ordinals are given out; no two addresses rank alike. */
  type Rank = Address -> int

  ghost predicate Ranks(rank: Rank) { forall a, b :: rank(a) == rank(b) ==> a == b }

  predicate Ascending(s: seq<Address>, rank: Rank) { forall i, j :: 0 <= i < j < |s| ==> rank(s[i]) < rank(s[j]) }

  function InsertBy(s: seq<Address>, a: Address, rank: Rank): (r: seq<Address>)
    requires Ascending(s, rank) && forall x :: x in s ==> rank(x) != rank(a)
    ensures |r| == |s| + 1 && Ascending(r, rank) && forall x :: x in r <==> x in s || x == a
  {
    if s == [] || rank(s[|s| - 1]) < rank(a) then s + [a]
    else
      var front, last := s[..|s| - 1], s[|s| - 1];
      assert forall x :: x in s <==> x in front || x == last;
      assert forall x :: x in front ==> rank(x) < rank(last);
      InsertBy(front, a, rank) + [last]
  }

  predicate RankedApart(s: seq<Address>, rank: Rank) { forall i, j :: 0 <= i < j < |s| ==> rank(s[i]) != rank(s[j]) }

  function SortBy(s: seq<Address>, rank: Rank): (r: seq<Address>)
    requires RankedApart(s, rank)
    ensures |r| == |s| && Ascending(r, rank) && forall x :: x in r <==> x in s
  {
    if s == [] then []
    else
      var front, a := s[..|s| - 1], s[|s| - 1];
      assert forall x :: x in s <==> x in front || x == a;
      InsertBy(SortBy(front, rank), a, rank)
  }

  /** A list of addresses has one ascending arrangement. */
  lemma {:induction false} AscendingIsUnique(a: seq<Address>, b: seq<Address>, rank: Rank)
    requires Ascending(a, rank) && Ascending(b, rank) && forall x :: x in a <==> x in b
    ensures a == b
  {
    if a == [] {
      assert forall i :: 0 <= i < |b| ==> b[i] in b;
    } else {
      var m, n := |a| - 1, |b| - 1;
      LastAgrees(a, b, rank);
      forall x ensures x in a[..m] <==> x in b[..n] {
        assert x in a <==> x in a[..m] || x == a[m];
        assert x in b <==> x in b[..n] || x == b[n];
        assert a[m] !in a[..m] && b[n] !in b[..n];
      }
      AscendingIsUnique(a[..m], b[..n], rank);
      assert a == a[..m] + [a[m]] && b == b[..n] + [b[n]];
    }
  }

  lemma LastAgrees(a: seq<Address>, b: seq<Address>, rank: Rank)
    requires Ascending(a, rank) && Ascending(b, rank) && a != [] && forall x :: x in a <==> x in b
    ensures b != [] && a[|a| - 1] == b[|b| - 1]
  {
    var x := a[|a| - 1];
    assert x in a;
    var i :| 0 <= i < |b| && b[i] == x;
    var y := b[|b| - 1];
    assert y in b;
    var j :| 0 <= j < |a| && a[j] == y;
  }

  /** The nonces a block carries: stored identities as they are, and consecutive ordinals from
      `first` for accounts without one, in ascending order of rank. */
  function Identity(docs: Docs, sorted: seq<Address>, first: U64, a: Address): int {
    if !NeedsOrdinal(docs, a) then docs[a].nonce else first + Position(sorted, a)
  }

  function Position(s: seq<Address>, a: Address): (k: nat)
    ensures k <= |s| && (a in s ==> k < |s| && s[k] == a)
  {
    if s == [] || s[0] == a then 0 else 1 + Position(s[1..], a)
  }

  datatype Carried = Carried(addr: Address, nonce: int)

  /** `EnrichBlockAccountNonces`. A block without transactions carries nothing. It fails exactly if an
      account could not be read, or some account lacks an identity and the reservation fails: the
      write does not go through, or the ordinals run out. */
  method Enrich(counter: OrdinalCounter, docs: Docs, txs: seq<Tx>, rank: Rank, read: Address -> bool, up: bool)
    returns (out: Option<seq<Carried>>)
    requires Ranks(rank)
    modifies counter
    ensures RankedApart(Missing(docs, FirstSeen(txs)), rank)
    ensures out.None? ==> counter.stored == old(counter.stored)
    ensures var n := |Missing(docs, FirstSeen(txs))|;
            Next(old(counter.stored)) + n <= MAX_U64 ==>
              (out.None? <==> || (exists a :: a in Mentioned(txs) && !read(a))
                              || (n > 0 && (!up || Next(old(counter.stored)) + n >= ORDINAL_MAX)))
    ensures out.Some? ==> EnrichedWith(docs, FirstSeen(txs), Outstanding(docs, txs, rank), Next(old(counter.stored)),
                                       out.value)
    ensures out.Some? ==> Taken(old(counter.stored), |Outstanding(docs, txs, rank)|, counter.stored)
  {
    var order := TouchAll(txs);
    MissingDistinct(docs, order, rank);
    var ok, missing := CollectMissing(docs, order, read);
    if !ok {
      return None;
    }
    var sorted := Outstanding(docs, txs, rank);
    var first := ReserveFor(counter, |missing|, up);
    if first.None? {
      return None;
    }
    var nonces := Assign(docs, order, sorted, first.value);
    return Some(nonces);
  }

  /** As many ordinals as accounts need one; none if none does. */
  method ReserveFor(counter: OrdinalCounter, n: nat, up: bool) returns (first: Option<U64>)
    modifies counter
    ensures first.Some? ==> first.value == Next(old(counter.stored)) && Taken(old(counter.stored), n, counter.stored)
    ensures first.None? ==> counter.stored == old(counter.stored)
    ensures Next(old(counter.stored)) + n <= MAX_U64 ==>
              (first.None? <==> n > 0 && (!up || Next(old(counter.stored)) + n >= ORDINAL_MAX))
  {
    if n == 0 {
      return Some(Next(counter.stored));
    }
    if n > MAX_U64 {
      return None;
    }
    first := counter.Reserve(n, up);
  }

  /** The accounts of a block that get an ordinal, in the order they get it. */
  function Outstanding(docs: Docs, txs: seq<Tx>, rank: Rank): seq<Address>
    requires RankedApart(Missing(docs, FirstSeen(txs)), rank)
  {
    SortBy(Missing(docs, FirstSeen(txs)), rank)
  }

  /** `n` ordinals were reserved, or none were needed. */
  predicate Taken(before: Option<U64>, n: nat, after: Option<U64>) {
    if n == 0 then after == before else n <= MAX_U64 && Reserved(before, n, true) == (after, Some(Next(before)))
  }

  ghost predicate EnrichedWith(docs: Docs, order: seq<Address>, sorted: seq<Address>, first: U64, out: seq<Carried>) {
    && |out| == |order|
    && forall i :: 0 <= i < |order| ==> out[i] == Carried(order[i], Identity(docs, sorted, first, order[i]))
  }

  method TouchAll(txs: seq<Tx>) returns (order: seq<Address>)
    ensures order == FirstSeen(txs)
  {
    order := [];
    for i := 0 to |txs|
      invariant order == FirstSeen(txs[..i])
    {
      assert txs[..i + 1][..i] == txs[..i];
      order := Touch(order, txs[i].from);
      order := Touch(order, txs[i].to);
    }
    assert txs[..|txs|] == txs;
  }

  /** One read per address; the first that fails ends it. */
  method CollectMissing(docs: Docs, order: seq<Address>, read: Address -> bool)
    returns (ok: bool, missing: seq<Address>)
    ensures ok <==> forall a :: a in order ==> read(a)
    ensures ok ==> missing == Missing(docs, order)
  {
    missing := [];
    for i := 0 to |order|
      invariant missing == Missing(docs, order[..i]) && forall j :: 0 <= j < i ==> read(order[j])
    {
      assert order[..i + 1][..i] == order[..i];
      if !read(order[i]) {
        return false, missing;
      }
      if NeedsOrdinal(docs, order[i]) {
        missing := missing + [order[i]];
      }
    }
    assert order[..|order|] == order;
    ok := true;
  }

  method Assign(docs: Docs, order: seq<Address>, sorted: seq<Address>, first: U64) returns (out: seq<Carried>)
    ensures EnrichedWith(docs, order, sorted, first, out)
  {
    out := [];
    for i := 0 to |order|
      invariant |out| == i
      invariant forall j :: 0 <= j < i ==> out[j] == Carried(order[j], Identity(docs, sorted, first, order[j]))
    {
      out := out + [Carried(order[i], Identity(docs, sorted, first, order[i]))];
    }
  }

  lemma {:induction false} MissingDistinct(docs: Docs, order: seq<Address>, rank: Rank)
    requires Ranks(rank) && forall i, j :: 0 <= i < j < |order| ==> order[i] != order[j]
    ensures |Missing(docs, order)| <= |order| && RankedApart(Missing(docs, order), rank)
  {
    if order != [] {
      var front, a := order[..|order| - 1], order[|order| - 1];
      MissingDistinct(docs, front, rank);
      var m := Missing(docs, front);
      forall i | 0 <= i < |m| ensures m[i] != a {
        assert m[i] in m;
      }
    }
  }

  /** Stored identities are distinct, and every stored ordinal is below the counter. */
  ghost predicate IdentitiesSound(docs: Docs, next: U64) {
    && (forall a, b :: a in docs && b in docs && a != b && docs[a].nonce != 0 ==> docs[a].nonce != docs[b].nonce)
    && (forall a :: a in docs && docs[a].nonce < ORDINAL_MAX ==> docs[a].nonce < next)
  }

  /** What account `a` may be called after a block, however much of it was executed: what it was,
      nothing if it is new, or the identity the enriched block carries for it. */
  ghost predicate Named(docs: Docs, order: seq<Address>, sorted: seq<Address>, first: U64, a: Address, n: int) {
    || (a in docs && n == docs[a].nonce)
    || (a !in docs && n == 0)
    || (a in order && n == Identity(docs, sorted, first, a))
  }

  ghost predicate Adopted(docs: Docs, order: seq<Address>, sorted: seq<Address>, first: U64, after: Docs) {
    forall a :: a in after ==> Named(docs, order, sorted, first, a, after[a].nonce)
  }

  /** What the block carries for account `a`: the identity it has, or the ordinal that many places after
      the first as there are accounts without one that rank below it. */
  lemma IdentityExactly(docs: Docs, txs: seq<Tx>, rank: Rank, first: U64, a: Address)
    requires RankedApart(Missing(docs, FirstSeen(txs)), rank) && a in Mentioned(txs)
    ensures a in docs && docs[a].nonce != 0 ==> Identity(docs, Outstanding(docs, txs, rank), first, a) == docs[a].nonce
    ensures a !in docs || docs[a].nonce == 0 ==>
              Identity(docs, Outstanding(docs, txs, rank), first, a)
              == first + |set b | b in Mentioned(txs) && (b !in docs || docs[b].nonce == 0) && rank(b) < rank(a)|
  {
    if NeedsOrdinal(docs, a) {
      var sorted := Outstanding(docs, txs, rank);
      var below := set b | b in sorted && rank(b) < rank(a);
      PositionIsCount(sorted, a, rank);
      assert below == set b | b in Mentioned(txs) && (b !in docs || docs[b].nonce == 0) && rank(b) < rank(a);
    }
  }

  lemma {:induction false} PositionIsCount(s: seq<Address>, a: Address, rank: Rank)
    requires Ascending(s, rank) && a in s
    ensures Position(s, a) == |set b | b in s && rank(b) < rank(a)|
  {
    if s[0] == a {
      assert (set b | b in s && rank(b) < rank(a)) == {};
    } else {
      PositionIsCount(s[1..], a, rank);
      assert rank(s[0]) < rank(a) && s[0] !in s[1..];
      assert (set b | b in s && rank(b) < rank(a)) == (set b | b in s[1..] && rank(b) < rank(a)) + {s[0]};
    }
  }

  /** Enrichment keeps identities distinct and ordinals below the counter. */
  lemma EnrichKeepsIdentities(docs: Docs, txs: seq<Tx>, rank: Rank, before: Option<U64>, now: Option<U64>, after: Docs)
    requires Ranks(rank) && RankedApart(Missing(docs, FirstSeen(txs)), rank)
    requires IdentitiesSound(docs, Next(before)) && Next(before) < ORDINAL_MAX
    requires |Outstanding(docs, txs, rank)| < ORDINAL_MAX && Taken(before, |Outstanding(docs, txs, rank)|, now)
    requires Adopted(docs, FirstSeen(txs), Outstanding(docs, txs, rank), Next(before), after)
    ensures IdentitiesSound(after, Next(now)) && Next(now) < ORDINAL_MAX
    ensures forall a :: a in FirstSeen(txs) ==> Identity(docs, Outstanding(docs, txs, rank), Next(before), a) != 0
  {
    TakenNext(before, |Outstanding(docs, txs, rank)|, now);
    AdoptedSound(docs, FirstSeen(txs), Outstanding(docs, txs, rank), Next(before), after, Next(now));
  }

  lemma TakenNext(before: Option<U64>, n: nat, now: Option<U64>)
    requires Next(before) < ORDINAL_MAX && n < ORDINAL_MAX && Taken(before, n, now)
    ensures Next(now) == Next(before) + n < ORDINAL_MAX
  {}

  lemma AdoptedSound(docs: Docs, order: seq<Address>, sorted: seq<Address>, first: U64, after: Docs, next: U64)
    requires IdentitiesSound(docs, first) && 1 <= first && next == first + |sorted| < ORDINAL_MAX
    requires forall x :: x in sorted <==> x in order && NeedsOrdinal(docs, x)
    requires Adopted(docs, order, sorted, first, after)
    ensures IdentitiesSound(after, next)
  {
    forall a, b | a in after && b in after && a != b && after[a].nonce != 0 ensures after[a].nonce != after[b].nonce {
      assert Named(docs, order, sorted, first, a, after[a].nonce)
             && Named(docs, order, sorted, first, b, after[b].nonce);
      NamedApart(docs, order, sorted, first, a, b, after[a].nonce, after[b].nonce);
    }
    forall a | a in after ensures after[a].nonce < ORDINAL_MAX ==> after[a].nonce < next {
      assert Named(docs, order, sorted, first, a, after[a].nonce);
    }
  }

  lemma NamedApart(docs: Docs, order: seq<Address>, sorted: seq<Address>, first: U64, a: Address, b: Address, m: int,
                   n: int)
    requires IdentitiesSound(docs, first) && 1 <= first && first + |sorted| < ORDINAL_MAX
    requires forall x :: x in sorted <==> x in order && NeedsOrdinal(docs, x)
    requires Named(docs, order, sorted, first, a, m) && Named(docs, order, sorted, first, b, n)
    requires a != b && m != 0
    ensures m != n
  {}

  /** The identities do not depend on how the transactions are ordered. */
  lemma EnrichReproducible(docs: Docs, txs: seq<Tx>, other: seq<Tx>, rank: Rank, first: U64, a: Address)
    requires Ranks(rank) && forall x :: x in Mentioned(txs) <==> x in Mentioned(other)
    ensures RankedApart(Missing(docs, FirstSeen(txs)), rank) && RankedApart(Missing(docs, FirstSeen(other)), rank)
    ensures Identity(docs, Outstanding(docs, txs, rank), first, a)
            == Identity(docs, Outstanding(docs, other, rank), first, a)
  {
    MissingDistinct(docs, FirstSeen(txs), rank);
    MissingDistinct(docs, FirstSeen(other), rank);
    SameOutstanding(Missing(docs, FirstSeen(txs)), Missing(docs, FirstSeen(other)), rank);
  }

  lemma SameOutstanding(a: seq<Address>, b: seq<Address>, rank: Rank)
    requires RankedApart(a, rank) && RankedApart(b, rank) && forall x :: x in a <==> x in b
    ensures SortBy(a, rank) == SortBy(b, rank)
  {
    AscendingIsUnique(SortBy(a, rank), SortBy(b, rank), rank);
  }
}

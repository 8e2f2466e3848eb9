/** Ending a sync session (FastsyncV2/fastsyncv2.go, DB_OPs/latest_block.go,
    DB_OPs/Nodeinfo/immudb_adapter.go): the latest_block marker is ratcheted up to what is both
    stored without a gap and proven applied. */
module Session {
  import opened Types

  const SCAN_AHEAD: nat := 500
  const MAX_ROUNDS: nat := 1000

  /** The numbers of the stored blocks. */
  type Present = set<nat>

  /** The end of the unbroken stretch of stored blocks that starts after `m`. */
  function Head(present: Present, m: nat): (h: nat)
    ensures m <= h && (forall n :: m < n <= h ==> n in present) && h + 1 !in present
    decreases present
  {
    if m + 1 in present then Head(present - {m + 1}, m + 1) else m
  }

  lemma HeadUnique(present: Present, m: nat, h: nat)
    requires m <= h && (forall n :: m < n <= h ==> n in present) && h + 1 !in present
    ensures Head(present, m) == h
  {
    var g := Head(present, m);
    assert g < h ==> g + 1 in present;
    assert h < g ==> h + 1 in present;
  }

  /** From anywhere on the stretch the head is the same. */
  lemma HeadStays(present: Present, m: nat, k: nat)
    requires m <= k <= Head(present, m)
    ensures Head(present, k) == Head(present, m)
  {
    HeadUnique(present, k, Head(present, m));
  }

  /** What one round reads and writes without an error: the marker, the window of blocks after it,
      and the new marker. */
  datatype Round = Round(marker: bool, window: bool, write: bool)

  predicate Goes(r: Round) { r.marker && r.window && r.write }

  /** The first `k` rounds meet no error. */
  ghost predicate GoWell(rounds: nat -> Round, k: nat) { forall i: nat :: i < k ==> Goes(rounds(i)) }

  /** `ReconcileBlockNumber`: the head as far as one window of the store shows it. A marker at
      zero is left alone, an unreadable one counts as zero, and an unreadable window shows nothing. */
  method ReconcileBlockNumber(present: Present, marker: nat, round: Round) returns (highest: nat)
    ensures marker == 0 || !round.marker ==> highest == 0
    ensures marker > 0 && round.marker ==>
              highest == if round.window then Min(Head(present, marker), marker + SCAN_AHEAD) else marker
  {
    if marker == 0 || !round.marker {
      return 0;
    }
    highest := marker;
    if !round.window {
      return;
    }
    var n := marker + 1;
    while n <= marker + SCAN_AHEAD && n in present
      invariant marker < n <= marker + SCAN_AHEAD + 1 && highest == n - 1
      invariant forall k :: marker < k <= highest ==> k in present
    {
      highest := n;
      n := n + 1;
    }
    if n <= marker + SCAN_AHEAD {
      HeadUnique(present, marker, highest);
    } else {
      assert Head(present, marker) < highest ==> Head(present, marker) + 1 in present;
    }
  }

  /** The lower of contiguous head and anchor. */
  function Goal(present: Present, m: nat, anchor: Option<nat>): nat {
    if anchor.Some? then Min(Head(present, m), anchor.value) else 0
  }

  /** From `start`, `latest` is `k` windows on, or at the goal. */
  predicate Reaches(start: nat, goal: nat, latest: nat, k: nat) { latest >= Min(goal, start + SCAN_AHEAD * k) }

  /** Where the rounds stop, by an error of round `i` or at the goal, each earlier one has counted. */
  lemma Stopped(rounds: nat -> Round, start: nat, goal: nat, latest: nat, i: nat)
    requires start > 0 ==> Reaches(start, goal, latest, i) && (latest >= goal || i == MAX_ROUNDS || !Goes(rounds(i)))
    ensures forall k: nat :: k <= MAX_ROUNDS && GoWell(rounds, k) && start > 0 ==> Reaches(start, goal, latest, k)
  {}

  lemma OneWindow(start: nat, goal: nat, before: nat, latest: nat, i: nat)
    requires start > 0 ==> Reaches(start, goal, before, i) && latest >= Min(goal, before + SCAN_AHEAD)
    ensures start > 0 ==> Reaches(start, goal, latest, i + 1)
  {}

  class Tip {
    var latest: nat

    constructor (m: nat)
      ensures latest == m
    {
      latest := m;
    }

    /** `UpdateLatestBlockMonotonic`. */
    method UpdateMonotonic(candidate: nat, write: bool) returns (advanced: bool)
      modifies this
      ensures advanced <==> write && candidate > old(latest)
      ensures latest == if advanced then candidate else old(latest)
    {
      if write && candidate > latest {
        latest := candidate;
        return true;
      }
      return false;
    }

    /** One round: up to a window ahead, not past the goal. It is the last one at the goal, after an
        error, or if nothing is marked. */
    method AdvanceOnce(present: Present, anchor: nat, round: Round) returns (more: bool)
      modifies this
      ensures old(latest) <= latest <= Max(old(latest), Goal(present, old(latest), Some(anchor)))
      ensures Head(present, latest) == Head(present, old(latest))
      ensures more ==> latest >= Min(Goal(present, old(latest), Some(anchor)), old(latest) + SCAN_AHEAD)
      ensures !more ==> old(latest) == 0 || latest >= Goal(present, old(latest), Some(anchor)) || !Goes(round)
    {
      var stored := ReconcileBlockNumber(present, latest, round);
      var target := Min(stored, anchor);
      if target == 0 {
        return false;
      }
      HeadStays(present, latest, if target > latest then target else latest);
      var advanced := UpdateMonotonic(target, round.write);
      return advanced && latest < anchor;
    }

    /** `endSyncSession`. Without an anchor nothing moves. The marker never falls and never passes
        the contiguous head or the anchor. Each round without an error brings it a window closer to
        the lower of the two, which it reaches if no round fails and it is within a thousand windows. */
    method EndSyncSession(present: Present, anchor: Option<nat>, rounds: nat -> Round)
      modifies this
      ensures old(latest) <= latest
      ensures latest <= Max(old(latest), Goal(present, old(latest), anchor))
      ensures forall k: nat :: k <= MAX_ROUNDS && GoWell(rounds, k) && old(latest) > 0 ==>
                Reaches(old(latest), Goal(present, old(latest), anchor), latest, k)
      ensures GoWell(rounds, MAX_ROUNDS) && 0 < old(latest) ==>
                Goal(present, old(latest), anchor) <= old(latest) + SCAN_AHEAD * MAX_ROUNDS ==>
                  latest == Max(old(latest), Goal(present, old(latest), anchor))
    {
      if anchor.None? {
        return;
      }
      ghost var start, goal := latest, Goal(present, latest, anchor);
      for i := 0 to MAX_ROUNDS
        invariant start <= latest <= Max(start, goal) && Head(present, latest) == Head(present, start)
        invariant start > 0 ==> Reaches(start, goal, latest, i)
      {
        ghost var before := latest;
        var more := AdvanceOnce(present, anchor.value, rounds(i));
        if !more {
          Stopped(rounds, start, goal, latest, i);
          return;
        }
        OneWindow(start, goal, before, latest, i);
      }
      Stopped(rounds, start, goal, latest, MAX_ROUNDS);
    }
  }
}

/** The account queue (DB_OPs/Nodeinfo/account_sync_worker.go, account_sync_drainwait.go): entries
    are delivered in order; one that fails stays pending and is redelivered later; one that cannot
    be decoded is dropped; the drain mark is the highest entry that was applied and acknowledged. */
module Drain {
  import opened Types

  /** Entries 1..enqueued exist and 1..delivered have been handed to the worker at least once.
      `pending` are those delivered but not acknowledged, and `applied` those whose writes went
      through. `mark` is 0 before the first. */
  datatype Queue = Queue(enqueued: nat, delivered: nat, pending: set<nat>, applied: set<nat>, mark: nat)

  /** A delivery hands over the next entries and a reclaim some pending ones. Of these, `failed`
      could not be applied and `poison` not be decoded; `acked` says whether the acknowledgement
      of the others went through. */
  datatype Event =
    | Enqueue
    | Deliver(upTo: nat, failed: set<nat>, poison: set<nat>, acked: bool)
    | Reclaim(taken: set<nat>, failed: set<nat>, acked: bool)

  predicate Possible(q: Queue, e: Event) {
    match e
    case Enqueue => true
    case Deliver(upTo, failed, poison, _) =>
      q.delivered <= upTo <= q.enqueued && failed + poison <= Batch(q.delivered, upTo) && failed !! poison
    case Reclaim(taken, failed, _) => taken <= q.pending && failed <= taken
  }

  function Batch(from: nat, upTo: nat): (b: set<nat>)
    ensures forall i: nat :: i in b <==> from < i <= upTo
  {
    if upTo <= from then {} else Batch(from, upTo - 1) + {upTo}
  }

  /** `noteDrainedIDs`: the highest of the acknowledged entries, if it beats the mark. An id that
      cannot be parsed is skipped. */
  method NoteDrained(mark: nat, ids: seq<Option<nat>>) returns (next: nat)
    ensures next == mark || Some(next) in ids
    ensures mark <= next && forall i: nat :: Some(i) in ids ==> i <= next
  {
    next := mark;
    for k := 0 to |ids|
      invariant mark <= next && (next == mark || Some(next) in ids)
      invariant forall j :: 0 <= j < k && ids[j].Some? ==> ids[j].value <= next
    {
      if ids[k].Some? && ids[k].value >= next {
        next := ids[k].value;
      }
    }
  }

  /** `next` is the mark after the entries in `done` were acknowledged. */
  ghost predicate Marked(mark: nat, done: set<nat>, next: nat) {
    mark <= next && (next == mark || next in done) && forall i :: i in done ==> i <= next
  }

  /** The worker has `good` entries applied and tries to acknowledge them. */
  ghost predicate Acknowledges(q: Queue, delivered: nat, open: set<nat>, good: set<nat>, acked: bool, r: Queue) {
    && r == Queue(q.enqueued, delivered, if acked then open - good else open, q.applied + good, r.mark)
    && (if acked then Marked(q.mark, good, r.mark) else r.mark == q.mark)
  }

  /** `q` becomes `r` by one event. */
  ghost predicate Steps(q: Queue, e: Event, r: Queue) {
    match e
    case Enqueue => r == q.(enqueued := q.enqueued + 1)
    case Deliver(upTo, failed, poison, acked) =>
      var batch := Batch(q.delivered, upTo) - poison;
      Acknowledges(q, upTo, q.pending + batch, batch - failed, acked, r)
    case Reclaim(taken, failed, acked) => Acknowledges(q, q.delivered, q.pending, taken - failed, acked, r)
  }

  /** `drainConfirmed`; a target of 0 means nothing was enqueued. */
  predicate DrainConfirmed(q: Queue, target: nat) { target == 0 || (q.mark != 0 && q.mark >= target) }

  ghost predicate Valid(q: Queue) {
    && q.delivered <= q.enqueued && q.mark <= q.delivered
    && (forall i :: i in q.pending ==> 1 <= i <= q.delivered)
    && (forall i :: i in q.applied ==> 1 <= i <= q.delivered)
  }

  lemma StepValid(q: Queue, e: Event, r: Queue)
    requires Valid(q) && Possible(q, e) && Steps(q, e, r)
    ensures Valid(r) && r.mark >= q.mark && r.delivered >= q.delivered
  {}

  ghost predicate Run(states: seq<Queue>, events: seq<Event>) {
    && |states| == |events| + 1 && states[0] == Queue(0, 0, {}, {}, 0)
    && forall k :: 0 <= k < |events| ==> Possible(states[k], events[k]) && Steps(states[k], events[k], states[k + 1])
  }

  lemma {:induction false} RunValid(states: seq<Queue>, events: seq<Event>, k: nat)
    requires Run(states, events) && k <= |events|
    ensures Valid(states[k])
  {
    if k > 0 {
      RunValid(states, events, k - 1);
      StepValid(states[k - 1], events[k - 1], states[k]);
    }
  }

  // ----- What a confirmed drain says -----

  /** Delivering entry `i` failed. */
  predicate FailedFirst(events: seq<Event>, i: nat) {
    exists k :: 0 <= k < |events| && events[k].Deliver? && i in events[k].failed
  }

  predicate Poisoned(events: seq<Event>, i: nat) {
    exists k :: 0 <= k < |events| && events[k].Deliver? && i in events[k].poison
  }

  /** A later attempt at entry `i` went through. */
  predicate Retried(events: seq<Event>, i: nat) {
    exists k :: 0 <= k < |events| && events[k].Reclaim? && i in events[k].taken && i !in events[k].failed
  }

  /** The worker's own history of entry `i` says that it was applied. */
  predicate WentThrough(events: seq<Event>, i: nat) {
    !Poisoned(events, i) && (FailedFirst(events, i) ==> Retried(events, i))
  }

  /** What is known of entry `i` after `events`. */
  ghost predicate Tracked(q: Queue, events: seq<Event>, i: nat) {
    && (i in q.applied <==> 1 <= i <= q.delivered && WentThrough(events, i))
    && (i > q.delivered ==> !Poisoned(events, i) && !FailedFirst(events, i) && !Retried(events, i))
    && (Poisoned(events, i) ==> i !in q.pending && !FailedFirst(events, i))
    && (Retried(events, i) ==> i in q.applied)
  }

  lemma TrackStep(q: Queue, events: seq<Event>, e: Event, r: Queue, i: nat)
    requires Valid(q) && Possible(q, e) && Steps(q, e, r) && Tracked(q, events, i)
    ensures Tracked(r, events + [e], i)
  {
    OneMore(events, e, i);
  }

  lemma OneMore(events: seq<Event>, e: Event, i: nat)
    ensures FailedFirst(events + [e], i) <==> FailedFirst(events, i) || (e.Deliver? && i in e.failed)
    ensures Poisoned(events + [e], i) <==> Poisoned(events, i) || (e.Deliver? && i in e.poison)
    ensures Retried(events + [e], i) <==> Retried(events, i) || (e.Reclaim? && i in e.taken && i !in e.failed)
  {
    var all := events + [e];
    assert all[|events|] == e && forall k :: 0 <= k < |events| ==> all[k] == events[k];
  }

  lemma {:induction false} RunTracked(states: seq<Queue>, events: seq<Event>, k: nat, i: nat)
    requires Run(states, events) && k <= |events|
    ensures Tracked(states[k], events[..k], i)
  {
    if k > 0 {
      RunTracked(states, events, k - 1, i);
      RunValid(states, events, k - 1);
      TrackStep(states[k - 1], events[..k - 1], events[k - 1], states[k], i);
      assert events[..k] == events[..k - 1] + [events[k - 1]];
    }
  }

  /** In every reachable state a confirmed target means every entry up to it is applied if and only
      if none of them was undecodable and each one whose delivery failed went through in a later
      reclaim: a failed entry does not hold the mark back. */
  lemma ConfirmedExactly(states: seq<Queue>, events: seq<Event>, target: nat)
    requires Run(states, events) && DrainConfirmed(states[|events|], target)
    ensures (forall i :: 1 <= i <= target ==> i in states[|events|].applied)
            <==> forall i :: 1 <= i <= target ==> WentThrough(events, i)
  {
    var q := states[|events|];
    RunValid(states, events, |events|);
    assert events[..|events|] == events;
    forall i | 1 <= i <= target ensures i in q.applied <==> WentThrough(events, i) {
      RunTracked(states, events, |events|, i);
    }
  }

  /** If every entry decodes and no delivery ever fails, the confirmation means what it says. */
  lemma ConfirmedWhenNothingFails(states: seq<Queue>, events: seq<Event>, target: nat)
    requires Run(states, events) && DrainConfirmed(states[|events|], target)
    requires forall e :: e in events && e.Deliver? ==> e.failed == {} && e.poison == {}
    ensures forall i :: 1 <= i <= target ==> i in states[|events|].applied
  {
    forall i: nat ensures WentThrough(events, i) {
      assert forall k :: 0 <= k < |events| ==> events[k] in events;
    }
    ConfirmedExactly(states, events, target);
  }

  /** A failed entry followed by a good one: confirmed, yet the first was never applied. */
  lemma FailedEntryIsPassed() returns (states: seq<Queue>, events: seq<Event>)
    ensures Run(states, events) && DrainConfirmed(states[|events|], 2) && 1 !in states[|events|].applied
  {
    var q0, q1, q2 := Queue(0, 0, {}, {}, 0), Queue(1, 0, {}, {}, 0), Queue(2, 0, {}, {}, 0);
    var q3 := Queue(2, 2, {1}, {2}, 2);
    events := [Enqueue, Enqueue, Deliver(2, {1}, {}, true)];
    states := [q0, q1, q2, q3];
    assert Batch(0, 2) == {1, 2};
    assert Steps(q2, events[2], q3);
  }
}

/**
 The V2 monotonic guard and its nested deadlines. Clock readings are arbitrary: a read may raise, be
 malformed, or go backwards. Times are real numbers.
 */
module Deadlines {
  import opened Bytes

  /** The phase budgets of a session and its absolute one, in seconds. */
  datatype Timeouts = Timeouts(ready: int, claim: int, terminalAck: int, absolute: int)

  datatype ClockReading = Raised | NotFiniteNonNegative | Reading(t: real)

  predicate NonDecreasing(s: seq<real>) {
    forall i, j :: 0 <= i < j < |s| ==> s[i] <= s[j]
  }

  class MonotonicGuard {
    var last: Option<real>
    ghost var accepted: seq<real>  // every reading this guard ever let through

    /** Accepted readings never decrease, and the latest is the one remembered. */
    ghost predicate Valid()
      reads this
    {
      && NonDecreasing(accepted)
      && (forall i :: 0 <= i < |accepted| ==> accepted[i] >= 0.0)
      && last == (if accepted == [] then None else Some(accepted[|accepted| - 1]))
    }

    /** A well-formed reading that is not before the last accepted one. */
    predicate Takes(reading: ClockReading)
      reads this
    {
      reading.Reading? && reading.t >= 0.0 && (last.Some? ==> last.value <= reading.t)
    }

    constructor ()
      ensures Valid() && accepted == []
    {
      last := None;
      accepted := [];
    }

    /** Accepts a reading exactly when it is well formed and not before the last accepted one. */
    method Now(reading: ClockReading) returns (now: Option<real>)
      requires Valid()
      modifies this
      ensures Valid()
      ensures now.Some? <==> old(Takes(reading))
      ensures now.Some? ==> now.value == reading.t && accepted == old(accepted) + [reading.t]
      ensures now.None? ==> accepted == old(accepted)
    {
      if !reading.Reading? || reading.t < 0.0 || (last.Some? && reading.t < last.value) {
        return None;
      }
      last := Some(reading.t);
      accepted := accepted + [reading.t];
      return Some(reading.t);
    }
  }

  /** A deadline names the guard that issued it. */
  datatype Deadline = Deadline(guard: MonotonicGuard, expiresAt: real)

  method RemainingSeconds(deadline: Deadline, reading: ClockReading) returns (remaining: Option<real>)
    requires deadline.guard.Valid()
    modifies deadline.guard
    ensures deadline.guard.Valid()
    ensures old(deadline.guard.accepted) <= deadline.guard.accepted
    ensures remaining.Some? <==> old(deadline.guard.Takes(reading)) && reading.t < deadline.expiresAt
    ensures remaining.Some? ==> remaining.value == deadline.expiresAt - reading.t
    ensures old(deadline.guard.Takes(reading)) ==>
      deadline.guard.accepted == old(deadline.guard.accepted) + [reading.t]
  {
    var now := deadline.guard.Now(reading);
    if now.None? || now.value >= deadline.expiresAt {
      return None;
    }
    return Some(deadline.expiresAt - now.value);
  }

  /** An absolute deadline: `seconds` after the reading it was issued on. */
  method NewDeadline(guard: MonotonicGuard, seconds: int, reading: ClockReading)
    returns (deadline: Option<Deadline>)
    requires guard.Valid()
    modifies guard
    ensures guard.Valid() && old(guard.accepted) <= guard.accepted
    ensures deadline.Some? <==> seconds >= 1 && old(guard.Takes(reading))
    ensures deadline.Some? ==>
      && guard.accepted == old(guard.accepted) + [reading.t]
      && deadline.value == Deadline(guard, reading.t + seconds as real)
  {
    if seconds < 1 {
      return None;
    }
    var now := guard.Now(reading);
    if now.None? {
      return None;
    }
    return Some(Deadline(guard, now.value + seconds as real));
  }

  /** A phase deadline of the same guard that cannot outlive the absolute one. */
  method PhaseDeadline(guard: MonotonicGuard, absolute: Deadline, seconds: int, reading: ClockReading)
    returns (deadline: Option<Deadline>)
    requires guard.Valid()
    modifies guard
    ensures guard.Valid() && old(guard.accepted) <= guard.accepted
    ensures deadline.Some? <==>
      absolute.guard == guard && seconds >= 1 && old(guard.Takes(reading)) && reading.t < absolute.expiresAt
    ensures absolute.guard == guard && seconds >= 1 && old(guard.Takes(reading)) ==>
      guard.accepted == old(guard.accepted) + [reading.t]
    ensures deadline.Some? ==>
      && guard.accepted == old(guard.accepted) + [reading.t]
      && deadline.value.guard == guard
      && reading.t < deadline.value.expiresAt <= absolute.expiresAt
      && deadline.value.expiresAt <= reading.t + seconds as real
      && (deadline.value.expiresAt == absolute.expiresAt || deadline.value.expiresAt == reading.t + seconds as real)
  {
    if absolute.guard != guard || seconds < 1 {
      return None;
    }
    var now := guard.Now(reading);
    if now.None? {
      return None;
    }
    var phase := now.value + seconds as real;
    var expiresAt := if phase <= absolute.expiresAt then phase else absolute.expiresAt;
    if expiresAt <= now.value {
      return None;
    }
    return Some(Deadline(guard, expiresAt));
  }

  /** Passes only when the deadline is this guard's and a fresh reading lies strictly before it. */
  method RequireBefore(guard: MonotonicGuard, deadline: Deadline, reading: ClockReading) returns (ok: bool)
    requires guard.Valid()
    modifies guard
    ensures guard.Valid() && old(guard.accepted) <= guard.accepted
    ensures ok <==> deadline.guard == guard && old(guard.Takes(reading)) && reading.t < deadline.expiresAt
    ensures deadline.guard == guard && old(guard.Takes(reading)) ==>
      guard.accepted == old(guard.accepted) + [reading.t]
  {
    if deadline.guard != guard {
      return false;
    }
    var remaining := RemainingSeconds(deadline, reading);
    return remaining.Some?;
  }
}

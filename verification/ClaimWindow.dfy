/**
 The time window of a V3 ticket claim. UTC and a monotonic clock must agree that the answer of an
 untrusted authority came in time. UTC instants are whole seconds counted from the first
 representable one; readings of the UTC clock are microseconds and are cut to seconds; the monotonic
 clock reads a real number of seconds. Its arithmetic is the machine's: `add` is how whole seconds are
 added to a reading, rounded in any way. (Differences are only compared with zero, and a few minutes
 never take a finite float to infinity.)
 */
module ClaimWindow {
  import opened Bytes

  const LAST_SECOND := 315_537_897_599  // 9999-12-31T23:59:59Z
  const MICROS := 1_000_000

  type Second = s: int | 0 <= s <= LAST_SECOND
  type Micro = u: int | 0 <= u < (LAST_SECOND + 1) * MICROS witness 0

  function Cut(now: Micro): (s: Second)
    ensures s * MICROS <= now < (s + 1) * MICROS
  {
    now / MICROS
  }

  function Min(a: int, b: int): int { if a < b then a else b }

  datatype Phase = Freshness | Binding | Signature | Replay

  /** Python's outcomes: a value, the module's own error, or an error nobody there catches. */
  datatype Result<+T> = Ok(value: T) | Fail(phase: Phase) | Overflow

  // The guard ---------------------------------------------------------------

  /** One step of the guard: its state after a reading, and the time it lets through. */
  datatype GuardState = GuardState(failed: bool, last: real)

  function Observe(g: GuardState, reading: Option<real>): (GuardState, Option<real>) {
    if reading.None? || g.failed || reading.value < g.last then (g.(failed := true), None)
    else (g.(last := reading.value), Some(reading.value))
  }

  function ObserveAll(g: GuardState, readings: seq<Option<real>>): (GuardState, seq<Option<real>>) {
    if readings == [] then (g, [])
    else
      var (mid, out) := ObserveAll(g, readings[..|readings| - 1]);
      var (after, last) := Observe(mid, readings[|readings| - 1]);
      (after, out + [last])
  }

  /**
   For any readings whatever: the guard has failed exactly when some reading was missing or less than
   the one before it or the start, and from then on it lets nothing through.
   */
  lemma {:induction false} GuardLetsThroughMonotonePrefix(g: GuardState, readings: seq<Option<real>>)
    requires !g.failed
    ensures var (after, out) := ObserveAll(g, readings);
            && |out| == |readings|
            && (after.failed <==> !Monotone(g.last, readings))
            && (!after.failed ==> out == readings && after.last == LastReading(g.last, readings))
            && (after.failed ==> out[|out| - 1] == None)
    decreases |readings|
  {
    if readings != [] {
      var n := |readings| - 1;
      GuardLetsThroughMonotonePrefix(g, readings[..n]);
      MonotoneSnoc(g.last, readings[..n], readings[n]);
      hide Monotone, LastReading;
      assert readings == readings[..n] + [readings[n]];
      LastOfSnoc(g.last, readings[..n], readings[n]);
    }
  }

  lemma LastOfSnoc(start: real, readings: seq<Option<real>>, r: Option<real>)
    ensures r.Some? ==> LastReading(start, readings + [r]) == r.value
  {
  }

  function LastReading(start: real, readings: seq<Option<real>>): real {
    if readings == [] || readings[|readings| - 1].None? then start else readings[|readings| - 1].value
  }

  predicate Monotone(start: real, readings: seq<Option<real>>) {
    && (forall i :: 0 <= i < |readings| ==> readings[i].Some? && start <= readings[i].value)
    && forall i, j :: 0 <= i < j < |readings| ==> readings[i].value <= readings[j].value
  }

  lemma MonotoneSnoc(start: real, readings: seq<Option<real>>, r: Option<real>)
    ensures Monotone(start, readings + [r]) <==>
              Monotone(start, readings) && r.Some? && LastReading(start, readings) <= r.value
  {
    var all := readings + [r];
    if Monotone(start, all) {
      assert r == all[|readings|];
      forall i | 0 <= i < |readings| ensures readings[i].Some? && start <= readings[i].value <= r.value {
        assert all[i] == readings[i] && all[|readings|] == r;
      }
      forall i, j | 0 <= i < j < |readings| ensures readings[i].value <= readings[j].value {
        assert all[i] == readings[i] && all[j] == readings[j];
      }
    }
    if Monotone(start, readings) && r.Some? && LastReading(start, readings) <= r.value {
      assert forall i :: 0 <= i < |all| ==> all[i].Some? && start <= all[i].value <= r.value;
    }
  }

  class MonotonicDeadlineGuard {
    var failed: bool
    var lastObserved: real

    function State(): GuardState
      reads this
    {
      GuardState(failed, lastObserved)
    }

    constructor (startedAt: real)
      ensures State() == GuardState(false, startedAt)
    {
      failed := false;
      lastObserved := startedAt;
    }

    /** The reading may be missing, for a clock that raises or reads less than zero. */
    method Now(reading: Option<real>) returns (now: Option<real>)
      modifies this
      ensures (State(), now) == Observe(old(State()), reading)
    {
      if reading.None? || failed || reading.value < lastObserved {
        failed := true;
        return None;
      }
      lastObserved := reading.value;
      return reading;
    }
  }

  // The interval ------------------------------------------------------------

  datatype Interval = Interval(
    started: Second, expires: Second, timeout: int, deadline: Second, monotonicStarted: real,
    monotonicDeadline: real, budget: int)

  type Add = (real, int) -> real

  /** Rounding has not swallowed the budget. */
  predicate Advances(add: Add, reading: real, budget: int) { add(reading, budget) > reading }

  /** Builds the verifier's own interval, or refuses; adding the timeout may leave the calendar. */
  function NewInterval(started: Second, expires: Second, timeout: int, monotonicStarted: real, add: Add)
    : Result<Interval>
  {
    if !(1 <= timeout <= 60) || monotonicStarted < 0.0 then Fail(Freshness)
    else if started + timeout > LAST_SECOND then Overflow
    else
      var deadline := Min(expires, started + timeout);
      var budget := deadline - started;
      var monotonicDeadline := add(monotonicStarted, budget);
      if started >= expires || budget <= 0 || monotonicDeadline < 0.0 || monotonicDeadline <= monotonicStarted
      then Fail(Freshness)
      else Ok(Interval(started, expires, timeout, deadline, monotonicStarted, monotonicDeadline, budget))
  }

  /** The record an authority is shown. */
  datatype Deadline = Deadline(
    checked: Second, expires: Second, effective: Second, timeout: int, monotonicStarted: real,
    monotonicDeadline: real, budget: int)

  function AuthorityDeadline(i: Interval): Deadline {
    Deadline(i.started, i.expires, i.deadline, i.timeout, i.monotonicStarted, i.monotonicDeadline, i.budget)
  }

  /** The record's own checks; they too add the timeout to the checked instant. */
  function CheckDeadline(d: Deadline, add: Add): Result<Deadline> {
    if !(1 <= d.timeout <= 60) || d.budget < 1 || d.monotonicStarted < 0.0 || d.monotonicDeadline < 0.0
    then Fail(Freshness)
    else if d.checked + d.timeout > LAST_SECOND then Overflow
    else if d.checked >= d.expires || d.effective != Min(d.expires, d.checked + d.timeout)
      || d.monotonicDeadline != add(d.monotonicStarted, d.budget) || d.monotonicDeadline <= d.monotonicStarted
    then Fail(Freshness)
    else Ok(d)
  }

  /** The ticket's terms, and whether its bindings and its signature hold. */
  datatype Ticket = Ticket(issued: Second, expires: Second, timeout: int, lifetime: int, bound: bool, signed: bool)

  /** What the protocol record admits. */
  predicate Admissible(t: Ticket) { 1 <= t.timeout <= 60 && 1 <= t.lifetime <= 300 }

  /** Freshness at one use: the instant, cut to seconds, or a refusal; None is a clock that fails. */
  function RequireTicketFresh(t: Ticket, now: Option<Micro>): Result<Second> {
    if now.None? then Fail(Freshness)
    else
      var s := Cut(now.value);
      if s < t.issued || s >= t.expires || t.expires - t.issued > t.lifetime then Fail(Freshness) else Ok(s)
  }

  /** The seconds from a first look at the ticket to the end of its window. */
  function Budget(t: Ticket, checked: Second): int { Min(t.expires, checked + t.timeout) - checked }

  /**
   A freshly validated ticket gets an interval that satisfies the record's own checks exactly when the
   calendar lasts until the timeout and the machine's sum is later than the start. When the calendar
   ends first, an error escapes; when rounding swallows the budget, freshness fails.
   */
  lemma FreshTicketHasInterval(t: Ticket, now: Option<Micro>, monotonicStarted: real, add: Add)
    requires Admissible(t) && monotonicStarted >= 0.0 && RequireTicketFresh(t, now).Ok?
    ensures var checked := RequireTicketFresh(t, now).value;
            var interval := NewInterval(checked, t.expires, t.timeout, monotonicStarted, add);
            && (interval == Overflow <==> checked + t.timeout > LAST_SECOND)
            && (interval.Ok? <==>
                  checked + t.timeout <= LAST_SECOND && Advances(add, monotonicStarted, Budget(t, checked)))
            && (interval.Fail? ==> interval == Fail(Freshness))
            && (interval.Ok? ==>
                  var i := interval.value;
                  && CheckDeadline(AuthorityDeadline(i), add) == Ok(AuthorityDeadline(i))
                  && i.budget == Budget(t, checked) && 1 <= i.budget <= Min(60, t.lifetime)
                  && checked < i.deadline <= t.expires)
  {
  }

  /** Where the sum is exact no budget is swallowed, and the window bounds the time elapsed. */
  lemma ExactSums(add: Add, t: Ticket, w: World)
    requires forall x, n :: add(x, n) == x + n as real
    ensures forall reading, budget :: budget > 0 ==> Advances(add, reading, budget)
    ensures Answered(w) && InWindow(t, w, add) ==>
              0.0 <= w.end.value - w.before.value < Budget(t, Cut(w.checked.value)) as real
  {
  }

  /** The exception is real: a ticket alive in the last minute of the calendar. */
  lemma LastMinuteOverflows()
    ensures var t := Ticket(LAST_SECOND - 20, LAST_SECOND, 60, 300, true, true);
            var now: Micro := (LAST_SECOND - 10) * MICROS;
            RequireTicketFresh(t, Some(now)) == Ok(LAST_SECOND - 10)
            && NewInterval(LAST_SECOND - 10, t.expires, t.timeout, 0.0, (x: real, n: int) => x + n as real) == Overflow
  {
  }

  // The claim ---------------------------------------------------------------

  datatype Receipt = Receipt(claimed: bool, claim: nat, ticketClaim: nat, lifetimeClaim: nat)
  datatype Identity = Identity(claim: nat, ticketClaim: nat, lifetimeClaim: nat)

  /** Everything the world said during one claim. A missing receipt is one that raised or is malformed. */
  datatype World = World(
    before: Option<real>, checked: Option<Micro>, receipt: Option<Receipt>, after: Option<Micro>, end: Option<real>)

  predicate Confirms(r: Receipt, id: Identity) {
    r.claimed && r.claim == id.claim && r.ticketClaim == id.ticketClaim && r.lifetimeClaim == id.lifetimeClaim
  }

  /** The instant lies in the ticket's life, which is no longer than admitted. */
  predicate Alive(t: Ticket, now: Option<Micro>) {
    now.Some? && t.issued * MICROS <= now.value < t.expires * MICROS && t.expires - t.issued <= t.lifetime
  }

  predicate Answered(w: World) { w.before.Some? && w.checked.Some? && w.after.Some? && w.end.Some? }

  /** The window: the first instant at or after the deadline is too late, on either clock. */
  predicate InWindow(t: Ticket, w: World, add: Add)
    requires Answered(w)
  {
    var checked := Cut(w.checked.value);
    var sum := add(w.before.value, Budget(t, checked));
    && t.issued * MICROS <= w.checked.value < t.expires * MICROS
    && t.issued * MICROS <= w.after.value < Min(t.expires, checked + t.timeout) * MICROS
    && w.before.value <= w.end.value < sum
  }

  function Trusted(reading: Option<real>): Option<real> {
    if reading.Some? && reading.value >= 0.0 then reading else None
  }

  /**
   Validates the ticket, asks the authority once, and checks both clocks again. `asked` counts the
   calls of the authority; `w` holds every answer of the world, used or not.
   */
  method ClaimTicket(t: Ticket, id: Identity, w: World, add: Add) returns (result: Result<()>, asked: nat)
    requires Admissible(t)
    ensures result.Ok? <==>
              && w.before.Some? && w.checked.Some? && w.after.Some? && w.end.Some? && w.before.value >= 0.0
              && t.bound && t.signed && t.expires - t.issued <= t.lifetime
              && Cut(w.checked.value) + t.timeout <= LAST_SECOND
              && InWindow(t, w, add)
              && w.receipt.Some? && w.receipt.value.claimed && w.receipt.value.claim == id.claim
              && w.receipt.value.ticketClaim == id.ticketClaim && w.receipt.value.lifetimeClaim == id.lifetimeClaim
    ensures result == Overflow <==>
              && w.before.Some? && w.before.value >= 0.0 && t.bound && t.signed && Alive(t, w.checked)
              && Cut(w.checked.value) + t.timeout > LAST_SECOND
    ensures asked == if w.before.Some? && w.before.value >= 0.0 && t.bound && t.signed && Alive(t, w.checked)
                        && Cut(w.checked.value) + t.timeout <= LAST_SECOND
                        && Advances(add, w.before.value, Budget(t, Cut(w.checked.value))) then 1 else 0
    ensures result == Fail(Replay) <==>
              && asked == 1
              && !(w.receipt.Some? && w.receipt.value.claimed && w.receipt.value.claim == id.claim
                   && w.receipt.value.ticketClaim == id.ticketClaim
                   && w.receipt.value.lifetimeClaim == id.lifetimeClaim)
  {
    asked := 0;
    var before := Trusted(w.before);
    if before.None? { return Fail(Freshness), asked; }
    if !t.bound { return Fail(Binding), asked; }
    var checked := RequireTicketFresh(t, w.checked);
    if !checked.Ok? { return Fail(Freshness), asked; }
    if !t.signed { return Fail(Signature), asked; }
    FreshTicketHasInterval(t, w.checked, before.value, add);
    var built := NewInterval(checked.value, t.expires, t.timeout, before.value, add);
    if built.Overflow? { return Overflow, asked; }
    if built.Fail? { return Fail(Freshness), asked; }
    var interval := built.value;
    var guard := new MonotonicDeadlineGuard(interval.monotonicStarted);
    var deadline := CheckDeadline(AuthorityDeadline(interval), add);
    asked := asked + 1;
    if w.receipt.None? || !Confirms(w.receipt.value, id) { return Fail(Replay), asked; }
    var again := RequireTicketFresh(t, w.after);
    if !again.Ok? || again.value >= t.expires || again.value >= interval.deadline { return Fail(Freshness), asked; }
    var end := guard.Now(Trusted(w.end));
    if end.None? { return Fail(Freshness), asked; }
    var remaining := interval.monotonicDeadline - end.value;
    if remaining <= 0.0 { return Fail(Freshness), asked; }
    return Ok(()), asked;
  }

  // V4 receipts -------------------------------------------------------------

  /** The authority's own account of its claim, signed; and whether it says the deadline was enforced. */
  datatype SignedTiming = SignedTiming(
    started: Second, deadline: Second, claimed: Second, timeout: int, enforced: bool)

  function LocalFinalization(checked: Second, expires: Second, timeout: int): Result<(Second, int)> {
    if checked + timeout > LAST_SECOND then Overflow
    else
      var deadline := Min(expires, checked + timeout);
      if deadline - checked < 1 then Fail(Freshness) else Ok((deadline, deadline - checked))
  }

  function RequireReceiptTiming(r: SignedTiming, t: Ticket): Result<()> {
    if r.started + t.timeout > LAST_SECOND then Overflow
    else if r.timeout != t.timeout || !r.enforced || r.started < t.issued || r.started >= t.expires
      || r.deadline != Min(t.expires, r.started + t.timeout) || r.claimed < r.started || r.claimed >= r.deadline
    then Fail(Freshness)
    else Ok(())
  }

  /** The timing part of validating a signed V4 receipt: the authority's window, then the verifier's. */
  method FinalizeReceipt(t: Ticket, r: SignedTiming, w: World, add: Add) returns (result: Result<()>)
    requires Admissible(t)
    ensures result.Ok? <==>
              && w.before.Some? && w.checked.Some? && w.after.Some? && w.end.Some? && w.before.value >= 0.0
              && t.expires - t.issued <= t.lifetime
              && Cut(w.checked.value) + t.timeout <= LAST_SECOND && r.started + t.timeout <= LAST_SECOND
              && r.timeout == t.timeout && r.enforced
              && t.issued <= r.started <= r.claimed < r.deadline
              && r.deadline == Min(t.expires, r.started + t.timeout)
              && InWindow(t, w, add) && Cut(w.checked.value) <= Cut(w.after.value)
  {
    var before := Trusted(w.before);
    if before.None? { return Fail(Freshness); }
    var checked := RequireTicketFresh(t, w.checked);
    if !checked.Ok? { return Fail(Freshness); }
    var local := LocalFinalization(checked.value, t.expires, t.timeout);
    match local {
      case Overflow => return Overflow;
      case Fail(phase) => return Fail(phase);
      case Ok(budget) =>
        var timing := RequireReceiptTiming(r, t);
        if !timing.Ok? { return timing; }
        var again := RequireTicketFresh(t, w.after);
        if !again.Ok? || again.value < checked.value || again.value >= budget.0 { return Fail(Freshness); }
        var end := Trusted(w.end);
        var last := add(before.value, budget.1);
        if end.None? || end.value < before.value || end.value >= last {
          return Fail(Freshness);
        }
        return Ok(());
    }
  }
}

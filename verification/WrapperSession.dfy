/** The wrapper-side V2 session: it follows the wrapper program and scrubs every chunk it hands over. */
module WrapperSession {
  import opened Bytes
  import opened Frames
  import opened AttachProgram
  import opened AttachWire
  import opened AttachStreams
  import opened AttachRuns
  import opened AttachHeard
  import opened Deadlines
  import opened Scrub
  import Base64Url

  /** Where a session starts once the ticket envelope has been read and verified. */
  const SessionStart := Wrapper(InSession(New), Idle, [], false)

  ghost predicate AllZero(buffers: set<array<byte>>)
    reads buffers
  {
    forall b, i :: b in buffers && 0 <= i < b.Length ==> b[i] == 0
  }

  class Session {
    const a: Authorization
    const timeouts: Timeouts
    const wire: Wire
    const absolute: Deadline
    var state: SessionState
    ghost var handed: set<array<byte>>  // every buffer a whole secret payload was read into

    /** The recorded labels are a run of the wrapper program, and no handed buffer holds a secret. */
    ghost predicate Valid()
      reads this, wire, wire.guard, handed
    {
      Sound() && Scrubbed()
    }

    ghost predicate Sound()
      reads this, wire, wire.guard
    {
      && Verified(a)
      && wire.guard.Valid() && |wire.guard.accepted| > 0
      && absolute == Deadline(wire.guard, wire.guard.accepted[0] + timeouts.absolute as real)
      && RunW(a, SessionStart, wire.labels).Some?
      && Now().act.Idle? && Now().phase == InSession(state)
    }

    ghost predicate Scrubbed()
      reads this, handed
    {
      AllZero(handed)
    }

    ghost function Now(): Wrapper
      reads this, wire
      requires RunW(a, SessionStart, wire.labels).Some?
    {
      RunW(a, SessionStart, wire.labels).value
    }

    ghost predicate InBudget()
      reads this, wire, wire.guard
    {
      |wire.guard.accepted| > 0
      && InTime(wire.guard, Deadline(wire.guard, wire.guard.accepted[0] + timeouts.absolute as real))
    }

    twostate predicate Extends()
      reads this, wire, wire.guard
    {
      old(wire.labels) <= wire.labels && old(wire.guard.accepted) <= wire.guard.accepted
    }

    /** The labels a call has added. */
    twostate function Added(): seq<Label>
      requires old(wire.labels) <= wire.labels
      reads this, wire
    {
      wire.labels[|old(wire.labels)|..]
    }

    /** The last clock reading is strictly before the call's first one plus its own phase budget. */
    twostate predicate InPhase(seconds: int)
      reads this, wire, wire.guard
    {
      Beats(wire.guard.accepted, |old(wire.guard.accepted)|, seconds)
    }

    /** The absolute deadline, or the call's own, has passed, or some collaborator has made trouble. */
    twostate predicate Spent(seconds: int)
      reads this, wire, wire.guard
    {
      || wire.trouble || seconds < 1
      || Passed(wire.guard.accepted, |old(wire.guard.accepted)|, seconds, absolute.expiresAt)
    }

    constructor (a: Authorization, timeouts: Timeouts, wire: Wire, absolute: Deadline)
      requires Verified(a) && wire.guard.Valid() && wire.labels == [] && |wire.guard.accepted| > 0
      requires absolute == Deadline(wire.guard, wire.guard.accepted[0] + timeouts.absolute as real)
      ensures Valid() && state == New && this.wire == wire && this.a == a && this.timeouts == timeouts
    {
      this.a := a;
      this.timeouts := timeouts;
      this.wire := wire;
      this.absolute := absolute;
      state := New;
      handed := {};
    }

    ghost method Record(l: Label)
      requires RunW(a, SessionStart, wire.labels).Some? && WrapperStep(a, Now(), l).Some?
      modifies wire`labels
      ensures wire.labels == old(wire.labels) + [l]
      ensures RunW(a, SessionStart, wire.labels) == WrapperStep(a, old(Now()), l)
    {
      hide RunW, WrapperStep;
      RunWAppend(a, SessionStart, wire.labels, [l]);
      RunWOne(a, Now(), l);
      wire.Note(l);
    }

    ghost method Refuse()
      requires Sound()
      modifies wire`labels
      ensures Sound() && wire.labels == old(wire.labels) + [Refused] && Now() == old(Now())
    {
      hide RunW;
      Record(Refused);
    }

    method PhaseOf(seconds: int) returns (phase: Option<Deadline>)
      requires wire.guard.Valid() && |wire.guard.accepted| > 0
      requires absolute == Deadline(wire.guard, wire.guard.accepted[0] + timeouts.absolute as real)
      modifies wire`trouble, wire.guard
      ensures wire.guard.Valid() && old(wire.guard.accepted) <= wire.guard.accepted
      ensures old(wire.trouble) ==> wire.trouble
      ensures phase.Some? ==>
        var n := |old(wire.guard.accepted)|;
        && |wire.guard.accepted| == n + 1 && phase.value.guard == wire.guard
        && PhaseFrom(phase.value.expiresAt, wire.guard.accepted[n], seconds, absolute.expiresAt)
      ensures phase.None? ==> Spent(seconds)
    {
      var reading := ReadClock(wire);
      phase := PhaseDeadline(wire.guard, absolute, seconds, reading);
    }

    /** The beginning of a call: its label, then its deadline. */
    method Begin(ghost l: Label, seconds: int) returns (phase: Option<Deadline>)
      requires wire.guard.Valid() && |wire.guard.accepted| > 0
      requires absolute == Deadline(wire.guard, wire.guard.accepted[0] + timeouts.absolute as real)
      requires RunW(a, SessionStart, wire.labels).Some? && WrapperStep(a, Now(), l).Some?
      modifies wire, wire.guard
      ensures wire.guard.Valid() && Extends() && wire.labels == old(wire.labels) + [l]
      ensures RunW(a, SessionStart, wire.labels) == WrapperStep(a, old(Now()), l)
      ensures old(wire.trouble) ==> wire.trouble
      ensures phase.Some? ==>
        var n := |old(wire.guard.accepted)|;
        && |wire.guard.accepted| == n + 1 && phase.value.guard == wire.guard
        && PhaseFrom(phase.value.expiresAt, wire.guard.accepted[n], seconds, absolute.expiresAt)
      ensures phase.None? ==> Spent(seconds)
    {
      hide RunW, WrapperStep;
      Record(l);
      phase := PhaseOf(seconds);
    }

    method WriteFrame(phase: Deadline, calls: seq<bytes>, next: SessionState) returns (ok: bool)
      requires wire.guard.Valid() && RunW(a, SessionStart, wire.labels).Some?
      requires calls != [] && Now().act == Writing(calls, next)
      modifies wire, wire.guard
      ensures wire.guard.Valid() && Extends()
      ensures RunW(a, SessionStart, wire.labels)
           == Some(if ok then AfterWriteW(old(Now()), next) else FailW(old(Now())))
      ensures ok ==> InTime(wire.guard, phase) && Said(Added()) == Concat(calls)
      ensures (old(wire.trouble) ==> wire.trouble) && (!ok ==> Excused(wire, phase))
    {
      hide RunW, WrapperStep, Said, Concat;
      CallsSaid(calls);
      ok := WriteAll(wire, phase, calls);
      ghost var before, steps := old(wire.labels), wire.labels[|old(wire.labels)|..];
      WrapperWritesFrame(a, old(Now()), calls, next, steps, ok);
      RunWAppend(a, SessionStart, before, steps);
      assert wire.labels == before + steps;
    }

    method ReadPayload(reader: Reader, phase: Deadline, t: FrameType) returns (payload: Option<bytes>)
      requires wire.guard.Valid() && RunW(a, SessionStart, wire.labels).Some?
      requires Now().act == Activity.Reading(t, [])
      modifies wire, wire.guard, reader
      ensures wire.guard.Valid() && Extends()
      ensures RunW(a, SessionStart, wire.labels)
           == Some(if payload.Some? then AcceptW(a, old(Now()), t, payload.value) else FailW(old(Now())))
      ensures payload.Some? ==> InTime(wire.guard, phase)
      ensures old(wire.trouble) ==> wire.trouble
      ensures reader.faithful && payload.Some? ==>
        Decode(old(reader.incoming), t, LimitW(a, t)) == Whole(payload.value, reader.incoming)
      ensures reader.faithful && payload.None? ==>
        Excused(wire, phase) || !Decode(old(reader.incoming), t, LimitW(a, t)).Whole?
    {
      hide RunW, WrapperStep, FrameRead, AcceptW;
      payload := ReadFrame(wire, reader, phase, t, LimitW(a, t));
      ghost var before, steps := old(wire.labels), wire.labels[|old(wire.labels)|..];
      WrapperReadsFrame(a, old(Now()), t, steps, payload);
      RunWAppend(a, SessionStart, before, steps);
      assert wire.labels == before + steps;
    }

    method WriteReady(current: bool) returns (ok: bool)
      requires Valid()
      modifies this, wire, wire.guard
      ensures Valid() && Extends() && handed == old(handed)
      ensures ok ==> old(state) == New && current && state == ReadyReceived && InBudget() && InPhase(timeouts.ready)
      ensures ok ==> |a.ready| <= a.limits.maxMetadata && Said(Added()) == Frame(Ready, a.ready)
      ensures !ok ==> state == if old(state) == New && current then Ambiguous else old(state)
      ensures old(wire.trouble) ==> wire.trouble
      ensures !ok && old(state) == New && current ==> Spent(timeouts.ready) || |a.ready| > a.limits.maxMetadata
    {
      hide AllZero, Session.Sound, RunW, Said, Frame, Beats, Passed;
      if state != New || !current {
        Refuse();
        return false;
      }
      ok := SendReady();
      SilentFirst(old(wire.labels), BeginWrapper(WrapperCall.WriteReady), wire.labels);
    }

    method SendReady() returns (ok: bool)
      requires Sound() && state == New
      modifies this`state, wire, wire.guard
      ensures Sound() && old(wire.labels) + [BeginWrapper(WrapperCall.WriteReady)] <= wire.labels
      ensures old(wire.guard.accepted) <= wire.guard.accepted && state == if ok then ReadyReceived else Ambiguous
      ensures ok ==> InBudget() && InPhase(timeouts.ready)
      ensures ok ==> |a.ready| <= a.limits.maxMetadata
      ensures ok ==> Said(wire.labels[|old(wire.labels)| + 1..]) == Frame(Ready, a.ready)
      ensures old(wire.trouble) ==> wire.trouble
      ensures !ok ==> Spent(timeouts.ready) || |a.ready| > a.limits.maxMetadata
    {
      MetadataLimit(a);
      hide RunW, WrapperStep, MetadataCalls, Verified, Said, Frame, Beats, Passed, PhaseFrom,
        InTime, Excused, MonotonicGuard.Valid;
      ReadyBegins(a, Now());
      ghost var l := BeginWrapper(WrapperCall.WriteReady);
      var phase := Begin(l, timeouts.ready);
      ok := ReadyInPhase(phase);
      if phase.Some? {
        LastIsLast(wire, phase.value);
        LastIsLast(wire, absolute);
        PhaseTiming(wire.guard.accepted, |old(wire.guard.accepted)|, timeouts.ready, absolute.expiresAt,
          phase.value.expiresAt);
      }
    }

    /** The ready frame, if there is a deadline for it. */
    method ReadyInPhase(phase: Option<Deadline>) returns (ok: bool)
      requires wire.guard.Valid() && (phase.Some? ==> phase.value.guard == wire.guard)
      requires RunW(a, SessionStart, wire.labels).Some?
      requires if MetadataFits(a, a.ready) then
                 Now().phase == InSession(New) && Now().act == Writing(MetadataCalls(Ready, a.ready), ReadyReceived)
               else Now().phase == InSession(Ambiguous) && Now().act.Idle?
      modifies this`state, wire, wire.guard
      ensures wire.guard.Valid() && Extends()
      ensures RunW(a, SessionStart, wire.labels).Some? && Now().act.Idle? && Now().phase == InSession(state)
      ensures state == (if ok then ReadyReceived else Ambiguous) && Now().sink == old(Now().sink)
      ensures ok ==> MetadataFits(a, a.ready)
      ensures ok ==> phase.Some? && InTime(wire.guard, phase.value) && Said(Added()) == Frame(Ready, a.ready)
      ensures old(wire.trouble) ==> wire.trouble
      ensures !ok ==> !MetadataFits(a, a.ready) || phase.None? || Excused(wire, phase.value)
      ensures phase.None? ==> wire.guard.accepted == old(wire.guard.accepted)
    {
      hide RunW, MetadataCalls, WrapperStep, Said, Frame, Concat, InTime, Excused;
      ok := false;
      if MetadataFits(a, a.ready) {
        if phase.Some? {
          MetadataConcat(a, Ready, a.ready);
          MetadataCallsSome(Ready, a.ready);
          ok := WriteFrame(phase.value, MetadataCalls(Ready, a.ready), ReadyReceived);
        } else {
          LateRefusesWrite(a, Now());
          Record(Late);
        }
      }
      state := if ok then ReadyReceived else Ambiguous;
    }

    method ReadClaim(reader: Reader, current: bool) returns (ok: bool)
      requires Valid()
      modifies this, wire, wire.guard, reader
      ensures Valid() && Extends() && handed == old(handed)
      ensures ok ==>
        old(state) == ReadyReceived && current && state == ClaimSent && InBudget() && InPhase(timeouts.claim)
      ensures ok ==> |a.claim| <= a.limits.maxMetadata && Heard(Added()) == Frame(Claim, a.claim)
      ensures !ok ==> state == if old(state) == ReadyReceived && current then Ambiguous else old(state)
      ensures old(wire.trouble) ==> wire.trouble
      ensures old(state) == ReadyReceived && current && reader.faithful
              && Begins(old(reader.incoming), Claim, a.claim, a.limits.maxMetadata) ==>
        (ok || Spent(timeouts.claim)) && (ok ==> old(reader.incoming) == Frame(Claim, a.claim) + reader.incoming)
    {
      hide AllZero, RunW, Heard, Frame, Beats, Passed, Begins, Verified, InTime, MonotonicGuard.Valid;
      if state != ReadyReceived || !current {
        Refuse();
        return false;
      }
      ok := TakeClaim(reader);
      assert wire.labels == old(wire.labels) + Added();
      if ok {
        TookClaim(a, old(wire.labels), Added());
      }
    }

    method TakeClaim(reader: Reader) returns (ok: bool)
      requires Sound() && state == ReadyReceived
      modifies this`state, wire, wire.guard, reader
      ensures Sound() && Extends() && state == if ok then ClaimSent else Ambiguous
      ensures ok ==> InBudget() && InPhase(timeouts.claim)
      ensures old(wire.trouble) ==> wire.trouble
      ensures reader.faithful && Begins(old(reader.incoming), Claim, a.claim, a.limits.maxMetadata) ==>
        (ok || Spent(timeouts.claim)) && (ok ==> old(reader.incoming) == Frame(Claim, a.claim) + reader.incoming)
    {
      MetadataLimit(a);
      ClaimBegins(a, Now());
      BeginsIffWhole(reader.incoming, Claim, a.claim, a.limits.maxMetadata);
      hide RunW, WrapperStep, ReadW, Verified, ChunkOk, Heard, Frame, Begins, Decode, Beats, Passed, PhaseFrom;
      ghost var l := BeginWrapper(WrapperCall.ReadClaim);
      var phase := Begin(l, timeouts.claim);
      ok := false;
      if phase.None? {
        LateRefusesRead(a, Now());
        Record(Late);
      } else {
        var payload := ReadPayload(reader, phase.value, Claim);
        ok := payload == Some(a.claim);
        PhaseTiming(wire.guard.accepted, |old(wire.guard.accepted)|, timeouts.claim, absolute.expiresAt,
          phase.value.expiresAt);
      }
      state := if ok then ClaimSent else Ambiguous;
    }

    /** Judges one complete payload in its buffer, hands the chunk to the sink, and zeroes the buffer. */
    method Deliver(payload: bytes, k: nat, consumed: nat) returns (accepted: bool)
      requires Verified(a) && RunW(a, SessionStart, wire.labels).Some? && Scrubbed()
      requires k < |a.counts|
      requires Takes(payload, k, consumed) ==> Now().act == Delivering(payload[2..])
      modifies this`handed, wire
      ensures Scrubbed() && exists b :: fresh(b) && handed == old(handed) + {b}
      ensures accepted ==> Takes(payload, k, consumed)
      ensures Takes(payload, k, consumed) ==>
        && wire.labels == old(wire.labels) + [Sink(accepted)]
        && RunW(a, SessionStart, wire.labels) == WrapperStep(a, old(Now()), Sink(accepted))
      ensures !Takes(payload, k, consumed) ==> wire.labels == old(wire.labels)
      ensures (old(wire.trouble) ==> wire.trouble) && (Takes(payload, k, consumed) && !accepted ==> wire.trouble)
    {
      hide RunW, ReadW;
      var buffer: array<byte> := new byte[|payload|](i requires 0 <= i < |payload| => payload[i]);
      accepted := false;
      if Takes(payload, k, consumed) {
        accepted := AskSink(wire, payload[2..]);
        Record(Sink(accepted));
      }
      ZeroRange(buffer, 0, buffer.Length);
      handed := handed + {buffer};
    }

    /** The wrapper's checks on the payload of field k: ordinal, count, running total and grammar. */
    predicate Takes(payload: bytes, k: nat, consumed: nat)
      requires k < |a.counts|
    {
      && |payload| >= 2 && ReadU16(payload[..2]) == k + 1 && |payload| - 2 == a.counts[k]
      && consumed + |payload| - 2 <= a.limits.maxTotal && Deliverable(a, payload[2..])
    }

    /** The right frame of field k at the head of the input is read whole and passes the checks. */
    lemma NextIsTaken(sink: seq<bytes>, next: bytes, stream: bytes)
      requires Verified(a) && ChunksFor(a, sink) && Offers(|sink|, next, stream)
      ensures var payload := U16(|sink| + 1) + next;
              && payload[2..] == next && Takes(payload, |sink|, Sum(Lengths(sink)))
              && After(|sink|, next, stream, stream[12 + |next|..])
              && Decode(stream, SecretChunk, a.limits.maxChunk + 2) == Whole(payload, stream[12 + |next|..])
    {
      var payload := U16(|sink| + 1) + next;
      hide Sum, Base64Url.Accepts, Base64Url.Encode, Decode;
      CountsWithinTotal(a, sink);
      Base64Url.AcceptsIffCanonicalEncoding(32, next);
      var rest := stream[12 + |next|..];
      assert stream == Frame(SecretChunk, payload) + rest;
      DecodeOfFrame(SecretChunk, payload, rest, a.limits.maxChunk + 2);
    }

    /**
     One turn of the delivery loop: the chunk of field k, or failure. `next` is a chunk that would do, if
     the input begins with its frame.
     */
    method ConsumeOne(reader: Reader, k: nat, consumed: nat, ghost next: bytes) returns (size: Option<nat>)
      requires Verified(a) && wire.guard.Valid() && |wire.guard.accepted| > 0 && Scrubbed()
      requires absolute == Deadline(wire.guard, wire.guard.accepted[0] + timeouts.absolute as real)
      requires RunW(a, SessionStart, wire.labels).Some?
      requires k < |a.counts| && |Now().sink| == k && consumed == Sum(Lengths(Now().sink))
      requires Now().phase == InSession(ClaimSent) && Now().act == Activity.Reading(SecretChunk, [])
      modifies this`handed, wire, wire.guard, reader
      ensures wire.guard.Valid() && Extends() && Scrubbed()
      ensures RunW(a, SessionStart, wire.labels).Some?
      ensures Turned(old(Now()), Now(), k, consumed, Added(), size)
      ensures size.Some? ==> InBudget() && InPhase(timeouts.terminalAck)
      ensures forall b :: b in handed ==> b in old(handed) || fresh(b)
      ensures old(wire.trouble) ==> wire.trouble
      ensures reader.faithful && Offers(k, next, old(reader.incoming)) ==>
        && (size.Some? || Spent(timeouts.terminalAck))
        && (size.Some? ==>
              Now().sink == old(Now().sink) + [next] && After(k, next, old(reader.incoming), reader.incoming))
    {
      hide RunW, ReadW, FrameProgress, Sum, Verified, Deliverable, Session.Turned, Session.Offers, Session.After,
        Beats, Passed, PhaseFrom, InTime, Excused, WrapperStep;
      var phase := PhaseOf(timeouts.terminalAck);
      if phase.None? {
        TurnRefused(Now(), k, consumed, [Late]);
        Record(Late);
        assert Added() == [Late];
        size := None;
      } else {
        size := TakeOne(reader, phase.value, k, consumed, next);
        LastIsLast(wire, phase.value);
        LastIsLast(wire, absolute);
        PhaseTiming(wire.guard.accepted, |old(wire.guard.accepted)|, timeouts.terminalAck, absolute.expiresAt,
          phase.value.expiresAt);
      }
    }

    /** The stream begins with the secret frame of this chunk, which is one for field k. */
    ghost predicate Offers(k: nat, chunk: bytes, stream: bytes) {
      k < 4 && |chunk| <= 65536 && ChunkFor(a, k, chunk) && SecretFrame(k + 1, chunk) <= stream
    }

    ghost predicate After(k: nat, chunk: bytes, stream: bytes, rest: bytes) {
      k < 4 && |chunk| <= 65536 && stream == SecretFrame(k + 1, chunk) + rest
    }

    /** The chunk of field k by a given deadline. */
    method TakeOne(reader: Reader, phase: Deadline, k: nat, consumed: nat, ghost next: bytes)
      returns (size: Option<nat>)
      requires Verified(a) && wire.guard.Valid() && Scrubbed() && phase.guard == wire.guard
      requires RunW(a, SessionStart, wire.labels).Some?
      requires k < |a.counts| && |Now().sink| == k && consumed == Sum(Lengths(Now().sink))
      requires Now().phase == InSession(ClaimSent) && Now().act == Activity.Reading(SecretChunk, [])
      modifies this`handed, wire, wire.guard, reader
      ensures wire.guard.Valid() && Extends() && Scrubbed()
      ensures RunW(a, SessionStart, wire.labels).Some?
      ensures Turned(old(Now()), Now(), k, consumed, Added(), size)
      ensures size.Some? ==> InTime(wire.guard, phase)
      ensures forall b :: b in handed ==> b in old(handed) || fresh(b)
      ensures old(wire.trouble) ==> wire.trouble
      ensures reader.faithful && Offers(k, next, old(reader.incoming)) ==>
        && (size.Some? || Excused(wire, phase))
        && (size.Some? ==>
              Now().sink == old(Now().sink) + [next] && After(k, next, old(reader.incoming), reader.incoming))
    {
      hide RunW, ReadW, FrameProgress, Sum, Verified, Deliverable, ChunkTaken, ChunkFor, Decode, AcceptW, WrapperStep,
        Session.Turned, Session.Takes, Session.Offers, Session.After, InTime, ChunksFor;
      SinkIsFor(a, wire.labels);
      if Offers(k, next, reader.incoming) {
        NextIsTaken(Now().sink, next, reader.incoming);
      }
      ghost var u := Now();
      var payload := ReadPayload(reader, phase, SecretChunk);
      size := None;
      if payload.None? {
        TurnRefused(u, k, consumed, Added());
      } else {
        var accepted := Judge(payload.value, k, consumed, u);
        assert wire.labels == old(wire.labels) + Added();
        if accepted {
          TookChunk(a, old(wire.labels), Added(), payload.value[2..]);
          size := Some(|payload.value| - 2);
          TurnDone(u, k, consumed, payload.value, Added());
        } else {
          TurnOver(u, Now(), k, consumed, Added());
        }
      }
    }

    /** The checks on a payload, and its delivery. */
    method Judge(payload: bytes, k: nat, consumed: nat, ghost u: Wrapper) returns (accepted: bool)
      requires Verified(a) && RunW(a, SessionStart, wire.labels).Some? && Scrubbed()
      requires k < |a.counts| && |u.sink| == k && consumed == Sum(Lengths(u.sink)) && u.phase == InSession(ClaimSent)
      requires Now() == AcceptW(a, u, SecretChunk, payload)
      modifies this`handed, wire
      ensures Scrubbed() && (forall b :: b in handed ==> b in old(handed) || fresh(b))
      ensures old(wire.labels) <= wire.labels && RunW(a, SessionStart, wire.labels).Some?
      ensures accepted ==> |payload| >= 2 && |payload| - 2 == a.counts[k] && Now() == Taken(u, k, payload[2..])
      ensures !accepted ==> Now().phase == InSession(Ambiguous) && Now().act.Idle?
      ensures (old(wire.trouble) ==> wire.trouble) && (Takes(payload, k, consumed) && !accepted ==> wire.trouble)
    {
      hide RunW, Sum, Verified, AcceptW, WrapperStep, Session.Takes;
      TurnOfPayload(u, k, consumed, payload);
      accepted := Deliver(payload, k, consumed);
    }

    /** How a turn changes the state: a chunk more, or ambiguity. */
    ghost predicate Turned(u: Wrapper, v: Wrapper, k: nat, consumed: nat, added: seq<Label>, size: Option<nat>)
      requires k < |a.counts|
    {
      if size.None? then v.phase == InSession(Ambiguous) && v.act.Idle?
      else
        && size.value == a.counts[k] && ChunkTaken(a, u.sink, v.sink, added)
        && |v.sink| == k + 1 && consumed + size.value == Sum(Lengths(v.sink))
        && if k + 1 < |a.counts| then v.phase == InSession(ClaimSent) && v.act == Activity.Reading(SecretChunk, [])
           else v.phase == InSession(ChunksSent) && v.act.Idle?
    }

    /** A deadline check or a sink that refuses, and a payload that is not the one wanted, end in ambiguity. */
    lemma TurnRefused(u: Wrapper, k: nat, consumed: nat, added: seq<Label>)
      requires k < |a.counts| && u.phase == InSession(ClaimSent)
      ensures forall w: Wrapper :: w.phase == u.phase ==> Turned(u, FailW(w), k, consumed, added, None)
      ensures u.act.Reading? ==> WrapperStep(a, u, Late) == Some(FailW(u))
    {
    }

    lemma TurnOver(u: Wrapper, v: Wrapper, k: nat, consumed: nat, added: seq<Label>)
      requires k < |a.counts| && v.phase == InSession(Ambiguous) && v.act.Idle?
      ensures Turned(u, v, k, consumed, added, None)
    {
    }

    lemma TurnOfPayload(u: Wrapper, k: nat, consumed: nat, payload: bytes)
      requires k < |a.counts| && |u.sink| == k && consumed == Sum(Lengths(u.sink)) && u.phase == InSession(ClaimSent)
      ensures var w := AcceptW(a, u, SecretChunk, payload);
              if Takes(payload, k, consumed) then
                && |payload| >= 2 && |payload| - 2 == a.counts[k] && w == u.(act := Delivering(payload[2..]))
                && WrapperStep(a, w, Sink(false)) == Some(FailW(w.(sink := u.sink + [payload[2..]])))
                && WrapperStep(a, w, Sink(true)) == Some(Taken(u, k, payload[2..]))
              else w == FailW(u)
    {
    }

    /** After chunk k was handed over. */
    ghost function Taken(u: Wrapper, k: nat, chunk: bytes): Wrapper {
      if k + 1 < |a.counts| then u.(sink := u.sink + [chunk], act := Activity.Reading(SecretChunk, []))
      else u.(sink := u.sink + [chunk], phase := InSession(ChunksSent), act := Idle)
    }

    lemma TurnDone(u: Wrapper, k: nat, consumed: nat, payload: bytes, added: seq<Label>)
      requires k < |a.counts| && |u.sink| == k && consumed == Sum(Lengths(u.sink)) && u.phase == InSession(ClaimSent)
      requires |payload| >= 2 && |payload| - 2 == a.counts[k]
      requires ChunkTaken(a, u.sink, u.sink + [payload[2..]], added)
      ensures Turned(u, Taken(u, k, payload[2..]), k, consumed, added, Some(|payload| - 2))
    {
      hide ChunkTaken, Sum;
      SumOfSnoc(u.sink, payload[2..]);
    }

    /** The stream begins with the secret frames of these chunks, one for each field. */
    ghost predicate Streams(chunks: seq<bytes>, stream: bytes) {
      |chunks| == |a.counts| && ChunksFor(a, chunks) && Sendable(chunks) && SecretStream(chunks) <= stream
    }

    lemma OfferNext(chunks: seq<bytes>, k: nat, stream: bytes, ahead: bytes)
      requires Streams(chunks, stream) && k < |chunks| && stream == SecretStream(chunks[..k]) + ahead
      ensures Offers(k, chunks[k], ahead)
      ensures forall rest :: After(k, chunks[k], ahead, rest) ==> stream == SecretStream(chunks[..k + 1]) + rest
    {
      hide SecretStream, SecretFrame;
      var more := StreamSplits(chunks, k);
      var beyond := stream[|SecretStream(chunks)|..];
      var done, frame := SecretStream(chunks[..k]), SecretFrame(k + 1, chunks[k]);
      assert stream == done + (frame + (more + beyond));
      Difference(stream, done, ahead, frame + (more + beyond));
      OneChunkMore(chunks[..k], chunks[k]);
      assert chunks[..k + 1] == chunks[..k] + [chunks[k]];
      forall rest | After(k, chunks[k], ahead, rest) ensures stream == SecretStream(chunks[..k + 1]) + rest {
        AppendAssociates(done, frame, rest);
      }
    }

    /** Some phase of the call, or the absolute deadline, has passed, or some collaborator made trouble. */
    twostate predicate SpentSince(seconds: int)
      reads this, wire, wire.guard
    {
      || wire.trouble || seconds < 1
      || exists i: nat :: |old(wire.guard.accepted)| <= i && Passed(wire.guard.accepted, i, seconds, absolute.expiresAt)
    }

    /**
     Reads and delivers the chunks in field order; any deviation ends in ambiguity. `chunks` are those
     that would do, if the input begins with their frames.
     */
    method ConsumeSecretChunks(reader: Reader, current: bool, ghost chunks: seq<bytes> := []) returns (ok: bool)
      requires Valid()
      modifies this, wire, wire.guard, reader
      ensures Valid() && Extends()
      ensures ok ==> old(state) == ClaimSent && current && state == ChunksSent && InBudget()
      ensures ok ==>
        && |Now().sink| == |a.counts| && ChunksFor(a, Now().sink)
        && Sendable(Now().sink) && Heard(Added()) == SecretStream(Now().sink)
      ensures !ok ==> state == if old(state) == ClaimSent && current then Ambiguous else old(state)
      ensures old(state) != ClaimSent || !current ==> !ok && Now().sink == old(Now().sink)
      ensures old(wire.trouble) ==> wire.trouble
      ensures old(state) == ClaimSent && current && reader.faithful && Streams(chunks, old(reader.incoming)) ==>
        && (ok || SpentSince(timeouts.terminalAck))
        && (ok ==> Now().sink == chunks && old(reader.incoming) == SecretStream(chunks) + reader.incoming)
    {
      hide RunW, Header, ReadW, FrameProgress, Sum, ParseHeader, ChunkOk, SecretStream, Passed, Heard, ChunkFor,
        Session.Offers, Session.After, SecretFrame, WrapperStep, ChunkTaken;
      ok := false;
      if state != ClaimSent || !current {
        Refuse();
      } else {
        NothingDelivered(a, wire.labels);
        ConsumeBegins(a, Now());
        Record(BeginWrapper(WrapperCall.ConsumeSecretChunks));
        ok := ConsumeAll(reader, chunks);
        state := if ok then ChunksSent else Ambiguous;
        assert wire.labels == old(wire.labels) + Added();
        if ok {
          TookChunks(a, old(wire.labels), Added());
        }
      }
    }

    /** Chunk by chunk. */
    method ConsumeAll(reader: Reader, ghost chunks: seq<bytes>) returns (ok: bool)
      requires Verified(a) && wire.guard.Valid() && |wire.guard.accepted| > 0 && Scrubbed()
      requires absolute == Deadline(wire.guard, wire.guard.accepted[0] + timeouts.absolute as real)
      requires RunW(a, SessionStart, wire.labels).Some? && Now().sink == []
      requires Now().phase == InSession(ClaimSent) && Now().act == Activity.Reading(SecretChunk, [])
      modifies this`handed, wire, wire.guard, reader
      ensures wire.guard.Valid() && Extends() && Scrubbed() && RunW(a, SessionStart, wire.labels).Some?
      ensures Now().act.Idle? && Now().phase == InSession(if ok then ChunksSent else Ambiguous)
      ensures ok ==> InBudget()
      ensures forall b :: b in handed ==> b in old(handed) || fresh(b)
      ensures old(wire.trouble) ==> wire.trouble
      ensures reader.faithful && Streams(chunks, old(reader.incoming)) ==>
        && (ok || SpentSince(timeouts.terminalAck))
        && (ok ==> Now().sink == chunks && old(reader.incoming) == SecretStream(chunks) + reader.incoming)
    {
      hide RunW, ReadW, FrameProgress, Sum, ChunkOk, SecretStream, Passed, ChunkFor, Session.Offers, Session.After,
        SecretFrame, WrapperStep, ChunkTaken, InTime, Beats;
      SumOfNone();
      NoSecrets();
      CountsNonempty(a);
      var k, consumed := 0, 0;
      ghost var good := reader.faithful && Streams(chunks, reader.incoming);
      ghost var stream := reader.incoming;
      assert [] + stream == stream && (good ==> chunks[..0] == []);
      while k < |a.counts|
        invariant 0 <= k <= |a.counts| && Verified(a)
        invariant wire.guard.Valid() && Extends() && Scrubbed() && (old(wire.trouble) ==> wire.trouble)
        invariant |wire.guard.accepted| > 0
        invariant absolute == Deadline(wire.guard, wire.guard.accepted[0] + timeouts.absolute as real)
        invariant RunW(a, SessionStart, wire.labels).Some?
        invariant |Now().sink| == k && consumed == Sum(Lengths(Now().sink))
        invariant k < |a.counts| ==> Now().phase == InSession(ClaimSent)
                                     && Now().act == Activity.Reading(SecretChunk, [])
        invariant k == |a.counts| ==> Now().phase == InSession(ChunksSent) && Now().act.Idle?
        invariant k > 0 ==> InBudget()
        invariant forall b :: b in handed ==> b in old(handed) || fresh(b)
        invariant good ==>
          k <= |chunks| && Now().sink == chunks[..k] && stream == SecretStream(chunks[..k]) + reader.incoming
      {
        ghost var next := [];
        if good {
          next := chunks[k];
          OfferNext(chunks, k, stream, reader.incoming);
        }
        var size := ConsumeOne(reader, k, consumed, next);
        if size.None? {
          return false;
        }
        consumed := consumed + size.value;
        k := k + 1;
      }
      assert good ==> chunks[..k] == chunks;
      return true;
    }

    method RequireInputEof(reader: Reader, current: bool) returns (ok: bool)
      requires Valid()
      modifies this, wire, wire.guard, reader
      ensures Valid() && Extends() && handed == old(handed) && Now().sink == old(Now().sink)
      ensures ok ==>
        old(state) == ChunksSent && current && state == WriteClosed && InBudget() && InPhase(timeouts.terminalAck)
      ensures ok ==> Now().eofSeen && wire.labels[|wire.labels| - 1] == Read([])
      ensures !ok ==> state == if old(state) == ChunksSent && current then Ambiguous else old(state)
      ensures old(wire.trouble) ==> wire.trouble
      ensures old(state) == ChunksSent && current && reader.faithful && old(reader.incoming) == [] ==>
        ok || Spent(timeouts.terminalAck)
    {
      hide AllZero, RunW, Header, ReadW, Verified, ChunkOk, FrameProgress;
      if state != ChunksSent || !current {
        Refuse();
        return false;
      }
      Record(BeginWrapper(WrapperCall.RequireInputEof));
      var phase := PhaseOf(timeouts.terminalAck);
      ok := false;
      if phase.Some? {
        ok := AwaitEnd(reader, phase.value);
      } else {
        Record(Late);
      }
      state := if ok then WriteClosed else Ambiguous;
    }

    /** Asks for one octet where there must be none, with a deadline check on either side. */
    method AwaitEnd(reader: Reader, phase: Deadline) returns (ok: bool)
      requires wire.guard.Valid() && phase.guard == wire.guard
      requires RunW(a, SessionStart, wire.labels).Some? && Now().act == AwaitingEof
      modifies wire, wire.guard, reader
      ensures wire.guard.Valid() && Extends() && handed == old(handed)
      ensures RunW(a, SessionStart, wire.labels) == Some(
        if ok then old(Now()).(phase := InSession(WriteClosed), act := Idle, eofSeen := true) else FailW(old(Now())))
      ensures ok ==> InTime(wire.guard, phase) && wire.labels[|wire.labels| - 1] == Read([])
      ensures ok ==> CheckedAround(|wire.guard.accepted| - |old(wire.guard.accepted)|, 1)
      ensures old(wire.trouble) ==> wire.trouble
      ensures reader.faithful && old(reader.incoming) == [] ==> ok || Excused(wire, phase)
    {
      hide RunW, Header, ReadW, Verified, ChunkOk, FrameProgress;
      var before := CheckDeadline(wire, phase);
      if !before {
        Record(Late);
        return false;
      }
      var o := reader.Ask(1);
      var after := CheckDeadline(wire, phase);
      Record(match o
        case ReadRaised(lost) => ReadBroke(lost)
        case NotBytes(consumed) => ReadBroke(consumed)
        case Block(data) => if after then Read(data) else ReadBroke(data));
      ok := o.Block? && after && o.data == [];
    }

    method CloseOutput(phase: Deadline) returns (ok: bool)
      requires wire.guard.Valid() && RunW(a, SessionStart, wire.labels).Some? && Now().act.Closing?
      modifies wire, wire.guard
      ensures wire.guard.Valid() && Extends()
      ensures RunW(a, SessionStart, wire.labels)
           == Some(if ok then old(Now()).(phase := InSession(Closed), act := Idle) else FailW(old(Now())))
      ensures ok ==> InTime(wire.guard, phase) && wire.labels == old(wire.labels) + [HalfClose(true, true)]
      ensures ok ==> CheckedAround(|wire.guard.accepted| - |old(wire.guard.accepted)|, 1)
      ensures (old(wire.trouble) ==> wire.trouble) && (!ok ==> Excused(wire, phase))
    {
      hide RunW;
      var before := CheckDeadline(wire, phase);
      if !before {
        Record(Late);
        return false;
      }
      var o := AskCloser(wire);
      var after := CheckDeadline(wire, phase);
      ok := o.ReportedClosed? && after;
      Record(HalfClose(o.ReportedClosed? || o.closed, ok));
    }

    method WriteTerminalAckAndCloseOutput(current: bool) returns (ok: bool)
      requires Valid()
      modifies this, wire, wire.guard
      ensures Valid() && Extends() && handed == old(handed) && Now().sink == old(Now().sink)
      ensures ok ==>
        old(state) == WriteClosed && current && state == Closed && InBudget() && InPhase(timeouts.terminalAck)
      ensures ok ==> |a.ack| <= a.limits.maxMetadata && Said(Added()) == Frame(TerminalAck, a.ack)
      ensures ok ==> wire.labels[|wire.labels| - 1] == HalfClose(true, true)
      ensures !ok ==> state == if old(state) == WriteClosed && current then Ambiguous else old(state)
      ensures old(wire.trouble) ==> wire.trouble
      ensures !ok && old(state) == WriteClosed && current ==>
        Spent(timeouts.terminalAck) || |a.ack| > a.limits.maxMetadata
    {
      hide AllZero, RunW, Said, Frame, Beats, Passed, Verified, InTime, MonotonicGuard.Valid;
      if state != WriteClosed || !current {
        Refuse();
        return false;
      }
      ok := SendAck();
      SilentFirst(old(wire.labels), BeginWrapper(WriteAckAndCloseOutput), wire.labels);
    }

    method SendAck() returns (ok: bool)
      requires Sound() && state == WriteClosed
      modifies this`state, wire, wire.guard
      ensures Sound() && old(wire.labels) + [BeginWrapper(WriteAckAndCloseOutput)] <= wire.labels
      ensures old(wire.guard.accepted) <= wire.guard.accepted && state == if ok then Closed else Ambiguous
      ensures Now().sink == old(Now().sink)
      ensures ok ==> InBudget() && InPhase(timeouts.terminalAck)
      ensures ok ==> |a.ack| <= a.limits.maxMetadata
      ensures ok ==> Said(wire.labels[|old(wire.labels)| + 1..]) == Frame(TerminalAck, a.ack)
      ensures ok ==> wire.labels[|wire.labels| - 1] == HalfClose(true, true)
      ensures old(wire.trouble) ==> wire.trouble
      ensures !ok ==> Spent(timeouts.terminalAck) || |a.ack| > a.limits.maxMetadata
    {
      MetadataLimit(a);
      hide RunW, WrapperStep, MetadataCalls, Verified, Said, Frame, Beats, Passed, PhaseFrom,
        InTime, Excused, MonotonicGuard.Valid;
      AckBegins(a, Now());
      ghost var l := BeginWrapper(WriteAckAndCloseOutput);
      var phase := Begin(l, timeouts.terminalAck);
      ok := AckInPhase(phase);
      if phase.Some? {
        LastIsLast(wire, phase.value);
        LastIsLast(wire, absolute);
        PhaseTiming(wire.guard.accepted, |old(wire.guard.accepted)|, timeouts.terminalAck, absolute.expiresAt,
          phase.value.expiresAt);
      }
    }

    /** The acknowledgement and the close, if there is a deadline for them. */
    method AckInPhase(phase: Option<Deadline>) returns (ok: bool)
      requires wire.guard.Valid() && (phase.Some? ==> phase.value.guard == wire.guard)
      requires RunW(a, SessionStart, wire.labels).Some?
      requires if MetadataFits(a, a.ack) then
                 && Now().phase == InSession(WriteClosed)
                 && Now().act == Writing(MetadataCalls(TerminalAck, a.ack), Closed)
               else Now().phase == InSession(Ambiguous) && Now().act.Idle?
      modifies this`state, wire, wire.guard
      ensures wire.guard.Valid() && Extends()
      ensures RunW(a, SessionStart, wire.labels).Some? && Now().act.Idle? && Now().phase == InSession(state)
      ensures state == (if ok then Closed else Ambiguous) && Now().sink == old(Now().sink)
      ensures ok ==> MetadataFits(a, a.ack)
      ensures ok ==> phase.Some? && InTime(wire.guard, phase.value) && Said(Added()) == Frame(TerminalAck, a.ack)
      ensures ok ==> wire.labels[|wire.labels| - 1] == HalfClose(true, true)
      ensures old(wire.trouble) ==> wire.trouble
      ensures !ok ==> !MetadataFits(a, a.ack) || phase.None? || Excused(wire, phase.value)
      ensures phase.None? ==> wire.guard.accepted == old(wire.guard.accepted)
    {
      hide RunW, MetadataCalls, WrapperStep, Said, Frame, InTime, Excused;
      ok := false;
      if MetadataFits(a, a.ack) {
        if phase.Some? {
          ok := AckAndClose(phase.value);
        } else {
          LateRefusesWrite(a, Now());
          Record(Late);
        }
      }
      state := if ok then Closed else Ambiguous;
    }

    method AckAndClose(phase: Deadline) returns (ok: bool)
      requires wire.guard.Valid() && MetadataFits(a, a.ack)
      requires RunW(a, SessionStart, wire.labels).Some?
      requires Now().act == Writing(MetadataCalls(TerminalAck, a.ack), Closed)
      modifies wire, wire.guard
      ensures wire.guard.Valid() && Extends()
      ensures RunW(a, SessionStart, wire.labels)
           == Some(if ok then old(Now()).(phase := InSession(Closed), act := Idle) else FailW(old(Now())))
      ensures ok ==> InTime(wire.guard, phase) && wire.labels[|wire.labels| - 1] == HalfClose(true, true)
      ensures ok ==> Said(Added()) == Frame(TerminalAck, a.ack)
      ensures (old(wire.trouble) ==> wire.trouble) && (!ok ==> Excused(wire, phase))
    {
      hide RunW, Header, ReadW, Verified, ChunkOk, FrameProgress, WrapperStep, Said, Frame, Concat;
      MetadataConcat(a, TerminalAck, a.ack);
      ok := WriteFrame(phase, MetadataCalls(TerminalAck, a.ack), Closed);
      if ok {
        ghost var written := wire.labels;
        ok := CloseOutput(phase);
        if ok {
          SilentLast(old(wire.labels), written, HalfClose(true, true));
        }
      }
    }
  }

  /** The envelope's own deadlines have passed, or some collaborator has made trouble. */
  ghost predicate OpeningSpent(w: Wire, timeouts: Timeouts, n: nat)
    reads w, w.guard
  {
    || w.trouble || timeouts.absolute < 1 || timeouts.ready < 1
    || (n < |w.guard.accepted|
        && Passed(w.guard.accepted, n + 1, timeouts.ready, w.guard.accepted[n] + timeouts.absolute as real))
  }

  method OpeningPhase(timeouts: Timeouts, wire: Wire) returns (phase: Option<Deadline>)
    requires wire.guard.Valid()
    modifies wire`trouble, wire.guard
    ensures wire.guard.Valid() && old(wire.guard.accepted) <= wire.guard.accepted
    ensures old(wire.trouble) ==> wire.trouble
    ensures phase.None? ==> OpeningSpent(wire, timeouts, |old(wire.guard.accepted)|)
    ensures phase.Some? ==>
      var n := |old(wire.guard.accepted)|;
      && |wire.guard.accepted| == n + 2 && phase.value.guard == wire.guard
      && PhaseFrom(phase.value.expiresAt, wire.guard.accepted[n + 1], timeouts.ready,
           wire.guard.accepted[n] + timeouts.absolute as real)
  {
    var first := ReadClock(wire);
    var absolute := NewDeadline(wire.guard, timeouts.absolute, first);
    if absolute.None? {
      return None;
    }
    var second := ReadClock(wire);
    phase := PhaseDeadline(wire.guard, absolute.value, timeouts.ready, second);
  }

  /**
   The wrapper's first act, before it has a session: the ticket envelope frame, on a guard of its own.
   Success is the only way to reach the state every session starts in.
   */
  method ReadTicketEnvelope(a: Authorization, timeouts: Timeouts, wire: Wire, reader: Reader) returns (ok: bool)
    requires Verified(a) && wire.guard.Valid() && wire.labels == []
    modifies wire, wire.guard, reader
    ensures wire.guard.Valid() && RunW(a, WrapperStart, wire.labels).Some?
    ensures ok ==> RunW(a, WrapperStart, wire.labels) == Some(SessionStart)
    ensures ok ==>
      |a.envelope| <= a.limits.maxMetadata && Heard(wire.labels) == Frame(TicketEnvelope, a.envelope)
    ensures !ok ==> RunW(a, WrapperStart, wire.labels).value.phase in {AwaitingEnvelope, EnvelopeRefused}
    ensures old(wire.trouble) ==> wire.trouble
    ensures reader.faithful && Begins(old(reader.incoming), TicketEnvelope, a.envelope, a.limits.maxMetadata) ==>
      && (ok || OpeningSpent(wire, timeouts, |old(wire.guard.accepted)|))
      && (ok ==> old(reader.incoming) == Frame(TicketEnvelope, a.envelope) + reader.incoming)
  {
    MetadataLimit(a);
    BeginsIffWhole(reader.incoming, TicketEnvelope, a.envelope, a.limits.maxMetadata);
    hide Verified, Begins, Decode, Frame, Heard, RunW, Beats, Passed, PhaseFrom;
    NothingRead(a);
    var phase := OpeningPhase(timeouts, wire);
    if phase.None? {
      return false;
    }
    ok := ReadEnvelopeFrame(a, wire, reader, phase.value);
    PhaseTiming(wire.guard.accepted, |old(wire.guard.accepted)| + 1, timeouts.ready,
      wire.guard.accepted[|old(wire.guard.accepted)|] + timeouts.absolute as real, phase.value.expiresAt);
    if ok {
      TookEnvelope(a, wire.labels);
    }
  }

  lemma NothingRead(a: Authorization)
    ensures RunW(a, WrapperStart, []) == Some(WrapperStart)
  {
  }

  /** The frame, by a given deadline. */
  method ReadEnvelopeFrame(a: Authorization, wire: Wire, reader: Reader, phase: Deadline) returns (ok: bool)
    requires wire.guard.Valid() && wire.labels == [] && phase.guard == wire.guard
    modifies wire, wire.guard, reader
    ensures wire.guard.Valid() && old(wire.guard.accepted) <= wire.guard.accepted
    ensures RunW(a, WrapperStart, wire.labels).Some? && (old(wire.trouble) ==> wire.trouble)
    ensures if ok then RunW(a, WrapperStart, wire.labels) == Some(SessionStart)
            else RunW(a, WrapperStart, wire.labels).value.phase == EnvelopeRefused
    ensures reader.faithful ==>
      match Decode(old(reader.incoming), TicketEnvelope, a.limits.maxMetadata)
      case Whole(p, rest) => (ok ==> p == a.envelope && reader.incoming == rest)
                             && (!ok && p == a.envelope ==> Excused(wire, phase))
      case _ => !ok
  {
    hide FrameRead, ReadW, ChunkOk, FrameProgress, Decode, Excused, InTime;
    wire.Note(BeginWrapper(ReadEnvelope));
    RunWOne(a, WrapperStart, BeginWrapper(ReadEnvelope));
    ghost var before := wire.labels;
    assert before == [BeginWrapper(ReadEnvelope)];
    var payload := ReadFrame(wire, reader, phase, TicketEnvelope, a.limits.maxMetadata);
    ghost var steps := wire.labels[|before|..];
    WrapperReadsFrame(a, RunW(a, WrapperStart, before).value, TicketEnvelope, steps, payload);
    RunWAppend(a, WrapperStart, before, steps);
    assert wire.labels == before + steps;
    ok := payload == Some(a.envelope);
  }

  /** The envelope reader's labels followed by a session's labels are one run of the wrapper program. */
  lemma EnvelopeThenSession(a: Authorization, opening: seq<Label>, session: seq<Label>)
    requires RunW(a, WrapperStart, opening) == Some(SessionStart)
    ensures RunW(a, WrapperStart, opening + session) == RunW(a, SessionStart, session)
  {
    RunWAppend(a, WrapperStart, opening, session);
  }

  lemma TookEnvelope(a: Authorization, ls: seq<Label>)
    requires Verified(a) && RunW(a, WrapperStart, ls) == Some(SessionStart)
    ensures |a.envelope| <= a.limits.maxMetadata && Heard(ls) == Frame(TicketEnvelope, a.envelope)
  {
    hide RunW, Heard, Frame;
    RunHeard(a, WrapperStart, true, ls);
  }

  lemma TookClaim(a: Authorization, before: seq<Label>, added: seq<Label>)
    requires Verified(a) && RunW(a, SessionStart, before).Some? && RunW(a, SessionStart, before + added).Some?
    requires RunW(a, SessionStart, before).value.phase == InSession(ReadyReceived)
    requires RunW(a, SessionStart, before).value.act.Idle?
    requires RunW(a, SessionStart, before + added).value.phase == InSession(ClaimSent)
    requires RunW(a, SessionStart, before + added).value.act.Idle?
    ensures |a.claim| <= a.limits.maxMetadata && Heard(added) == Frame(Claim, a.claim)
  {
    hide RunW, Heard, Frame, ChunkFor, SecretStream, Sum;
    RunHeard(a, SessionStart, false, before);
    RunHeard(a, SessionStart, false, before + added);
    HeardAppend(before, added);
    Difference(Heard(before + added), [], Heard(added), Frame(Claim, a.claim));
  }

  /** One chunk more was handed over, its field's, and its secret frame was all that was taken in. */
  ghost predicate ChunkTaken(a: Authorization, sink: seq<bytes>, sink': seq<bytes>, added: seq<Label>) {
    && |sink| < 4 && |sink'| == |sink| + 1 && sink <= sink'
    && ChunkFor(a, |sink|, sink'[|sink|]) && |sink'[|sink|]| <= 65536
    && Heard(added) == SecretFrame(|sink| + 1, sink'[|sink|])
  }

  /** One more chunk handed over is one more secret frame taken in. */
  lemma TookChunk(a: Authorization, before: seq<Label>, added: seq<Label>, chunk: bytes)
    requires Verified(a) && RunW(a, SessionStart, before).Some? && RunW(a, SessionStart, before + added).Some?
    requires var u, v := RunW(a, SessionStart, before).value, RunW(a, SessionStart, before + added).value;
             && u.phase == InSession(ClaimSent) && u.act == Activity.Reading(SecretChunk, [])
             && v.sink == u.sink + [chunk]
             && ((v.phase == InSession(ClaimSent) && v.act == Activity.Reading(SecretChunk, []))
                 || v.phase == InSession(ChunksSent))
    ensures var u, v := RunW(a, SessionStart, before).value, RunW(a, SessionStart, before + added).value;
            ChunkTaken(a, u.sink, v.sink, added)
  {
    var u, v := RunW(a, SessionStart, before).value, RunW(a, SessionStart, before + added).value;
    StartHeard(a);
    hide RunW, Heard, SecretFrame, ChunkFor, ClaimAnd, SecretStream, WrapperHeard, Verified;
    RunHeard(a, SessionStart, false, before);
    RunHeard(a, SessionStart, false, before + added);
    HeardAppend(before, added);
    HeardBetween(a, u, Heard(before));
    HeardBetween(a, v, Heard(before + added));
    FourAtMost(a);
    OneFrameMore(a, u.sink, chunk, v.sink, Heard(added));
  }

  lemma OneFrameMore(a: Authorization, sink: seq<bytes>, chunk: bytes, longer: seq<bytes>, heard: bytes)
    requires longer == sink + [chunk] && ChunksFor(a, longer) && |a.counts| <= 4
    requires Sendable(sink) && Sendable(longer) && ClaimAnd(a, sink) + heard == ClaimAnd(a, longer)
    ensures ChunkFor(a, |sink|, chunk) && |chunk| <= 65536 && heard == SecretFrame(|sink| + 1, chunk)
  {
    hide ChunkFor, SecretStream, SecretFrame, ClaimPart;
    assert longer[|sink|] == chunk;
    OneChunkMore(sink, chunk);
    AppendAssociates(ClaimPart(a), SecretStream(sink), SecretFrame(|sink| + 1, chunk));
    Difference(ClaimAnd(a, longer), ClaimAnd(a, sink), heard, SecretFrame(|sink| + 1, chunk));
  }

  lemma StartHeard(a: Authorization)
    ensures WrapperHeard(a, SessionStart, false, [])
  {
  }

  lemma FourAtMost(a: Authorization)
    requires Verified(a)
    ensures |a.counts| <= 4
  {
  }

  lemma TookChunks(a: Authorization, before: seq<Label>, added: seq<Label>)
    requires Verified(a) && RunW(a, SessionStart, before).Some? && RunW(a, SessionStart, before + added).Some?
    requires RunW(a, SessionStart, before).value.phase == InSession(ClaimSent)
    requires RunW(a, SessionStart, before).value.act.Idle?
    requires RunW(a, SessionStart, before + added).value.phase == InSession(ChunksSent)
    ensures var sink := RunW(a, SessionStart, before + added).value.sink;
            |sink| == |a.counts| && ChunksFor(a, sink) && Sendable(sink) && Heard(added) == SecretStream(sink)
  {
    var sink := RunW(a, SessionStart, before + added).value.sink;
    StartHeard(a);
    hide RunW, Heard, SecretFrame, ChunkFor, ClaimPart, SecretStream, WrapperHeard, Verified;
    RunHeard(a, SessionStart, false, before);
    RunHeard(a, SessionStart, false, before + added);
    HeardAppend(before, added);
    HeardBetween(a, RunW(a, SessionStart, before).value, Heard(before));
    HeardBetween(a, RunW(a, SessionStart, before + added).value, Heard(before + added));
    NothingBefore(a, before);
    NoChunksAnd(a);
    Difference(Heard(before + added), ClaimPart(a), Heard(added), SecretStream(sink));
  }

  lemma NothingBefore(a: Authorization, before: seq<Label>)
    requires RunW(a, SessionStart, before).Some?
    requires RunW(a, SessionStart, before).value.phase == InSession(ClaimSent)
    requires RunW(a, SessionStart, before).value.act.Idle?
    ensures RunW(a, SessionStart, before).value.sink == []
  {
    hide RunW;
    NothingDelivered(a, before);
  }

  lemma SilentLast(before: seq<Label>, written: seq<Label>, l: Label)
    requires before <= written && BytesOut(l) == []
    ensures before <= written + [l] && Said((written + [l])[|before|..]) == Said(written[|before|..])
  {
    var added := written[|before|..];
    assert (written + [l])[|before|..] == added + [l];
    SaidAppend(added, [l]);
    assert Said([l]) == Said([]) + BytesOut(l);
  }

  /** What a session has handed over so far is chunks for its fields. */
  lemma SinkIsFor(a: Authorization, ls: seq<Label>)
    requires Verified(a) && RunW(a, SessionStart, ls).Some? && RunW(a, SessionStart, ls).value.phase.InSession?
    ensures ChunksFor(a, RunW(a, SessionStart, ls).value.sink)
  {
    StartHeard(a);
    RunHeard(a, SessionStart, false, ls);
  }

  /** One more field's count keeps within the total that verification checked. */
  lemma CountsWithinTotal(a: Authorization, sink: seq<bytes>)
    requires Verified(a) && ChunksFor(a, sink) && |sink| < |a.counts|
    ensures Sum(Lengths(sink)) + a.counts[|sink|] <= a.limits.maxTotal
  {
    assert Lengths(sink) == a.counts[..|sink|];
    var longer := a.counts[..|sink| + 1];
    assert longer[..|longer| - 1] == a.counts[..|sink|];
    SumOfPrefix(a.counts, |sink| + 1);
  }

  lemma {:induction false} SumOfPrefix(s: seq<nat>, k: nat)
    requires k <= |s|
    ensures Sum(s[..k]) <= Sum(s)
    decreases |s|
  {
    if k < |s| {
      SumOfPrefix(s[..|s| - 1], k);
      assert s[..|s| - 1][..k] == s[..k];
    } else {
      assert s[..k] == s;
    }
  }

  lemma ConsumeBegins(a: Authorization, w: Wrapper)
    requires w.act.Idle? && w.phase == InSession(ClaimSent)
    ensures WrapperStep(a, w, BeginWrapper(WrapperCall.ConsumeSecretChunks))
         == Some(w.(act := Activity.Reading(SecretChunk, [])))
  {
  }

  lemma ReadyBegins(a: Authorization, w: Wrapper)
    requires w.act.Idle? && w.phase == InSession(New)
    ensures WrapperStep(a, w, BeginWrapper(WrapperCall.WriteReady)) == Some(
      if MetadataFits(a, a.ready) then w.(act := Writing(MetadataCalls(Ready, a.ready), ReadyReceived)) else FailW(w))
  {
  }

  lemma ClaimBegins(a: Authorization, w: Wrapper)
    requires w.act.Idle? && w.phase == InSession(ReadyReceived)
    ensures WrapperStep(a, w, BeginWrapper(WrapperCall.ReadClaim)) == Some(w.(act := Activity.Reading(Claim, [])))
  {
  }

  lemma LateRefusesRead(a: Authorization, w: Wrapper)
    requires w.act.Reading?
    ensures WrapperStep(a, w, Late) == Some(FailW(w))
  {
  }

  lemma MetadataCallsSome(t: FrameType, payload: bytes)
    requires |payload| < 0x1_0000_0000
    ensures MetadataCalls(t, payload) != []
  {
  }

  lemma AckBegins(a: Authorization, w: Wrapper)
    requires w.act.Idle? && w.phase == InSession(WriteClosed)
    ensures WrapperStep(a, w, BeginWrapper(WriteAckAndCloseOutput)) == Some(
      if MetadataFits(a, a.ack) then w.(act := Writing(MetadataCalls(TerminalAck, a.ack), Closed)) else FailW(w))
  {
  }

  lemma LateRefusesWrite(a: Authorization, w: Wrapper)
    requires w.act.Writing?
    ensures WrapperStep(a, w, Late) == Some(FailW(w))
  {
  }

  lemma NoSecrets()
    ensures SecretStream([]) == []
  {
  }

  lemma CountsNonempty(a: Authorization)
    requires Verified(a)
    ensures 1 <= |a.counts| <= 4
  {
  }

  lemma SumOfNone()
    ensures Sum(Lengths([])) == 0
  {
  }

  lemma SumOfSnoc(sink: seq<bytes>, chunk: bytes)
    ensures Sum(Lengths(sink + [chunk])) == Sum(Lengths(sink)) + |chunk|
  {
    var s := Lengths(sink + [chunk]);
    assert s[..|s| - 1] == Lengths(sink);
  }

  /** Before the chunks are asked for, the sink has been given none. */
  predicate NoneYet(w: Wrapper) {
    match w.act
    case Reading(t, _) => t != SecretChunk ==> w.sink == []
    case Delivering(_) => true
    case Writing(_, next) => if next == Closed then w.phase == InSession(WriteClosed) else w.sink == []
    case _ =>
      w.phase in {AwaitingEnvelope, InSession(New), InSession(ReadyReceived), InSession(ClaimSent)} ==> w.sink == []
  }

  lemma {:induction false} NothingDelivered(a: Authorization, ls: seq<Label>)
    requires RunW(a, SessionStart, ls).Some?
    ensures NoneYet(RunW(a, SessionStart, ls).value)
  {
    if ls != [] {
      NothingDelivered(a, ls[..|ls| - 1]);
      NoneYetKept(a, RunW(a, SessionStart, ls[..|ls| - 1]).value, ls[|ls| - 1]);
    }
  }

  lemma NoneYetKept(a: Authorization, w: Wrapper, l: Label)
    requires NoneYet(w) && WrapperStep(a, w, l).Some?
    ensures NoneYet(WrapperStep(a, w, l).value)
  {
    hide ChunkOk, FrameProgress, MetadataCalls;
  }
}

/** The daemon-side V2 attach session: one object, seven calls, each following the daemon program. */
module DaemonSession {
  import opened Bytes
  import opened Frames
  import opened AttachProgram
  import opened AttachStreams
  import opened AttachWire
  import opened AttachRuns
  import opened AttachHeard
  import opened Deadlines
  import opened Scrub
  import ManySessions

  /**
   How a write_secret_chunks call ended. A stale authorization is refused before the scrubbing code;
   Unscrubbed is the interpreter giving up on the scrubber, which escapes the session's own errors.
   */
  datatype SecretOutcome = Sent | Stale | Failed | Unscrubbed

  class Session {
    const a: Authorization
    const timeouts: Timeouts
    const wire: Wire
    const absolute: Deadline
    var state: SessionState

    /** The recorded labels are a run of the daemon program that ends, idle, in this state. */
    ghost predicate Valid()
      reads this, wire, wire.guard
    {
      && Verified(a)
      && wire.guard.Valid() && |wire.guard.accepted| > 0
      && absolute == Deadline(wire.guard, wire.guard.accepted[0] + timeouts.absolute as real)
      && RunD(a, DaemonStart, wire.labels).Some?
      && Now().act.Idle? && Now().state == state
    }

    ghost function Now(): Daemon
      reads this, wire
      requires RunD(a, DaemonStart, wire.labels).Some?
    {
      RunD(a, DaemonStart, wire.labels).value
    }

    /** The last clock reading is strictly before construction time plus the absolute timeout. */
    ghost predicate InBudget()
      reads this, wire, wire.guard
    {
      && |wire.guard.accepted| > 0
      && InTime(wire.guard, Deadline(wire.guard, wire.guard.accepted[0] + timeouts.absolute as real))
    }

    constructor (a: Authorization, timeouts: Timeouts, wire: Wire, absolute: Deadline)
      requires Verified(a) && wire.guard.Valid() && wire.labels == [] && |wire.guard.accepted| > 0
      requires absolute == Deadline(wire.guard, wire.guard.accepted[0] + timeouts.absolute as real)
      ensures Valid() && state == New && this.wire == wire && this.a == a && this.timeouts == timeouts
    {
      this.a := a;
      this.timeouts := timeouts;
      this.wire := wire;
      this.absolute := absolute;
      state := New;
    }

    twostate predicate Extends()
      reads this, wire, wire.guard
    {
      old(wire.labels) <= wire.labels && old(wire.guard.accepted) <= wire.guard.accepted
    }

    /** The labels a call has added. */
    twostate function Added(): seq<Label>
      requires old(wire.labels) <= wire.labels
      reads this, wire
    {
      wire.labels[|old(wire.labels)|..]
    }

    /** The last clock reading is strictly before the call's first one plus its own phase budget. */
    twostate predicate InPhase(seconds: int)
      reads this, wire, wire.guard
    {
      Beats(wire.guard.accepted, |old(wire.guard.accepted)|, seconds)
    }

    /** The absolute deadline, or the call's own, has passed, or some collaborator has made trouble. */
    twostate predicate Spent(seconds: int)
      reads this, wire, wire.guard
    {
      || wire.trouble || seconds < 1
      || Passed(wire.guard.accepted, |old(wire.guard.accepted)|, seconds, absolute.expiresAt)
    }

    /** Records further labels that the program allows from where it stands. */
    ghost method Record(l: Label)
      requires RunD(a, DaemonStart, wire.labels).Some? && DaemonStep(a, Now(), l).Some?
      modifies wire`labels
      ensures wire.labels == old(wire.labels) + [l]
      ensures RunD(a, DaemonStart, wire.labels) == DaemonStep(a, old(Now()), l)
    {
      hide RunD, DaemonStep;
      RunDAppend(a, DaemonStart, wire.labels, [l]);
      RunDOne(a, Now(), l);
      wire.Note(l);
    }

    /** A gate refusal changes nothing. */
    ghost method Refuse()
      requires Valid()
      modifies wire`labels
      ensures Valid() && wire.labels == old(wire.labels) + [Refused] && Now() == old(Now())
    {
      hide RunD;
      Record(Refused);
    }

    method PhaseOf(seconds: int) returns (phase: Option<Deadline>)
      requires wire.guard.Valid() && |wire.guard.accepted| > 0
      requires absolute == Deadline(wire.guard, wire.guard.accepted[0] + timeouts.absolute as real)
      modifies wire`trouble, wire.guard
      ensures wire.guard.Valid() && old(wire.guard.accepted) <= wire.guard.accepted
      ensures old(wire.trouble) ==> wire.trouble
      ensures phase.Some? ==>
        var n := |old(wire.guard.accepted)|;
        && |wire.guard.accepted| == n + 1 && phase.value.guard == wire.guard
        && PhaseFrom(phase.value.expiresAt, wire.guard.accepted[n], seconds, absolute.expiresAt)
      ensures phase.None? ==> Spent(seconds)
    {
      var reading := ReadClock(wire);
      phase := PhaseDeadline(wire.guard, absolute, seconds, reading);
    }

    /** The beginning of a call: its label, then its deadline. */
    method Begin(ghost l: Label, seconds: int) returns (phase: Option<Deadline>)
      requires wire.guard.Valid() && |wire.guard.accepted| > 0
      requires absolute == Deadline(wire.guard, wire.guard.accepted[0] + timeouts.absolute as real)
      requires RunD(a, DaemonStart, wire.labels).Some? && DaemonStep(a, Now(), l).Some?
      modifies wire, wire.guard
      ensures wire.guard.Valid() && Extends() && wire.labels == old(wire.labels) + [l]
      ensures RunD(a, DaemonStart, wire.labels) == DaemonStep(a, old(Now()), l)
      ensures old(wire.trouble) ==> wire.trouble
      ensures phase.Some? ==>
        var n := |old(wire.guard.accepted)|;
        && |wire.guard.accepted| == n + 1 && phase.value.guard == wire.guard
        && PhaseFrom(phase.value.expiresAt, wire.guard.accepted[n], seconds, absolute.expiresAt)
      ensures phase.None? ==> Spent(seconds)
    {
      hide RunD, DaemonStep;
      Record(l);
      phase := PhaseOf(seconds);
    }

    /** Writes the calls the program is about to make; the state field is the caller's business. */
    method WriteFrame(phase: Deadline, calls: seq<bytes>, next: SessionState) returns (ok: bool)
      requires wire.guard.Valid() && RunD(a, DaemonStart, wire.labels).Some?
      requires calls != [] && Now().act == Writing(calls, next)
      modifies wire, wire.guard
      ensures wire.guard.Valid() && Extends()
      ensures RunD(a, DaemonStart, wire.labels)
           == Some(if ok then old(Now()).(state := next, act := Idle) else FailD(old(Now())))
      ensures ok ==> InTime(wire.guard, phase) && Said(Added()) == Concat(calls)
      ensures (old(wire.trouble) ==> wire.trouble) && (!ok ==> Excused(wire, phase))
    {
      hide RunD, DaemonStep, Said, Concat;
      CallsSaid(calls);
      ok := WriteAll(wire, phase, calls);
      ghost var before, steps := old(wire.labels), wire.labels[|old(wire.labels)|..];
      DaemonWritesFrame(a, old(Now()), calls, next, steps, ok);
      RunDAppend(a, DaemonStart, before, steps);
      assert wire.labels == before + steps;
    }

    /** Writes one metadata frame. */
    method WriteMetadata(phase: Deadline, t: FrameType, payload: bytes, next: SessionState) returns (ok: bool)
      requires wire.guard.Valid() && RunD(a, DaemonStart, wire.labels).Some? && MetadataFits(a, payload)
      requires Now().act == Writing(MetadataCalls(t, payload), next)
      modifies wire, wire.guard
      ensures wire.guard.Valid() && Extends()
      ensures RunD(a, DaemonStart, wire.labels)
           == Some(if ok then old(Now()).(state := next, act := Idle) else FailD(old(Now())))
      ensures ok ==> InTime(wire.guard, phase) && Said(Added()) == Frame(t, payload)
      ensures (old(wire.trouble) ==> wire.trouble) && (!ok ==> Excused(wire, phase))
    {
      hide RunD, DaemonStep, Said, Concat, Frame, Excused;
      MetadataConcat(a, t, payload);
      ok := WriteFrame(phase, MetadataCalls(t, payload), next);
    }

    /** Reads one metadata frame; the program decides what its payload does. */
    method ReadMetadata(reader: Reader, phase: Deadline, t: FrameType, expected: bytes) returns (ok: bool)
      requires wire.guard.Valid() && RunD(a, DaemonStart, wire.labels).Some?
      requires Now().act == Activity.Reading(t, [])
      requires (t == Ready && expected == a.ready) || (t == TerminalAck && expected == a.ack)
      requires Verified(a)
      modifies wire, wire.guard, reader
      ensures wire.guard.Valid() && Extends()
      ensures RunD(a, DaemonStart, wire.labels)
           == Some(if ok then AcceptD(a, old(Now()), t, expected) else FailD(old(Now())))
      ensures ok ==> InTime(wire.guard, phase)
      ensures old(wire.trouble) ==> wire.trouble
      ensures reader.faithful && Begins(old(reader.incoming), t, expected, a.limits.maxMetadata) ==>
        (ok || Excused(wire, phase)) && (ok ==> old(reader.incoming) == Frame(t, expected) + reader.incoming)
    {
      MetadataLimit(a);
      hide RunD, DaemonStep, FrameRead, Begins, Frame, Decode, Verified;
      BeginsIffWhole(reader.incoming, t, expected, a.limits.maxMetadata);
      var payload := ReadFrame(wire, reader, phase, t, a.limits.maxMetadata);
      ghost var before, steps := old(wire.labels), wire.labels[|old(wire.labels)|..];
      DaemonReadsFrame(a, old(Now()), t, steps, payload);
      RunDAppend(a, DaemonStart, before, steps);
      assert wire.labels == before + steps;
      ok := payload == Some(expected);
    }

    method WriteTicketEnvelope(current: bool) returns (ok: bool)
      requires Valid()
      modifies this, wire, wire.guard
      ensures Valid() && Extends()
      ensures ok ==> old(state) == New && current && state == TicketSent && InBudget() && InPhase(timeouts.ready)
      ensures ok ==> |a.envelope| <= a.limits.maxMetadata && Said(Added()) == Frame(TicketEnvelope, a.envelope)
      ensures !ok ==> state == old(state) || (old(state) == New && current && state == Ambiguous)
      ensures old(wire.trouble) ==> wire.trouble
      ensures !ok && old(state) == New && current ==> Spent(timeouts.ready) || |a.envelope| > a.limits.maxMetadata
    {
      hide RunD, Header, FrameProgress, ReadD, Verified, AcceptD, SecretCalls, ShapeOk, Deliverable,
        Said, Heard, Frame, Concat, SecretStream;
      if state != New || !current {
        Refuse();
        return false;
      }
      var phase := PhaseOf(timeouts.ready);
      if phase.None? {
        Refuse();
        return false;
      }
      Record(BeginDaemon(DaemonCall.WriteTicketEnvelope));
      MetadataLimit(a);
      if !MetadataFits(a, a.envelope) {
        state := Ambiguous;
        return false;
      }
      ok := WriteMetadata(phase.value, TicketEnvelope, a.envelope, TicketSent);
      SilentFirst(old(wire.labels), BeginDaemon(DaemonCall.WriteTicketEnvelope), wire.labels);
      state := if ok then TicketSent else Ambiguous;
    }

    method ReadReady(reader: Reader, current: bool) returns (ok: bool)
      requires Valid()
      modifies this, wire, wire.guard, reader
      ensures Valid() && Extends()
      ensures ok ==>
        old(state) == TicketSent && current && state == ReadyReceived && InBudget() && InPhase(timeouts.ready)
      ensures ok ==> |a.ready| <= a.limits.maxMetadata && Heard(Added()) == Frame(Ready, a.ready)
      ensures !ok ==> state == if old(state) == TicketSent && current then Ambiguous else old(state)
      ensures old(wire.trouble) ==> wire.trouble
      ensures old(state) == TicketSent && current && reader.faithful
              && Begins(old(reader.incoming), Ready, a.ready, a.limits.maxMetadata) ==>
        (ok || Spent(timeouts.ready)) && (ok ==> old(reader.incoming) == Frame(Ready, a.ready) + reader.incoming)
    {
      hide RunD, Header, FrameProgress, ReadD, Verified, SecretCalls,
        Said, Heard, Frame, Concat, SecretStream;
      if state != TicketSent || !current {
        Refuse();
        return false;
      }
      Record(BeginDaemon(DaemonCall.ReadReady));
      var phase := PhaseOf(timeouts.ready);
      if phase.None? {
        Record(Late);
        state := Ambiguous;
        return false;
      }
      ok := ReadMetadata(reader, phase.value, Ready, a.ready);
      state := if ok then ReadyReceived else Ambiguous;
      assert wire.labels == old(wire.labels) + Added();
      if ok {
        TookReady(a, old(wire.labels), Added());
      }
    }

    /** Consumes the claim, then sends the claim frame; a replay is a rejection, all else ambiguity. */
    method WriteClaim(current: bool) returns (ok: bool)
      requires Valid()
      modifies this, wire, wire.guard
      ensures Valid() && Extends()
      ensures ok ==>
        old(state) == ReadyReceived && current && state == ClaimSent && InBudget() && InPhase(timeouts.claim)
      ensures ok ==> |Added()| >= 2 && Added()[1] == Authority(Claimed, true)
      ensures ok ==> |a.claim| <= a.limits.maxMetadata && Said(Added()) == Frame(Claim, a.claim)
      ensures old(state) != ReadyReceived || !current ==> !ok && state == old(state)
      ensures !ok && old(state) == ReadyReceived && current ==> state == Ambiguous || state == Rejected
      ensures old(state) == ReadyReceived && current ==>
        && |Added()| >= 2
        && (state == Rejected <==> Added()[1].Authority? && Added()[1].outcome == Replayed)
      ensures old(wire.trouble) ==> wire.trouble
      ensures !ok && old(state) == ReadyReceived && current ==>
        Spent(timeouts.claim) || |a.claim| > a.limits.maxMetadata
    {
      hide RunD, Header, FrameProgress, ReadD, Verified, AcceptD, SecretCalls, ShapeOk, Deliverable,
        Said, Heard, Frame, Concat, SecretStream, Beats, Passed, PhaseFrom;
      if state != ReadyReceived || !current {
        Refuse();
        return false;
      }
      Record(BeginDaemon(DaemonCall.WriteClaim));
      MetadataLimit(a);
      var phase := PhaseOf(timeouts.claim);
      ghost var answer := Late;
      if phase.None? {
        Record(Late);
        state := Ambiguous;
      } else {
        state := ClaimAttempted;
        state, answer := ClaimThenSend(phase.value);
      }
      if phase.Some? {
        PhaseTiming(wire.guard.accepted, |old(wire.guard.accepted)|, timeouts.claim, absolute.expiresAt,
          phase.value.expiresAt);
      }
      SilentTwo(old(wire.labels), BeginDaemon(DaemonCall.WriteClaim), answer, wire.labels);
      ok := state == ClaimSent;
    }

    /** The authority's answer, and after CLAIMED the claim frame. */
    method ClaimThenSend(phase: Deadline) returns (end: SessionState, ghost answer: Label)
      requires Verified(a) && wire.guard.Valid() && RunD(a, DaemonStart, wire.labels).Some? && Now().act.Claiming?
      modifies wire, wire.guard
      ensures wire.guard.Valid() && Extends() && RunD(a, DaemonStart, wire.labels).Some?
      ensures Now() == old(Now()).(state := end, act := Idle) && end in {ClaimSent, Rejected, Ambiguous}
      ensures answer.Authority? && old(wire.labels) + [answer] <= wire.labels
      ensures end == Rejected <==> answer.outcome == Replayed
      ensures end == ClaimSent ==> InTime(wire.guard, phase) && answer == Authority(Claimed, true)
      ensures end == ClaimSent ==>
        |a.claim| <= a.limits.maxMetadata && Said(wire.labels[|old(wire.labels)| + 1..]) == Frame(Claim, a.claim)
      ensures old(wire.trouble) ==> wire.trouble
      ensures end != ClaimSent ==> Excused(wire, phase) || |a.claim| > a.limits.maxMetadata
    {
      MetadataLimit(a);
      hide RunD, DaemonStep, MetadataCalls, Said, Frame, Verified, InTime;
      var outcome;
      ghost var recorded;
      outcome, recorded := ClaimTicket();
      answer := Authority(outcome, recorded);
      if outcome == Replayed {
        end := Rejected;
      } else if outcome != Claimed || !MetadataFits(a, a.claim) {
        end := Ambiguous;
      } else {
        var ok := WriteMetadata(phase, Claim, a.claim, ClaimSent);
        end := if ok then ClaimSent else Ambiguous;
      }
    }

    /** The one call of the authority; an exception or garbage counts as a failure. */
    method ClaimTicket() returns (outcome: ClaimOutcome, ghost recorded: bool)
      requires RunD(a, DaemonStart, wire.labels).Some? && Now().act.Claiming?
      modifies wire
      ensures outcome == Claimed ==> recorded
      ensures wire.labels == old(wire.labels) + [Authority(outcome, recorded)]
      ensures RunD(a, DaemonStart, wire.labels) == Some(
        match outcome
        case Claimed =>
          if MetadataFits(a, a.claim) then old(Now()).(act := Writing(MetadataCalls(Claim, a.claim), ClaimSent))
          else FailD(old(Now()))
        case Replayed => old(Now()).(state := Rejected, act := Idle)
        case _ => FailD(old(Now())))
      ensures (old(wire.trouble) ==> wire.trouble) && (outcome != Claimed ==> wire.trouble)
    {
      hide RunD, ReadD, AcceptD;
      var answer := AskAuthority(wire);
      outcome := match answer
        case Answered(o, _) => o
        case _ => ClaimOutcome.Failed;
      recorded := answer.recorded;
      Record(Authority(outcome, recorded));
    }

    /** A real half-close, confirmed in time, before any acknowledgement is read. */
    method CloseWrite(current: bool) returns (ok: bool)
      requires Valid()
      modifies this, wire, wire.guard
      ensures Valid() && Extends()
      ensures ok ==>
        old(state) == ChunksSent && current && state == WriteClosed && InBudget() && InPhase(timeouts.terminalAck)
      ensures ok ==> wire.labels[|wire.labels| - 1] == HalfClose(true, true)
      ensures !ok ==> state == if old(state) == ChunksSent && current then Ambiguous else old(state)
      ensures old(wire.trouble) ==> wire.trouble
      ensures !ok && old(state) == ChunksSent && current ==> Spent(timeouts.terminalAck)
    {
      hide RunD, Header, FrameProgress, ReadD, Verified, AcceptD, SecretCalls, ShapeOk, Deliverable,
        Said, Heard, Frame, Concat, SecretStream;
      if state != ChunksSent || !current {
        Refuse();
        return false;
      }
      Record(BeginDaemon(DaemonCall.CloseWrite));
      var phase := PhaseOf(timeouts.terminalAck);
      ok := false;
      if phase.Some? {
        ok := HalfCloseOutput(phase.value);
      } else {
        Record(Late);
      }
      state := if ok then WriteClosed else Ambiguous;
    }

    method HalfCloseOutput(phase: Deadline) returns (ok: bool)
      requires wire.guard.Valid() && phase.guard == wire.guard
      requires RunD(a, DaemonStart, wire.labels).Some? && Now().act.Closing?
      modifies wire, wire.guard
      ensures wire.guard.Valid() && Extends()
      ensures RunD(a, DaemonStart, wire.labels)
           == Some(if ok then old(Now()).(state := WriteClosed, act := Idle) else FailD(old(Now())))
      ensures ok ==> InTime(wire.guard, phase) && wire.labels[|wire.labels| - 1] == HalfClose(true, true)
      ensures ok ==> CheckedAround(|wire.guard.accepted| - |old(wire.guard.accepted)|, 1)
      ensures (old(wire.trouble) ==> wire.trouble) && (!ok ==> Excused(wire, phase))
    {
      hide RunD, Header, FrameProgress, ReadD, Verified, AcceptD, SecretCalls;
      var before := CheckDeadline(wire, phase);
      if !before {
        Record(Late);
        return false;
      }
      var o := AskCloser(wire);
      var after := CheckDeadline(wire, phase);
      ok := o.ReportedClosed? && after;
      Record(HalfClose(o.ReportedClosed? || o.closed, ok));
    }

    method ReadTerminalAck(reader: Reader, current: bool) returns (ok: bool)
      requires Valid()
      modifies this, wire, wire.guard, reader
      ensures Valid() && Extends()
      ensures ok ==>
        && old(state) == WriteClosed && current && state == TerminalAckReceived
        && InBudget() && InPhase(timeouts.terminalAck)
      ensures ok ==> |a.ack| <= a.limits.maxMetadata && Heard(Added()) == Frame(TerminalAck, a.ack)
      ensures !ok ==> state == if old(state) == WriteClosed && current then Ambiguous else old(state)
      ensures old(wire.trouble) ==> wire.trouble
      ensures old(state) == WriteClosed && current && reader.faithful
              && Begins(old(reader.incoming), TerminalAck, a.ack, a.limits.maxMetadata) ==>
        && (ok || Spent(timeouts.terminalAck))
        && (ok ==> old(reader.incoming) == Frame(TerminalAck, a.ack) + reader.incoming)
    {
      hide RunD, Header, FrameProgress, ReadD, Verified, SecretCalls,
        Said, Heard, Frame, Concat, SecretStream;
      if state != WriteClosed || !current {
        Refuse();
        return false;
      }
      Record(BeginDaemon(DaemonCall.ReadTerminalAck));
      var phase := PhaseOf(timeouts.terminalAck);
      if phase.None? {
        Record(Late);
        state := Ambiguous;
        return false;
      }
      ok := ReadMetadata(reader, phase.value, TerminalAck, a.ack);
      state := if ok then TerminalAckReceived else Ambiguous;
      assert wire.labels == old(wire.labels) + Added();
      if ok {
        TookAck(a, old(wire.labels), Added());
      }
    }

    /** The wrapper's output must end right after its acknowledgement. */
    method RequireProtocolOutputEof(reader: Reader, current: bool) returns (ok: bool)
      requires Valid()
      modifies this, wire, wire.guard, reader
      ensures Valid() && Extends()
      ensures ok ==>
        && old(state) == TerminalAckReceived && current && state == Closed
        && InBudget() && InPhase(timeouts.terminalAck)
      ensures ok ==> wire.labels[|wire.labels| - 1] == Read([])
      ensures !ok ==> state == if old(state) == TerminalAckReceived && current then Ambiguous else old(state)
      ensures old(wire.trouble) ==> wire.trouble
      ensures old(state) == TerminalAckReceived && current && reader.faithful && old(reader.incoming) == [] ==>
        ok || Spent(timeouts.terminalAck)
    {
      hide RunD, Header, FrameProgress, ReadD, Verified, AcceptD, SecretCalls, ShapeOk, Deliverable,
        Said, Heard, Frame, Concat, SecretStream;
      if state != TerminalAckReceived || !current {
        Refuse();
        return false;
      }
      Record(BeginDaemon(RequireOutputEof));
      var phase := PhaseOf(timeouts.terminalAck);
      ok := false;
      if phase.Some? {
        ok := AwaitEnd(reader, phase.value);
      } else {
        Record(Late);
      }
      state := if ok then Closed else Ambiguous;
    }

    /** Asks for one octet where there must be none, with a deadline check on either side. */
    method AwaitEnd(reader: Reader, phase: Deadline) returns (ok: bool)
      requires wire.guard.Valid() && phase.guard == wire.guard
      requires RunD(a, DaemonStart, wire.labels).Some? && Now().act == AwaitingEof
      modifies wire, wire.guard, reader
      ensures wire.guard.Valid() && Extends()
      ensures RunD(a, DaemonStart, wire.labels)
           == Some(if ok then old(Now()).(state := Closed, act := Idle) else FailD(old(Now())))
      ensures ok ==> InTime(wire.guard, phase) && wire.labels[|wire.labels| - 1] == Read([])
      ensures ok ==> CheckedAround(|wire.guard.accepted| - |old(wire.guard.accepted)|, 1)
      ensures old(wire.trouble) ==> wire.trouble
      ensures reader.faithful && old(reader.incoming) == [] ==> ok || Excused(wire, phase)
    {
      hide RunD, Header, FrameProgress, ReadD, Verified, AcceptD, SecretCalls, ShapeOk, Deliverable,
        Said, Heard, Frame, Concat, SecretStream;
      var before := CheckDeadline(wire, phase);
      if !before {
        Record(Late);
        return false;
      }
      var o := reader.Ask(1);
      var after := CheckDeadline(wire, phase);
      Record(match o
        case ReadRaised(lost) => ReadBroke(lost)
        case NotBytes(consumed) => ReadBroke(consumed)
        case Block(data) => if after then Read(data) else ReadBroke(data));
      ok := o.Block? && after && o.data == [];
    }

    /** Writes the secret frames in field order. */
    method WriteSecrets(phase: Deadline, chunks: seq<bytes>) returns (ok: bool)
      requires wire.guard.Valid() && RunD(a, DaemonStart, wire.labels).Some? && Sendable(chunks) && chunks != []
      requires Now().act == Writing(SecretCalls(chunks), ChunksSent)
      modifies wire, wire.guard
      ensures wire.guard.Valid() && Extends()
      ensures RunD(a, DaemonStart, wire.labels)
           == Some(if ok then old(Now()).(state := ChunksSent, act := Idle) else FailD(old(Now())))
      ensures ok ==> InTime(wire.guard, phase) && Said(Added()) == SecretStream(chunks)
      ensures (old(wire.trouble) ==> wire.trouble) && (!ok ==> Excused(wire, phase))
    {
      hide RunD, DaemonStep, Said, Concat, SecretStream, Excused;
      SecretCallsNonEmpty(chunks);
      SecretConcat(chunks);
      ok := WriteFrame(phase, SecretCalls(chunks), ChunksSent);
    }

    /** The streaming part: deadline, grammar, then every secret frame in field order. */
    method StreamChunks(chunks: seq<bytes>) returns (ok: bool)
      requires Valid() && state == ClaimSent && ShapeOk(a, chunks)
      modifies this, wire, wire.guard
      ensures Valid() && Extends()
      ensures ok ==>
        && state == ChunksSent && InBudget() && InPhase(timeouts.terminalAck) && Now().chunks == Some(chunks)
        && ChunksFor(a, chunks) && Sendable(chunks)
        && old(wire.labels) + [SecretsLabel(chunks)] <= wire.labels
        && Said(wire.labels[|old(wire.labels)| + 1..]) == SecretStream(chunks)
      ensures !ok ==> state == Ambiguous
      ensures old(wire.trouble) ==> wire.trouble
      ensures ChunksFor(a, chunks) ==> ok || Spent(timeouts.terminalAck)
    {
      BeginsSecrets(a, Now(), chunks);
      hide SecretsLabel, RunD, DaemonStep, BeginD, Sum, Deliverable, ShapeOk, ChunksFor, SecretCalls, Said,
        SecretStream, Verified, Beats, Passed, PhaseFrom, InTime, Excused, MonotonicGuard.Valid;
      ghost var l := SecretsLabel(chunks);
      var phase := Begin(l, timeouts.terminalAck);
      ok := SendDeliverable(phase, chunks);
      if phase.Some? {
        LastIsLast(wire, phase.value);
        PhaseTiming(wire.guard.accepted, |old(wire.guard.accepted)|, timeouts.terminalAck, absolute.expiresAt,
          phase.value.expiresAt);
      }
    }

    /** The grammar of all chunks, then all frames, if there is a deadline for them. */
    method SendDeliverable(phase: Option<Deadline>, chunks: seq<bytes>) returns (ok: bool)
      requires Verified(a) && wire.guard.Valid() && RunD(a, DaemonStart, wire.labels).Some? && ShapeOk(a, chunks)
      requires Sendable(chunks) && chunks != []
      requires if ChunksFor(a, chunks) then
                 Now() == Daemon(ChunksSent, Writing(SecretCalls(chunks), ChunksSent), Some(chunks))
               else Now().state == Ambiguous && Now().act.Idle?
      modifies this`state, wire, wire.guard
      ensures wire.guard.Valid() && Extends()
      ensures RunD(a, DaemonStart, wire.labels).Some? && Now().act.Idle? && Now().state == state
      ensures ok ==>
        && phase.Some? && InTime(wire.guard, phase.value) && state == ChunksSent && Now().chunks == Some(chunks)
        && ChunksFor(a, chunks) && Said(Added()) == SecretStream(chunks)
      ensures !ok ==> state == Ambiguous
      ensures old(wire.trouble) ==> wire.trouble
      ensures ChunksFor(a, chunks) && !ok ==> phase.None? || Excused(wire, phase.value)
      ensures phase.None? ==> wire.guard.accepted == old(wire.guard.accepted) && wire.guard.last == old(wire.guard.last)
    {
      hide RunD, DaemonStep, BeginD, Sum, Deliverable, ShapeOk, ChunksFor, SecretCalls, Said, SecretStream, Verified,
        InTime, Excused;
      state, ok := Ambiguous, false;
      var deliverable := AllDeliverable(a, chunks);
      if phase.None? {
        if deliverable {
          LateFails(a, Now());
          Record(Late);
        }
      } else if deliverable {
        ok := WriteSecrets(phase.value, chunks);
        state := if ok then ChunksSent else Ambiguous;
      }
    }

    /** A call that changes nothing but the buffers it was given. */
    method ScrubAndRefuse(chunks: Ref, limit: nat, ghost universe: set<Ref>)
      returns (outcome: SecretOutcome, ghost nest: seq<Container>)
      requires Valid() && Covers(Snapshot(universe), universe) && chunks in universe
      modifies wire, Arrays(universe)
      ensures Valid() && Extends() && wire.labels == old(wire.labels) + [Refused] && Now() == old(Now())
      ensures outcome == SecretOutcome.Failed || outcome == Unscrubbed
      ensures outcome == SecretOutcome.Failed ==>
        forall b, i :: b in Arrays(universe) && 0 <= i < b.Length ==>
          b[i] == if Exposed(universe, chunks, true, b, i) then 0 else old(b[i])
      ensures outcome == Unscrubbed ==> |nest| >= limit && Nested(Snapshot(universe), chunks, nest)
      ensures old(wire.trouble) ==> wire.trouble
    {
      hide RunD, Exposed, Covered, Found, Nested, Verified, Levelled, Fits, Roomy;
      var done;
      done, nest := ZeroizeDiscoverableBuffers(true, chunks, limit, universe);
      Refuse();
      outcome := if done then SecretOutcome.Failed else Unscrubbed;
    }

    /**
     Streams already claimed chunks. Every exit past the freshness gate, and the rejection of anything
     but a tuple before it, leaves every discoverable buffer zero, with one exception: a graph with
     containers nested `limit` deep may end the scrubber itself, which leaves the session as it was. A stale
     authorization raises before any scrubbing and leaves every buffer as it was.
     */
    method WriteSecretChunks(current: bool, chunks: Ref, limit: nat, ghost universe: set<Ref>)
      returns (outcome: SecretOutcome, ghost nest: seq<Container>)
      requires Valid() && Covers(Snapshot(universe), universe) && chunks in universe && limit >= 2
      modifies this, wire, wire.guard, Arrays(universe)
      ensures Valid() && Extends()
      ensures outcome == Stale <==> chunks.Node? && chunks.n.kind == Tuple && !current
      ensures outcome == Stale ==>
        forall b, i :: b in Arrays(universe) && 0 <= i < b.Length ==> b[i] == old(b[i])
      ensures outcome == Sent || outcome == SecretOutcome.Failed ==>
        forall b, i :: b in Arrays(universe) && 0 <= i < b.Length ==>
          b[i] == if Exposed(universe, chunks, true, b, i) then 0 else old(b[i])
      ensures outcome == Unscrubbed ==>
        && |nest| >= limit && Nested(Snapshot(universe), chunks, nest)
        && state == old(state) && wire.labels == old(wire.labels) + [Refused]
      ensures outcome == Sent ==>
        && IsTuple(chunks) && current && old(state) == ClaimSent && state == ChunksSent
        && InBudget() && InPhase(timeouts.terminalAck)
        && Now().chunks == old(Contents(chunks.n.items)) && Now().chunks.Some?
        && |Now().chunks.value| == |a.counts| && ChunksFor(a, Now().chunks.value)
        && Sendable(Now().chunks.value) && Said(Added()) == SecretStream(Now().chunks.value)
      ensures outcome == SecretOutcome.Failed ==>
        state == if IsTuple(chunks) && current && old(state) == ClaimSent then Ambiguous else old(state)
      ensures old(wire.trouble) ==> wire.trouble
      ensures outcome == SecretOutcome.Failed && IsTuple(chunks) && current && old(state) == ClaimSent ==>
        || Spent(timeouts.terminalAck) || old(Contents(chunks.n.items)).None?
        || |old(Contents(chunks.n.items)).value| != |a.counts| || !ChunksFor(a, old(Contents(chunks.n.items)).value)
    {
      hide RunD, Header, FrameProgress, ReadD, AcceptD, SecretCalls, DaemonStep, Verified, Exposed, Covered,
        Found, Nested, Sum, Session.InBudget, WellFormed;
      nest := [];
      if IsTuple(chunks) && !current {
        Refuse();
        return Stale, nest;
      }
      if !IsTuple(chunks) || state != ClaimSent {
        outcome, nest := ScrubAndRefuse(chunks, limit, universe);
        return;
      }
      var given := Contents(chunks.n.items);
      LengthsOfShape(a, given);
      if given.None? || !ShapeOk(a, given.value) || Sum(Lengths(given.value)) > a.limits.maxTotal {
        outcome, nest := RefuseShape(chunks, limit, universe);
        return;
      }
      var ok := StreamAndScrub(chunks, given.value, limit, universe);
      outcome := if ok then Sent else SecretOutcome.Failed;
    }

    /** Chunks of the right shape: a tuple of byte arrays nests nothing, so its scrub always ends. */
    method StreamAndScrub(chunks: Ref, given: seq<bytes>, limit: nat, ghost universe: set<Ref>) returns (ok: bool)
      requires Valid() && Covers(Snapshot(universe), universe) && chunks in universe && limit >= 2
      requires IsTuple(chunks) && state == ClaimSent && Contents(chunks.n.items) == Some(given) && ShapeOk(a, given)
      modifies this, wire, wire.guard, Arrays(universe)
      ensures Valid() && Extends()
      ensures forall b, i :: b in Arrays(universe) && 0 <= i < b.Length ==>
                b[i] == if Exposed(universe, chunks, true, b, i) then 0 else old(b[i])
      ensures ok ==>
        && state == ChunksSent && InBudget() && InPhase(timeouts.terminalAck) && Now().chunks == Some(given)
        && ChunksFor(a, given) && Sendable(given) && Said(Added()) == SecretStream(given)
      ensures !ok ==> state == Ambiguous
      ensures old(wire.trouble) ==> wire.trouble
      ensures ChunksFor(a, given) ==> ok || Spent(timeouts.terminalAck)
    {
      hide RunD, DaemonStep, Verified, Exposed, Covered, Found, Nested, Session.InBudget, WellFormed, ShapeOk, Levelled,
        Fits, Roomy, SecretsLabel, Said, SecretStream, ChunksFor, Beats, Passed;
      ok := StreamChunks(given);
      if ok {
        SecretsAreSilent(given);
        SilentFirst(old(wire.labels), SecretsLabel(given), wire.labels);
      }
      ghost var nest;
      var done;
      done, nest := ZeroizeDiscoverableBuffers(true, chunks, limit, universe);
      if !done {
        FlatTuple(universe, chunks.n, nest);
      }
    }

    /** Chunks of the wrong shape: nothing is written, and a session that could be scrubbed is spent. */
    method RefuseShape(chunks: Ref, limit: nat, ghost universe: set<Ref>)
      returns (outcome: SecretOutcome, ghost nest: seq<Container>)
      requires Valid() && Covers(Snapshot(universe), universe) && chunks in universe
      requires IsTuple(chunks) && state == ClaimSent && !TakesShape(a, Contents(chunks.n.items))
      modifies this`state, wire, Arrays(universe)
      ensures Valid() && Extends()
      ensures outcome == SecretOutcome.Failed ==> state == Ambiguous
      ensures outcome == SecretOutcome.Failed ==>
        forall b, i :: b in Arrays(universe) && 0 <= i < b.Length ==>
          b[i] == if Exposed(universe, chunks, true, b, i) then 0 else old(b[i])
      ensures outcome == Unscrubbed ==>
        && |nest| >= limit && Nested(Snapshot(universe), chunks, nest)
        && state == old(state) && wire.labels == old(wire.labels) + [Refused]
      ensures outcome == SecretOutcome.Failed || outcome == Unscrubbed
      ensures old(wire.trouble) ==> wire.trouble
    {
      hide RunD, Exposed, Covered, Found, Nested, Verified, BeginD, ReadD, AcceptD, Levelled, Fits, Roomy, Covers;
      ShapeRefused(a, Now(), Contents(chunks.n.items));
      var given := Contents(chunks.n.items);
      var done;
      done, nest := ZeroizeDiscoverableBuffers(true, chunks, limit, universe);
      if !done {
        Refuse();
        return Unscrubbed, nest;
      }
      Record(BeginDaemon(DaemonCall.WriteSecretChunks(given)));
      state := Ambiguous;
      return SecretOutcome.Failed, nest;
    }
  }

  predicate TakesShape(a: Authorization, given: Option<seq<bytes>>) {
    given.Some? && ShapeOk(a, given.value)
  }

  lemma ShapeRefused(a: Authorization, d: Daemon, given: Option<seq<bytes>>)
    requires !TakesShape(a, given)
    ensures BeginD(a, d, DaemonCall.WriteSecretChunks(given)) == FailD(d)
  {
  }

  function SecretsLabel(chunks: seq<bytes>): Label { BeginDaemon(DaemonCall.WriteSecretChunks(Some(chunks))) }

  /** Chunks of the right shape are about to be written, or one of them is not to be. */
  lemma BeginsSecrets(a: Authorization, d: Daemon, chunks: seq<bytes>)
    requires Verified(a) && d.act.Idle? && d.state == ClaimSent && ShapeOk(a, chunks)
    ensures Sendable(chunks) && chunks != []
    ensures DaemonStep(a, d, SecretsLabel(chunks)) == Some(
      if ChunksFor(a, chunks) then Daemon(ChunksSent, Writing(SecretCalls(chunks), ChunksSent), Some(chunks))
      else FailD(d))
  {
    hide SecretCalls, Deliverable, ChunksFor, Sum;
    ShapedAreFor(a, chunks);
  }

  lemma SecretsAreSilent(chunks: seq<bytes>)
    ensures BytesOut(SecretsLabel(chunks)) == []
  {
  }

  lemma LateFails(a: Authorization, d: Daemon)
    requires d.act.Writing?
    ensures DaemonStep(a, d, Late) == Some(FailD(d))
  {
  }

  method AllDeliverable(a: Authorization, chunks: seq<bytes>) returns (deliverable: bool)
    requires ShapeOk(a, chunks)
    ensures deliverable <==> ChunksFor(a, chunks)
  {
    hide Deliverable, ChunksFor;
    ShapedAreFor(a, chunks);
    deliverable := true;
    for k := 0 to |chunks|
      invariant deliverable <==> forall i :: 0 <= i < k ==> Deliverable(a, chunks[i])
    {
      deliverable := deliverable && Deliverable(a, chunks[k]);
    }
  }

  /** Construction refuses a stale authorization and a clock that gives no deadline, and nothing else. */
  method Open(a: Authorization, timeouts: Timeouts, current: bool) returns (s: Session?, ghost clockFailed: bool)
    requires Verified(a)
    ensures s != null ==> fresh(s) && fresh(s.wire) && fresh(s.wire.guard)
    ensures s != null ==> s.Valid() && s.state == New && s.a == a && s.wire.labels == [] && !s.wire.trouble
    ensures s != null ==> s.timeouts == timeouts && |s.wire.guard.accepted| == 1
    ensures s != null <==> current && timeouts.absolute >= 1 && !clockFailed
  {
    clockFailed := false;
    if !current {
      return null, clockFailed;
    }
    var guard := new MonotonicGuard();
    var wire := new Wire(guard);
    var reading := ReadClock(wire);
    clockFailed := wire.trouble;
    var absolute := NewDeadline(guard, timeouts.absolute, reading);
    if absolute.None? {
      return null, clockFailed;
    }
    s := new Session(a, timeouts, wire, absolute.value);
  }

  /**
   Whatever calls were made on a session and whatever its collaborators did: it asked the authority at
   most once, wrote nothing past its envelope before the answer CLAIMED, and wrote the whole claim
   frame before any secret octet.
   */
  lemma SessionHistoryIsSafe(s: Session)
    requires s.Valid()
    ensures var r := ManySessions.Replay(s.a, s.wire.labels);
            && r.asked <= 1
            && (|r.sent| > |Hello(s.a)| ==> r.won && r.asked == 1)
            && (ManySessions.EmittedSecret(r) ==> Hello(s.a) + ClaimPart(s.a) <= r.sent)
  {
    hide RunD, MetaFrame, ManySessions.Replay;
    ManySessions.ReplayIsSafe(s.a, s.wire.labels);
    ManySessions.SecretsNeedTheClaim(ManySessions.Replay(s.a, s.wire.labels));
  }

  /** The total of verified counts is already within the secret budget. */
  lemma LengthsOfShape(a: Authorization, given: Option<seq<bytes>>)
    requires Verified(a)
    ensures given.Some? && ShapeOk(a, given.value) ==> Sum(Lengths(given.value)) <= a.limits.maxTotal
  {
    if given.Some? && ShapeOk(a, given.value) {
      assert Lengths(given.value) == a.counts;
    }
  }
}

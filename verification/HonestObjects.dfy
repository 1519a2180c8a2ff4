/**
 The two session objects with nobody making trouble: each is given what the other has written, and they
 get through every call to the end, unless a clock, a writer, a closer, the authority or the sink fails
 or a deadline passes.
 */
module HonestObjects {
  import opened Bytes
  import opened Frames
  import opened AttachProgram
  import opened AttachStreams
  import opened AttachWire
  import opened AttachHeard
  import opened Deadlines
  import opened Scrub
  import DaemonSession
  import WrapperSession

  /** The shortest budget of any call. */
  function Least(t: Timeouts): int {
    var x := if t.ready < t.claim then t.ready else t.claim;
    if x < t.terminalAck then x else t.terminalAck
  }

  /** By these readings some call, or the session, may have outlived its deadline. */
  ghost predicate Slow(accepted: seq<real>, least: int, absolute: real) {
    least < 1 || exists i: nat :: Passed(accepted, i, least, absolute)
  }

  ghost predicate DaemonExcused(d: DaemonSession.Session)
    reads d, d.wire, d.wire.guard
  {
    d.wire.trouble || Slow(d.wire.guard.accepted, Least(d.timeouts), d.absolute.expiresAt)
  }

  ghost predicate WrapperExcused(w: WrapperSession.Session)
    reads w, w.wire, w.wire.guard
  {
    w.wire.trouble || Slow(w.wire.guard.accepted, Least(w.timeouts), w.absolute.expiresAt)
  }

  /** A budget that was overrun is at least the least one. */
  lemma OverrunIsSlow(accepted: seq<real>, i: nat, seconds: int, t: Timeouts, absolute: real)
    requires seconds in {t.ready, t.claim, t.terminalAck}
    ensures seconds < 1 || Passed(accepted, i, seconds, absolute) ==> Slow(accepted, Least(t), absolute)
  {
    if Passed(accepted, i, seconds, absolute) {
      assert Passed(accepted, i, Least(t), absolute);
    }
  }

  /** Two sessions of one authorization, each with its own wire and clock. */
  ghost predicate Pair(d: DaemonSession.Session, w: WrapperSession.Session)
    reads d, d.wire, d.wire.guard, w, w.wire, w.wire.guard, w.handed
  {
    && d.Valid() && w.Valid() && d.a == w.a && d.wire != w.wire && d.wire.guard != w.wire.guard
    && |d.a.ready| <= d.a.limits.maxMetadata && |d.a.claim| <= d.a.limits.maxMetadata
    && |d.a.ack| <= d.a.limits.maxMetadata && |d.a.envelope| <= d.a.limits.maxMetadata
  }

  lemma BeginsItself(a: Authorization, t: FrameType, payload: bytes)
    requires Verified(a) && |payload| <= a.limits.maxMetadata
    ensures |payload| < 0x1_0000_0000 && Begins(Frame(t, payload), t, payload, a.limits.maxMetadata)
  {
    MetadataLimit(a);
    hide Frame;
  }

  /** Ready: the wrapper says it, the daemon hears it. */
  method ExchangeReady(d: DaemonSession.Session, w: WrapperSession.Session) returns (ok: bool)
    requires Pair(d, w) && d.state == TicketSent && w.state == New
    modifies d, d.wire, d.wire.guard, w, w.wire, w.wire.guard
    ensures Pair(d, w) && w.handed == old(w.handed)
    ensures ok ==> d.state == ReadyReceived && w.state == ReadyReceived
    ensures !ok ==> DaemonExcused(d) || WrapperExcused(w)
  {
    hide Begins, Frame, Passed, Beats, Said, Heard;
    BeginsItself(d.a, Ready, d.a.ready);
    ok := w.WriteReady(true);
    if !ok {
      OverrunIsSlow(w.wire.guard.accepted, |old(w.wire.guard.accepted)|, w.timeouts.ready, w.timeouts,
        w.absolute.expiresAt);
      return;
    }
    var reader := new Reader(true, Frame(Ready, d.a.ready));
    ok := d.ReadReady(reader, true);
    OverrunIsSlow(d.wire.guard.accepted, |old(d.wire.guard.accepted)|, d.timeouts.ready, d.timeouts,
      d.absolute.expiresAt);
  }

  /** Claim: the daemon is answered CLAIMED and says it, the wrapper hears it. */
  method ExchangeClaim(d: DaemonSession.Session, w: WrapperSession.Session) returns (ok: bool)
    requires Pair(d, w) && d.state == ReadyReceived && w.state == ReadyReceived
    modifies d, d.wire, d.wire.guard, w, w.wire, w.wire.guard
    ensures Pair(d, w) && w.handed == old(w.handed)
    ensures ok ==> d.state == ClaimSent && w.state == ClaimSent
    ensures !ok ==> DaemonExcused(d) || WrapperExcused(w)
  {
    hide Begins, Frame, Passed, Beats, Said, Heard;
    BeginsItself(d.a, Claim, d.a.claim);
    ok := d.WriteClaim(true);
    OverrunIsSlow(d.wire.guard.accepted, |old(d.wire.guard.accepted)|, d.timeouts.claim, d.timeouts,
      d.absolute.expiresAt);
    if ok {
      var reader := new Reader(true, Frame(Claim, d.a.claim));
      ok := w.ReadClaim(reader, true);
      OverrunIsSlow(w.wire.guard.accepted, |old(w.wire.guard.accepted)|, w.timeouts.claim, w.timeouts,
        w.absolute.expiresAt);
    }
  }

  /** Good chunks, one for each field. */
  ghost predicate Good(a: Authorization, given: seq<bytes>) {
    |given| == |a.counts| && ChunksFor(a, given)
  }

  /** Secrets: the daemon sends its chunks and scrubs them, the wrapper takes and hands over each. */
  method ExchangeSecrets(
      d: DaemonSession.Session, w: WrapperSession.Session, buffers: Ref, limit: nat, ghost universe: set<Ref>)
    returns (ok: bool, given: seq<bytes>)
    requires Pair(d, w) && d.state == ClaimSent && w.state == ClaimSent
    requires Covers(Snapshot(universe), universe) && buffers in universe && limit >= 2
    requires IsTuple(buffers) && Contents(buffers.n.items).Some?
    requires Good(d.a, Contents(buffers.n.items).value) && w.handed !! Arrays(universe)
    modifies d, d.wire, d.wire.guard, w, w.wire, w.wire.guard, Arrays(universe)
    ensures Pair(d, w) && given == old(Contents(buffers.n.items).value)
    ensures forall b, i :: b in Arrays(universe) && 0 <= i < b.Length ==>
              b[i] == if Exposed(universe, buffers, true, b, i) then 0 else old(b[i])
    ensures ok ==> d.state == ChunksSent && w.state == ChunksSent && w.Now().sink == given
    ensures !ok ==> DaemonExcused(d) || WrapperExcused(w)
  {
    hide Passed, Beats, Said, Heard, SecretStream, Exposed, ChunkFor, Covers;
    given := Contents(buffers.n.items).value;
    var outcome;
    ghost var nest;
    outcome, nest := d.WriteSecretChunks(true, buffers, limit, universe);
    OverrunIsSlow(d.wire.guard.accepted, |old(d.wire.guard.accepted)|, d.timeouts.terminalAck, d.timeouts,
      d.absolute.expiresAt);
    if outcome == DaemonSession.SecretOutcome.Unscrubbed {
      FlatTuple(universe, buffers.n, nest);
    }
    ok := outcome == DaemonSession.SecretOutcome.Sent;
    if ok {
      var reader := new Reader(true, SecretStream(given));
      ok := w.ConsumeSecretChunks(reader, true, given);
      OverrunsAreSlow(w.wire.guard.accepted, |old(w.wire.guard.accepted)|, w.timeouts.terminalAck, w.timeouts,
        w.absolute.expiresAt);
    }
  }

  lemma OverrunsAreSlow(accepted: seq<real>, n: nat, seconds: int, t: Timeouts, absolute: real)
    requires seconds in {t.ready, t.claim, t.terminalAck}
    ensures seconds < 1 || (exists i: nat :: n <= i && Passed(accepted, i, seconds, absolute))
            ==> Slow(accepted, Least(t), absolute)
  {
    if i: nat :| n <= i && Passed(accepted, i, seconds, absolute) {
      OverrunIsSlow(accepted, i, seconds, t, absolute);
    }
  }

  /** The ends: the daemon closes its side, the wrapper sees that and acknowledges, the daemon sees all of it. */
  method ExchangeEnds(d: DaemonSession.Session, w: WrapperSession.Session) returns (ok: bool)
    requires Pair(d, w) && d.state == ChunksSent && w.state == ChunksSent
    modifies d, d.wire, d.wire.guard, w, w.wire, w.wire.guard
    ensures Pair(d, w) && w.Now().sink == old(w.Now().sink)
    ensures ok ==> d.state == WriteClosed && w.state == WriteClosed
    ensures !ok ==> DaemonExcused(d) || WrapperExcused(w)
  {
    hide Begins, Frame, Passed, Beats, Said, Heard;
    ok := d.CloseWrite(true);
    OverrunIsSlow(d.wire.guard.accepted, |old(d.wire.guard.accepted)|, d.timeouts.terminalAck, d.timeouts,
      d.absolute.expiresAt);
    if ok {
      var reader := new Reader(true, []);
      ok := w.RequireInputEof(reader, true);
      OverrunIsSlow(w.wire.guard.accepted, |old(w.wire.guard.accepted)|, w.timeouts.terminalAck, w.timeouts,
        w.absolute.expiresAt);
    }
  }

  method ExchangeAck(d: DaemonSession.Session, w: WrapperSession.Session) returns (ok: bool)
    requires Pair(d, w) && d.state == WriteClosed && w.state == WriteClosed
    modifies d, d.wire, d.wire.guard, w, w.wire, w.wire.guard
    ensures Pair(d, w) && w.Now().sink == old(w.Now().sink)
    ensures ok ==> d.state == TerminalAckReceived && w.state == Closed
    ensures !ok ==> DaemonExcused(d) || WrapperExcused(w)
  {
    hide Begins, Frame, Passed, Beats, Said, Heard;
    BeginsItself(d.a, TerminalAck, d.a.ack);
    ok := w.WriteTerminalAckAndCloseOutput(true);
    OverrunIsSlow(w.wire.guard.accepted, |old(w.wire.guard.accepted)|, w.timeouts.terminalAck, w.timeouts,
      w.absolute.expiresAt);
    if ok {
      var reader := new Reader(true, Frame(TerminalAck, d.a.ack));
      ok := d.ReadTerminalAck(reader, true);
      OverrunIsSlow(d.wire.guard.accepted, |old(d.wire.guard.accepted)|, d.timeouts.terminalAck, d.timeouts,
        d.absolute.expiresAt);
    }
  }

  method ExchangeLast(d: DaemonSession.Session, w: WrapperSession.Session) returns (ok: bool)
    requires Pair(d, w) && d.state == TerminalAckReceived && w.state == Closed
    modifies d, d.wire, d.wire.guard
    ensures Pair(d, w) && w.state == old(w.state) && w.Now() == old(w.Now())
    ensures ok ==> d.state == Closed
    ensures !ok ==> DaemonExcused(d)
  {
    hide Passed, Beats;
    var reader := new Reader(true, []);
    ok := d.RequireProtocolOutputEof(reader, true);
    OverrunIsSlow(d.wire.guard.accepted, |old(d.wire.guard.accepted)|, d.timeouts.terminalAck, d.timeouts,
      d.absolute.expiresAt);
  }

  /** The envelope: the daemon sends it, and whoever reads it takes it, before there is a wrapper session. */
  method ExchangeEnvelope(d: DaemonSession.Session, timeouts: Timeouts, wire: Wire) returns (ok: bool)
    requires d.Valid() && d.state == New && |d.a.envelope| <= d.a.limits.maxMetadata
    requires wire.guard.Valid() && wire.labels == [] && wire != d.wire && wire.guard != d.wire.guard
    modifies d, d.wire, d.wire.guard, wire, wire.guard
    ensures d.Valid() && (ok ==> d.state == TicketSent)
    ensures !ok ==> DaemonExcused(d) || WrapperSession.OpeningSpent(wire, timeouts, |old(wire.guard.accepted)|)
  {
    hide Begins, Frame, Passed, Beats, Said, Heard;
    BeginsItself(d.a, TicketEnvelope, d.a.envelope);
    ok := d.WriteTicketEnvelope(true);
    OverrunIsSlow(d.wire.guard.accepted, |old(d.wire.guard.accepted)|, d.timeouts.ready, d.timeouts,
      d.absolute.expiresAt);
    if ok {
      var reader := new Reader(true, Frame(TicketEnvelope, d.a.envelope));
      ok := WrapperSession.ReadTicketEnvelope(d.a, timeouts, wire, reader);
    }
  }

  /**
   From two new sessions to two closed ones. Unless a collaborator makes trouble or a deadline passes,
   every call succeeds; the sink has then been given exactly the daemon's chunks, and in any case every
   discoverable octet of them has been scrubbed once the secrets were to be sent.
   */
  method Exchange(
      d: DaemonSession.Session, w: WrapperSession.Session, buffers: Ref, limit: nat, ghost universe: set<Ref>)
    returns (ok: bool, ghost given: seq<bytes>)
    requires Pair(d, w) && d.state == TicketSent && w.state == New
    requires Covers(Snapshot(universe), universe) && buffers in universe && limit >= 2
    requires IsTuple(buffers) && Contents(buffers.n.items).Some?
    requires Good(d.a, Contents(buffers.n.items).value) && w.handed !! Arrays(universe)
    modifies d, d.wire, d.wire.guard, w, w.wire, w.wire.guard, Arrays(universe)
    ensures Pair(d, w) && given == old(Contents(buffers.n.items).value)
    ensures ok ==> d.state == Closed && w.state == Closed && w.Now().sink == given
    ensures ok ==> forall b, i :: b in Arrays(universe) && 0 <= i < b.Length ==>
              b[i] == if Exposed(universe, buffers, true, b, i) then 0 else old(b[i])
    ensures !ok ==> DaemonExcused(d) || WrapperExcused(w)
  {
    hide Pair, DaemonExcused, WrapperExcused, Covers, Exposed, Good, ChunkFor;
    given := Contents(buffers.n.items).value;
    ok := ExchangeReady(d, w);
    if ok {
      ok := ExchangeClaim(d, w);
    }
    if ok {
      var sent;
      ok, sent := ExchangeSecrets(d, w, buffers, limit, universe);
    }
    if ok {
      ok := ExchangeEnds(d, w);
    }
    if ok {
      ok := ExchangeAck(d, w);
    }
    if ok {
      ok := ExchangeLast(d, w);
    }
  }
}

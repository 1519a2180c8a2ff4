/**
 The V2 attach protocol seen from outside: each party is a transition function over the labels an
 observer could record, that is gate refusals, single write and read calls, authority and close
 results, and deadline refusals. The session classes are proved to follow these functions call by
 call; the interleaving and many-session theorems are proved about them.
 */
module AttachProgram {
  import opened Bytes
  import opened Frames
  import Base64Url

  datatype SessionState =
    | New | TicketSent | ReadyReceived | ClaimAttempted | ClaimSent | ChunksSent
    | WriteClosed | TerminalAckReceived | Closed | Rejected | Ambiguous

  predicate Terminal(s: SessionState) {
    s == Closed || s == Rejected || s == Ambiguous
  }

  datatype Limits = Limits(maxMetadata: nat, maxChunk: nat, maxChunks: nat, maxTotal: nat)

  /**
   What a verified authorization fixes: the canonical metadata payloads both parties derive from
   it, one encoded byte count per delivery field (field i has ordinal i + 1), and the limits.
   */
  datatype Authorization = Authorization(
    ticket: nat, container: nat, envelope: bytes, ready: bytes, claim: bytes, ack: bytes,
    counts: seq<nat>, valkey: bool, limits: Limits)

  function Sum(s: seq<nat>): nat {
    if s == [] then 0 else Sum(s[..|s| - 1]) + s[|s| - 1]
  }

  /** The bounds that verification establishes before it issues an authorization. */
  ghost predicate Verified(a: Authorization) {
    && a.limits.maxMetadata <= 16384 && a.limits.maxChunk <= 65536
    && 1 <= |a.counts| <= a.limits.maxChunks <= 4
    && (forall i :: 0 <= i < |a.counts| ==> 1 <= a.counts[i] <= a.limits.maxChunk)
    && Sum(a.counts) <= a.limits.maxTotal
  }

  /** Component grammar applied to every chunk; only Valkey targets carry one. */
  predicate Deliverable(a: Authorization, chunk: bytes) {
    a.valkey ==> Base64Url.Accepts(32, chunk)
  }

  datatype ClaimOutcome = Claimed | Replayed | Unavailable | Failed

  datatype Activity =
    | Idle
    | Writing(calls: seq<bytes>, next: SessionState)
    | Reading(frame: FrameType, buffer: bytes)
    | Claiming
    | Closing
    | AwaitingEof
    | Delivering(chunk: bytes)

  datatype Label =
    | Refused                                     // a gate refused; nothing happened
    | BeginDaemon(call: DaemonCall)
    | BeginWrapper(wcall: WrapperCall)
    | Wrote(data: bytes)                          // one write call reported complete
    | WriteBroke(part: bytes)                     // a write call failed after emitting a part
    | Read(block: bytes)                          // one read call returned; [] is end of stream
    | ReadBroke(lost: bytes)                      // a read call failed after consuming octets
    | Authority(outcome: ClaimOutcome, recorded: bool)
    | HalfClose(closed: bool, confirmed: bool)
    | Sink(accepted: bool)
    | Late                                        // a deadline check refused

  datatype DaemonCall =
    | WriteTicketEnvelope | ReadReady | WriteClaim
    | WriteSecretChunks(chunks: Option<seq<bytes>>)  // None: not a tuple of byte arrays
    | CloseWrite | ReadTerminalAck | RequireOutputEof

  datatype WrapperCall =
    | ReadEnvelope | WriteReady | ReadClaim | ConsumeSecretChunks
    | RequireInputEof | WriteAckAndCloseOutput

  // Frames as write calls ---------------------------------------------------

  predicate MetadataFits(a: Authorization, payload: bytes) {
    |payload| <= a.limits.maxMetadata && |payload| < 0x1_0000_0000
  }

  function MetadataCalls(t: FrameType, payload: bytes): seq<bytes>
    requires |payload| < 0x1_0000_0000
  {
    [Header(t, |payload|), payload]
  }

  predicate Sendable(chunks: seq<bytes>) {
    |chunks| <= 4 && forall i :: 0 <= i < |chunks| ==> |chunks[i]| <= 65536
  }

  /** Chunk i becomes one secret frame with ordinal i + 1, in field order. */
  function SecretCalls(chunks: seq<bytes>): seq<bytes>
    requires Sendable(chunks)
  {
    if chunks == [] then []
    else
      var n := |chunks|;
      SecretCalls(chunks[..n - 1])
      + [Header(SecretChunk, 2 + |chunks[n - 1]|), U16(n), chunks[n - 1]]
  }

  /** Chunks as the daemon checks them against the authorization's fields. */
  predicate ShapeOk(a: Authorization, chunks: seq<bytes>) {
    && |chunks| == |a.counts|
    && forall i :: 0 <= i < |chunks| ==> |chunks[i]| == a.counts[i]
  }

  /** How far a frame being read has come. */
  datatype Progress = More(wanted: nat) | Bad | Done(payload: bytes)

  function FrameProgress(t: FrameType, limit: nat, buffer: bytes): (p: Progress)
    ensures p.More? ==> p.wanted > 0
  {
    if |buffer| < HEADER_BYTES then More(HEADER_BYTES - |buffer|)
    else
      match ParseHeader(buffer[..HEADER_BYTES], t, limit)
      case None => Bad
      case Some(n) =>
        if |buffer| < HEADER_BYTES + n then More(HEADER_BYTES + n - |buffer|)
        else if |buffer| == HEADER_BYTES + n then Done(buffer[HEADER_BYTES..])
        else Bad
  }

  // The daemon --------------------------------------------------------------

  /** `chunks` remembers what the one accepted write_secret_chunks call was given. */
  datatype Daemon = Daemon(state: SessionState, act: Activity, chunks: Option<seq<bytes>>)

  const DaemonStart := Daemon(New, Idle, None)

  function GateOf(call: DaemonCall): SessionState {
    match call
    case WriteTicketEnvelope => New
    case ReadReady => TicketSent
    case WriteClaim => ReadyReceived
    case WriteSecretChunks(_) => ClaimSent
    case CloseWrite => ChunksSent
    case ReadTerminalAck => WriteClosed
    case RequireOutputEof => TerminalAckReceived
  }

  function FailD(d: Daemon): Daemon {
    d.(state := Ambiguous, act := Idle)
  }

  function BeginD(a: Authorization, d: Daemon, call: DaemonCall): Daemon {
    match call
    case WriteTicketEnvelope =>
      if MetadataFits(a, a.envelope)
      then d.(act := Writing(MetadataCalls(TicketEnvelope, a.envelope), TicketSent))
      else FailD(d)
    case ReadReady => d.(act := Reading(Ready, []))
    case WriteClaim => d.(state := ClaimAttempted, act := Claiming)
    case WriteSecretChunks(given) =>
      if given.Some? && ShapeOk(a, given.value) && Sendable(given.value)
         && (forall i :: 0 <= i < |given.value| ==> Deliverable(a, given.value[i]))
         && given.value != []
      then Daemon(ChunksSent, Writing(SecretCalls(given.value), ChunksSent), given)
      else FailD(d)
    case CloseWrite => d.(act := Closing)
    case ReadTerminalAck => d.(act := Reading(TerminalAck, []))
    case RequireOutputEof => d.(act := AwaitingEof)
  }

  /** A complete metadata payload is accepted only when it is the one expected. */
  function AcceptD(a: Authorization, d: Daemon, t: FrameType, payload: bytes): Daemon {
    if t == Ready && payload == a.ready then d.(state := ReadyReceived, act := Idle)
    else if t == TerminalAck && payload == a.ack then d.(state := TerminalAckReceived, act := Idle)
    else FailD(d)
  }

  function ReadD(a: Authorization, d: Daemon, t: FrameType, buffer: bytes): Daemon {
    match FrameProgress(t, a.limits.maxMetadata, buffer)
    case More(_) => d.(act := Reading(t, buffer))
    case Bad => FailD(d)
    case Done(payload) => AcceptD(a, d, t, payload)
  }

  /** The daemon after one label; None when the session cannot produce that label there. */
  function DaemonStep(a: Authorization, d: Daemon, l: Label): Option<Daemon> {
    match d.act
    case Idle =>
      if l.Refused? then Some(d)
      else if l.BeginDaemon? && d.state == GateOf(l.call) then Some(BeginD(a, d, l.call))
      else None
    case Writing(calls, next) =>
      if l.Late? then Some(FailD(d))
      else if calls == [] then None
      else if l.Wrote? && l.data == calls[0] then
        Some(if |calls| == 1 then d.(state := next, act := Idle)
             else d.(act := Writing(calls[1..], next)))
      else if l.WriteBroke? && l.part <= calls[0] then Some(FailD(d))
      else None
    case Reading(t, buffer) =>
      if l.Late? || l.ReadBroke? then Some(FailD(d))
      else if l.Read? then
        Some(if l.block == [] || FrameProgress(t, a.limits.maxMetadata, buffer).More? == false
                || |l.block| > FrameProgress(t, a.limits.maxMetadata, buffer).wanted
             then FailD(d) else ReadD(a, d, t, buffer + l.block))
      else None
    case Claiming =>
      if l.Late? then Some(FailD(d))
      else if l.Authority? && (l.outcome == Claimed ==> l.recorded) then
        match l.outcome
        case Claimed =>
          Some(if MetadataFits(a, a.claim)
               then d.(act := Writing(MetadataCalls(Claim, a.claim), ClaimSent))
               else FailD(d))
        case Replayed => Some(d.(state := Rejected, act := Idle))
        case Unavailable => Some(FailD(d))
        case Failed => Some(FailD(d))
      else None
    case Closing =>
      if l.Late? then Some(FailD(d))
      else if l.HalfClose? && (l.confirmed ==> l.closed) then
        Some(if l.confirmed then d.(state := WriteClosed, act := Idle) else FailD(d))
      else None
    case AwaitingEof =>
      if l.Late? || l.ReadBroke? then Some(FailD(d))
      else if l.Read? then Some(if l.block == [] then d.(state := Closed, act := Idle) else FailD(d))
      else None
    case Delivering(_) => None
  }

  // The wrapper -------------------------------------------------------------

  datatype WrapperPhase = AwaitingEnvelope | EnvelopeRefused | InSession(state: SessionState)

  /** `sink` lists the values passed to accept; `eofSeen` records the observed input end. */
  datatype Wrapper = Wrapper(phase: WrapperPhase, act: Activity, sink: seq<bytes>, eofSeen: bool)

  const WrapperStart := Wrapper(AwaitingEnvelope, Idle, [], false)

  function WrapperGate(call: WrapperCall): WrapperPhase {
    match call
    case ReadEnvelope => AwaitingEnvelope
    case WriteReady => InSession(New)
    case ReadClaim => InSession(ReadyReceived)
    case ConsumeSecretChunks => InSession(ClaimSent)
    case RequireInputEof => InSession(ChunksSent)
    case WriteAckAndCloseOutput => InSession(WriteClosed)
  }

  function FailW(w: Wrapper): Wrapper {
    w.(phase := if w.phase.InSession? then InSession(Ambiguous) else EnvelopeRefused, act := Idle)
  }

  function BeginW(a: Authorization, w: Wrapper, call: WrapperCall): Wrapper {
    match call
    case ReadEnvelope => w.(act := Reading(TicketEnvelope, []))
    case WriteReady =>
      if MetadataFits(a, a.ready)
      then w.(act := Writing(MetadataCalls(Ready, a.ready), ReadyReceived)) else FailW(w)
    case ReadClaim => w.(act := Reading(Claim, []))
    case ConsumeSecretChunks => w.(act := Reading(SecretChunk, []))
    case RequireInputEof => w.(act := AwaitingEof)
    case WriteAckAndCloseOutput =>
      if MetadataFits(a, a.ack)
      then w.(act := Writing(MetadataCalls(TerminalAck, a.ack), Closed)) else FailW(w)
  }

  function LimitW(a: Authorization, t: FrameType): nat {
    if t == SecretChunk then a.limits.maxChunk + 2 else a.limits.maxMetadata
  }

  function Lengths(chunks: seq<bytes>): (s: seq<nat>)
    ensures |s| == |chunks|
  {
    seq(|chunks|, i requires 0 <= i < |chunks| => |chunks[i]|)
  }

  /** One complete secret payload: ordinal, declared count, running total and grammar. */
  predicate ChunkOk(a: Authorization, sink: seq<bytes>, payload: bytes) {
    && |payload| >= 2 && |sink| < |a.counts|
    && ReadU16(payload[..2]) == |sink| + 1
    && |payload| - 2 == a.counts[|sink|]
    && Sum(Lengths(sink)) + |payload| - 2 <= a.limits.maxTotal
    && Deliverable(a, payload[2..])
  }

  function AcceptW(a: Authorization, w: Wrapper, t: FrameType, payload: bytes): Wrapper {
    if t == TicketEnvelope && payload == a.envelope then w.(phase := InSession(New), act := Idle)
    else if t == Claim && payload == a.claim then w.(phase := InSession(ClaimSent), act := Idle)
    else if t == SecretChunk && ChunkOk(a, w.sink, payload) then w.(act := Delivering(payload[2..]))
    else FailW(w)
  }

  function ReadW(a: Authorization, w: Wrapper, t: FrameType, buffer: bytes): Wrapper {
    match FrameProgress(t, LimitW(a, t), buffer)
    case More(_) => w.(act := Reading(t, buffer))
    case Bad => FailW(w)
    case Done(payload) => AcceptW(a, w, t, payload)
  }

  /** The wrapper after one label; None when it cannot produce that label there. */
  function WrapperStep(a: Authorization, w: Wrapper, l: Label): Option<Wrapper> {
    match w.act
    case Idle =>
      if l.Refused? then Some(w)
      else if l.BeginWrapper? && w.phase == WrapperGate(l.wcall) then Some(BeginW(a, w, l.wcall))
      else None
    case Writing(calls, next) =>
      if l.Late? then Some(FailW(w))
      else if calls == [] then None
      else if l.Wrote? && l.data == calls[0] then
        Some(if |calls| > 1 then w.(act := Writing(calls[1..], next))
             else if next == Closed then w.(act := Closing)
             else w.(phase := InSession(next), act := Idle))
      else if l.WriteBroke? && l.part <= calls[0] then Some(FailW(w))
      else None
    case Reading(t, buffer) =>
      if l.Late? || l.ReadBroke? then Some(FailW(w))
      else if l.Read? then
        Some(if l.block == [] || FrameProgress(t, LimitW(a, t), buffer).More? == false
                || |l.block| > FrameProgress(t, LimitW(a, t), buffer).wanted
             then FailW(w) else ReadW(a, w, t, buffer + l.block))
      else None
    case Delivering(chunk) =>
      if l.Sink? then
        var w' := w.(sink := w.sink + [chunk]);
        Some(if !l.accepted then FailW(w')
             else if |w'.sink| == |a.counts| then w'.(phase := InSession(ChunksSent), act := Idle)
             else w'.(act := Reading(SecretChunk, [])))
      else None
    case AwaitingEof =>
      if l.Late? || l.ReadBroke? then Some(FailW(w))
      else if l.Read? then
        Some(if l.block == [] then w.(phase := InSession(WriteClosed), act := Idle, eofSeen := true)
             else FailW(w))
      else None
    case Closing =>
      if l.Late? then Some(FailW(w))
      else if l.HalfClose? && (l.confirmed ==> l.closed) then
        Some(if l.confirmed then w.(phase := InSession(Closed), act := Idle) else FailW(w))
      else None
    case Claiming => None
  }
}

/**
 The attach protocol never gets stuck: from every state that any run reaches without either party
 having failed, some continuation closes both sessions with every chunk delivered. Next steps exist
 because the two parties are never both waiting for octets or an end that the other still owes.
 */
module Completion {
  import opened Bytes
  import opened Frames
  import opened AttachProgram
  import opened AttachStreams
  import opened TwoParty

  /** Steps from s to t. */
  ghost predicate IsPath(a: Authorization, path: seq<Sys>, s: Sys, t: Sys) {
    && |path| > 0 && path[0] == s && path[|path| - 1] == t
    && forall i :: 0 <= i < |path| - 1 ==> Next(a, path[i], path[i + 1])
  }

  /** Both sides can write all their metadata, and the wrapper will take these chunks. */
  ghost predicate Completable(a: Authorization, chunks: seq<bytes>) {
    && Verified(a)
    && MetadataFits(a, a.envelope) && MetadataFits(a, a.ready) && MetadataFits(a, a.claim) && MetadataFits(a, a.ack)
    && ShapeOk(a, chunks) && AllTaken(a, chunks)
  }

  ghost predicate AllTaken(a: Authorization, chunks: seq<bytes>) {
    forall i :: 0 <= i < |chunks| ==> Deliverable(a, chunks[i])
  }

  /** Neither party has failed. */
  ghost predicate Live(s: Sys) {
    && s.d.state != Ambiguous && s.d.state != Rejected
    && s.w.phase != EnvelopeRefused && s.w.phase != InSession(Ambiguous)
  }

  ghost predicate BothClosed(s: Sys) {
    s.d.state == Closed && s.w.phase == InSession(Closed)
  }

  /** What else every run keeps: closed sessions have closed their channels, and no idle daemon is mid-claim. */
  ghost predicate Ends(a: Authorization, s: Sys) {
    && (s.w.phase == InSession(Closed) ==> s.upClosed && s.w.act.Idle?)
    && (s.d.state in {WriteClosed, TerminalAckReceived, Closed} ==> s.downClosed)
    && (s.d.act.Idle? ==> s.d.state != ClaimAttempted)
    && (s.d.state == Closed ==> s.d.act.Idle?)
    && (s.d.chunks.Some? ==> AllTaken(a, s.d.chunks.value))
  }

  lemma DaemonKeepsEnds(a: Authorization, s: Sys, l: Label, s': Sys)
    requires Inv(a, s) && Ends(a, s) && DaemonMoves(a, s, l, s')
    ensures Ends(a, s')
  {
    hide Header, FrameProgress, MetaFrame, SecretCalls, MetadataCalls, Concat, WrapperReads, WrapperWrites, DaemonReads,
      SinkInv, Deliverable, Secrets;
  }

  lemma WrapperKeepsEnds(a: Authorization, s: Sys, l: Label, s': Sys)
    requires Inv(a, s) && Ends(a, s) && WrapperMoves(a, s, l, s')
    ensures Ends(a, s')
  {
    hide Header, FrameProgress, MetaFrame, MetadataCalls, Concat, WrapperReads, DaemonReads, DaemonInv, SinkInv,
      Deliverable, ChunkOk, AllTaken;
  }

  lemma {:induction false} RunKeepsEnds(a: Authorization, run: seq<Sys>, k: nat)
    requires Verified(a) && IsRun(a, run) && k < |run|
    ensures Inv(a, run[k]) && Ends(a, run[k])
  {
    hide DaemonMoves, WrapperMoves, Inv, Verified;
    RunKeepsInv(a, run, k);
    if k > 0 {
      RunKeepsEnds(a, run, k - 1);
      assert Next(a, run[k - 1], run[k - 1 + 1]);
      var l :| DaemonMoves(a, run[k - 1], l, run[k]) || WrapperMoves(a, run[k - 1], l, run[k]);
      if DaemonMoves(a, run[k - 1], l, run[k]) {
        DaemonKeepsEnds(a, run[k - 1], l, run[k]);
      } else {
        WrapperKeepsEnds(a, run[k - 1], l, run[k]);
      }
    }
  }

  /** A state from which the goal is in reach: live, and these are the chunks, given or yet to be. */
  ghost predicate OnTrack(a: Authorization, chunks: seq<bytes>, s: Sys) {
    Inv(a, s) && Ends(a, s) && Live(s) && (s.d.chunks.Some? ==> s.d.chunks.value == chunks)
  }

  // Reading the expected frame -----------------------------------------------

  /** Part of a frame asks for more of it, the whole frame is accepted, and more than it never is. */
  lemma ProgressOfFrame(t: FrameType, limit: nat, payload: bytes, rest: bytes, k: nat)
    requires |payload| <= limit && |payload| < 0x1_0000_0000
    requires k <= |Frame(t, payload) + rest|
    ensures var p := FrameProgress(t, limit, (Frame(t, payload) + rest)[..k]);
            && |Frame(t, payload)| == HEADER_BYTES + |payload|
            && (k < HEADER_BYTES ==> p == More(HEADER_BYTES - k))
            && (HEADER_BYTES <= k < HEADER_BYTES + |payload| ==> p == More(HEADER_BYTES + |payload| - k))
            && (k == HEADER_BYTES + |payload| ==> p == Done(payload))
            && (k >= HEADER_BYTES + |payload| ==> !p.More?)
  {
    var h := Header(t, |payload|);
    ParseHeaderExact(h, t, limit, |payload|);
    hide Header, ParseHeader;
    var whole := Frame(t, payload) + rest;
    assert Frame(t, payload) == h + payload;
    if k >= HEADER_BYTES {
      assert whole[..k][..HEADER_BYTES] == h;
    }
    if k == HEADER_BYTES + |payload| {
      assert whole[..k][HEADER_BYTES..] == payload;
    }
  }

  /** The next block of a stream that goes on with a certain frame, of which buffer has been read. */
  lemma NextBlock(t: FrameType, limit: nat, payload: bytes, prologue: bytes, rest: bytes, sent: bytes, got: nat,
                  buffer: bytes) returns (block: bytes)
    requires |payload| <= limit && |payload| < 0x1_0000_0000 && got < |sent|
    requires sent <= prologue + (Frame(t, payload) + rest) && sent[..got] == prologue + buffer
    requires FrameProgress(t, limit, buffer).More?
    ensures block != [] && |block| <= FrameProgress(t, limit, buffer).wanted
    ensures got + |block| <= |sent| && block == sent[got..got + |block|]
    ensures |buffer + block| <= HEADER_BYTES + |payload|
    ensures FrameProgress(t, limit, buffer + block) == Done(payload)
            || (FrameProgress(t, limit, buffer + block).More? && |buffer + block| < HEADER_BYTES + |payload|)
  {
    var stream := Frame(t, payload) + rest;
    var wanted := FrameProgress(t, limit, buffer).wanted;
    hide Frame, FrameProgress;
    Behind(prologue, stream, sent, got, buffer);
    ProgressOfFrame(t, limit, payload, rest, |buffer|);
    var m := if wanted <= |sent| - got then wanted else |sent| - got;
    block := sent[got..got + m];
    assert sent[..got + m] == prologue + (buffer + block);
    Behind(prologue, stream, sent, got + m, buffer + block);
    ProgressOfFrame(t, limit, payload, rest, |buffer + block|);
  }

  lemma Behind(prologue: bytes, stream: bytes, sent: bytes, got: nat, buffer: bytes)
    requires got <= |sent| && sent <= prologue + stream && sent[..got] == prologue + buffer
    ensures |buffer| <= |stream| && buffer == stream[..|buffer|]
  {
    var whole := prologue + stream;
    assert sent[..got] == whole[..got];
    assert whole[..got][|prologue|..] == stream[..|buffer|];
    assert (prologue + buffer)[|prologue|..] == buffer;
  }

  /** Whoever has read all of such a stream, frame included, is not waiting for more of the frame. */
  lemma NotWaiting(t: FrameType, limit: nat, payload: bytes, rest: bytes, buffer: bytes)
    requires |payload| <= limit && |payload| < 0x1_0000_0000 && buffer == Frame(t, payload) + rest
    ensures !FrameProgress(t, limit, buffer).More?
  {
    ProgressOfFrame(t, limit, payload, rest, |buffer|);
    assert buffer[..|buffer|] == buffer;
  }

  // The daemon ----------------------------------------------------------------

  function IdleRank(s: SessionState): nat {
    match s
    case New => 20
    case TicketSent => 18
    case ReadyReceived => 16
    case ClaimSent => 12
    case ChunksSent => 10
    case WriteClosed => 8
    case TerminalAckReceived => 6
    case _ => 0
  }

  /** How many stages the daemon still has before it, and how much of the present one. */
  function DaemonStage(d: Daemon): nat {
    match d.act
    case Idle => IdleRank(d.state)
    case Writing(_, next) => IdleRank(next) + 1
    case Reading(t, _) => if t == Ready then 17 else 7
    case Claiming => 15
    case Closing => 9
    case AwaitingEof => 5
    case Delivering(_) => 0
  }

  function Left(whole: nat, done: nat): nat { if done < whole then whole - done else 0 }

  function DaemonLeft(a: Authorization, d: Daemon): nat {
    match d.act
    case Writing(calls, _) => |calls|
    case Reading(t, buffer) => Left(HEADER_BYTES + if t == Ready then |a.ready| else |a.ack|, |buffer|)
    case _ => 0
  }

  ghost predicate DaemonWaits(s: Sys) {
    || (s.d.act.Reading? && s.gotUp == |s.up|)
    || (s.d.act.AwaitingEof? && !(s.upClosed && s.gotUp == |s.up|))
  }

  ghost predicate Nearer(a: Authorization, s: Sys, s': Sys) {
    || DaemonStage(s'.d) < DaemonStage(s.d)
    || (DaemonStage(s'.d) == DaemonStage(s.d) && DaemonLeft(a, s'.d) < DaemonLeft(a, s.d))
  }

  function AfterDaemon(s: Sys, l: Label, d: Daemon): Sys {
    s.(d := d, down := s.down + BytesOut(l), gotUp := s.gotUp + |BytesIn(l)|, downClosed := s.downClosed || Closes(l))
  }

  /** Which call an idle daemon makes next. */
  function NextCall(s: SessionState, chunks: seq<bytes>): DaemonCall {
    match s
    case New => WriteTicketEnvelope
    case TicketSent => ReadReady
    case ReadyReceived => WriteClaim
    case ClaimSent => WriteSecretChunks(Some(chunks))
    case ChunksSent => CloseWrite
    case WriteClosed => ReadTerminalAck
    case _ => RequireOutputEof
  }

  lemma DaemonReadsOn(a: Authorization, chunks: seq<bytes>, s: Sys) returns (l: Label)
    requires Completable(a, chunks) && OnTrack(a, chunks, s) && s.d.act.Reading? && s.gotUp < |s.up|
    ensures DaemonStep(a, s.d, l).Some? && ReadsFaithfully(s.up, s.gotUp, s.upClosed, l) && l.Read?
    ensures DaemonStep(a, s.d, l).value.state != Ambiguous && DaemonStep(a, s.d, l).value.state != Rejected
    ensures DaemonStep(a, s.d, l).value.chunks == s.d.chunks
    ensures Nearer(a, s, AfterDaemon(s, l, DaemonStep(a, s.d, l).value))
  {
    hide Header, FrameProgress, WrapperReads, SinkInv, SecretStream, Secrets, DaemonStream, Concat, Frame;
    var t, buffer := s.d.act.frame, s.d.act.buffer;
    var payload := if t == Ready then a.ready else a.ack;
    var prologue := if t == Ready then [] else ReadyPart(a);
    var rest := if t == Ready then AckPart(a) else [];
    assert prologue + (Frame(t, payload) + rest) == ReadyPart(a) + AckPart(a);
    var block := NextBlock(t, a.limits.maxMetadata, payload, prologue, rest, s.up, s.gotUp, buffer);
    l := Read(block);
  }

  lemma DaemonGoesOn(a: Authorization, chunks: seq<bytes>, s: Sys) returns (l: Label)
    requires Completable(a, chunks) && OnTrack(a, chunks, s)
    requires s.d.state != Closed && !s.d.act.Reading? && !DaemonWaits(s)
    ensures DaemonStep(a, s.d, l).Some? && ReadsFaithfully(s.up, s.gotUp, s.upClosed, l)
    ensures DaemonStep(a, s.d, l).value.state != Ambiguous && DaemonStep(a, s.d, l).value.state != Rejected
    ensures DaemonStep(a, s.d, l).value.chunks.Some? ==> DaemonStep(a, s.d, l).value.chunks.value == chunks
    ensures Nearer(a, s, AfterDaemon(s, l, DaemonStep(a, s.d, l).value))
  {
    hide Header, FrameProgress, WrapperReads, WrapperWrites, SinkInv, SecretStream, Secrets, DaemonStream, Concat,
      Frame, MetaFrame, SecretCalls, Deliverable;
    match s.d.act
    case Idle => l := BeginDaemon(NextCall(s.d.state, chunks));
    case Writing(calls, _) => l := Wrote(calls[0]);
    case Claiming => l := Authority(Claimed, true);
    case Closing => l := HalfClose(true, true);
    case AwaitingEof => l := Read([]);
  }

  lemma ReadsWithin(a: Authorization, s: Sys)
    requires Inv(a, s)
    ensures s.gotUp <= |s.up| && s.gotDown <= |s.down|
  {
    hide FrameProgress, DaemonInv, WrapperWrites, SinkInv, SecretStream, MetaFrame;
  }

  lemma DaemonMovesOn(a: Authorization, chunks: seq<bytes>, s: Sys) returns (s': Sys)
    requires Completable(a, chunks) && OnTrack(a, chunks, s) && s.d.state != Closed && !DaemonWaits(s)
    ensures Next(a, s, s') && OnTrack(a, chunks, s') && Nearer(a, s, s') && s'.w == s.w
  {
    hide Inv, Ends, DaemonStep, Verified, ReadsFaithfully;
    var l: Label;
    ReadsWithin(a, s);
    if s.d.act.Reading? {
      l := DaemonReadsOn(a, chunks, s);
    } else {
      l := DaemonGoesOn(a, chunks, s);
    }
    s' := AfterDaemon(s, l, DaemonStep(a, s.d, l).value);
    assert DaemonMoves(a, s, l, s');
    NextKeepsInv(a, s, s');
    DaemonKeepsEnds(a, s, l, s');
  }

  // The wrapper ---------------------------------------------------------------

  /** Stages the wrapper still has before it; n is how many chunks there are. */
  function WrapperStage(w: Wrapper): nat {
    match w.act
    case Reading(TicketEnvelope, _) => 29
    case Reading(Claim, _) => 25
    case Reading(_, _) => Left(22, 2 * |w.sink|)
    case Delivering(_) => Left(21, 2 * |w.sink|)
    case Writing(_, next) => if next == Closed then 9 else 27
    case Closing => 8
    case AwaitingEof => 11
    case Claiming => 0
    case Idle =>
      match w.phase
      case AwaitingEnvelope => 30
      case InSession(New) => 28
      case InSession(ReadyReceived) => 26
      case InSession(ClaimSent) => 24
      case InSession(ChunksSent) => 12
      case InSession(WriteClosed) => 10
      case _ => 0
  }

  /** The payload the wrapper is reading. */
  function Awaited(a: Authorization, chunks: seq<bytes>, w: Wrapper): bytes
    requires w.act.Reading?
  {
    match w.act.frame
    case TicketEnvelope => a.envelope
    case Claim => a.claim
    case _ => if |w.sink| < |chunks| && |w.sink| < 4 then U16(|w.sink| + 1) + chunks[|w.sink|] else []
  }

  function WrapperLeft(a: Authorization, chunks: seq<bytes>, w: Wrapper): nat {
    match w.act
    case Writing(calls, _) => |calls|
    case Reading(_, buffer) => Left(HEADER_BYTES + |Awaited(a, chunks, w)|, |buffer|)
    case _ => 0
  }

  ghost predicate WrapperWaits(s: Sys) {
    || (s.w.act.Reading? && s.gotDown == |s.down|)
    || (s.w.act.AwaitingEof? && !(s.downClosed && s.gotDown == |s.down|))
  }

  ghost predicate WrapperNearer(a: Authorization, chunks: seq<bytes>, s: Sys, s': Sys) {
    || WrapperStage(s'.w) < WrapperStage(s.w)
    || (WrapperStage(s'.w) == WrapperStage(s.w) && WrapperLeft(a, chunks, s'.w) < WrapperLeft(a, chunks, s.w))
  }

  function AfterWrapper(s: Sys, l: Label, w: Wrapper): Sys {
    s.(w := w, up := s.up + BytesOut(l), gotDown := s.gotDown + |BytesIn(l)|, upClosed := s.upClosed || Closes(l))
  }

  function NextWrapperCall(phase: WrapperPhase): WrapperCall {
    match phase
    case AwaitingEnvelope => ReadEnvelope
    case InSession(New) => WriteReady
    case InSession(ReadyReceived) => ReadClaim
    case InSession(ClaimSent) => ConsumeSecretChunks
    case InSession(ChunksSent) => RequireInputEof
    case _ => WriteAckAndCloseOutput
  }

  ghost predicate GoesOn(a: Authorization, chunks: seq<bytes>, s: Sys, l: Label) {
    && WrapperStep(a, s.w, l).Some? && ReadsFaithfully(s.down, s.gotDown, s.downClosed, l)
    && var w := WrapperStep(a, s.w, l).value;
       w.phase != EnvelopeRefused && w.phase != InSession(Ambiguous)
       && WrapperNearer(a, chunks, s, AfterWrapper(s, l, w))
  }

  lemma WrapperReadsMetadataOn(a: Authorization, chunks: seq<bytes>, s: Sys) returns (l: Label)
    requires Completable(a, chunks) && OnTrack(a, chunks, s)
    requires s.w.act.Reading? && s.w.act.frame != SecretChunk && s.gotDown < |s.down|
    ensures GoesOn(a, chunks, s, l)
  {
    hide *;
    var prologue, rest := MetadataAhead(a, chunks, s);
    var t, buffer, payload := s.w.act.frame, s.w.act.buffer, Awaited(a, chunks, s.w);
    var block := NextBlock(t, a.limits.maxMetadata, payload, prologue, rest, s.down, s.gotDown, buffer);
    l := Read(block);
    MetadataBlockGoesOn(a, chunks, s, block);
  }

  /** What the wrapper has read of the frame it waits for, and what has been sent after it. */
  lemma MetadataAhead(a: Authorization, chunks: seq<bytes>, s: Sys) returns (prologue: bytes, rest: bytes)
    requires Completable(a, chunks) && OnTrack(a, chunks, s)
    requires s.w.act.Reading? && s.w.act.frame != SecretChunk && s.gotDown <= |s.down|
    ensures var t, buffer, payload := s.w.act.frame, s.w.act.buffer, Awaited(a, chunks, s.w);
            && |payload| <= a.limits.maxMetadata <= 16384
            && s.down <= prologue + (Frame(t, payload) + rest) && s.down[..s.gotDown] == prologue + buffer
            && FrameProgress(t, a.limits.maxMetadata, buffer).More?
            && ((t == TicketEnvelope && s.w.phase == AwaitingEnvelope)
                || (t == Claim && s.w.phase == InSession(ReadyReceived)))
  {
    hide Header, FrameProgress, WrapperWrites, DaemonReads, SinkInv, SecretStream, Secrets, DaemonStream, Concat,
      Frame, ChunkOk;
    var secrets := Secrets(s.d.chunks);
    if s.w.act.frame == TicketEnvelope {
      prologue, rest := [], ClaimPart(a) + secrets;
      assert [] + (Hello(a) + rest) == Hello(a) + ClaimPart(a) + secrets;
    } else {
      prologue, rest := Hello(a), secrets;
      assert prologue + (ClaimPart(a) + rest) == Hello(a) + ClaimPart(a) + secrets;
    }
  }

  lemma MetadataBlockGoesOn(a: Authorization, chunks: seq<bytes>, s: Sys, block: bytes)
    requires s.w.act.Reading? && s.gotDown + |block| <= |s.down|
    requires block == s.down[s.gotDown..s.gotDown + |block|] && block != []
    requires (s.w.act.frame == TicketEnvelope && s.w.phase == AwaitingEnvelope)
             || (s.w.act.frame == Claim && s.w.phase == InSession(ReadyReceived))
    requires var p := FrameProgress(s.w.act.frame, a.limits.maxMetadata, s.w.act.buffer);
             p.More? && |block| <= p.wanted
    requires var p := FrameProgress(s.w.act.frame, a.limits.maxMetadata, s.w.act.buffer + block);
             || p == Done(Awaited(a, chunks, s.w))
             || (p.More? && |s.w.act.buffer + block| < HEADER_BYTES + |Awaited(a, chunks, s.w)|)
    ensures GoesOn(a, chunks, s, Read(block))
  {
    hide FrameProgress, ChunkOk;
  }

  lemma SumPrefix(a: Authorization, chunks: seq<bytes>, k: nat)
    requires ShapeOk(a, chunks) && k < |chunks|
    ensures Sum(Lengths(chunks[..k])) + |chunks[k]| <= Sum(a.counts)
  {
    assert Lengths(chunks[..k]) == a.counts[..k];
    SumOfPrefix(a.counts, k);
  }

  lemma {:induction false} SumOfPrefix(s: seq<nat>, k: nat)
    requires k < |s|
    ensures Sum(s[..k]) + s[k] <= Sum(s)
    decreases |s|
  {
    if k < |s| - 1 {
      SumOfPrefix(s[..|s| - 1], k);
      assert s[..|s| - 1][..k] == s[..k];
    }
  }

  lemma ChunkIsOk(a: Authorization, chunks: seq<bytes>, k: nat)
    requires Completable(a, chunks) && Sendable(chunks) && k < |chunks|
    ensures var payload := U16(k + 1) + chunks[k];
            && ChunkOk(a, chunks[..k], payload) && payload[2..] == chunks[k]
            && |payload| <= a.limits.maxChunk + 2
            && SecretFrame(k + 1, chunks[k]) == Frame(SecretChunk, payload)
  {
    hide Deliverable, Header;
    var payload := U16(k + 1) + chunks[k];
    SumPrefix(a, chunks, k);
    assert payload[..2] == U16(k + 1) && payload[2..] == chunks[k];
  }

  /** While it reads secrets the wrapper is behind a daemon that has begun to send them. */
  lemma SecretsAreComing(a: Authorization, chunks: seq<bytes>, s: Sys)
    requires Completable(a, chunks) && OnTrack(a, chunks, s)
    requires s.w.act.Reading? && s.w.act.frame == SecretChunk && s.gotDown < |s.down|
    ensures s.d.chunks == Some(chunks) && Sendable(chunks) && |s.w.sink| < |chunks| && s.w.sink == chunks[..|s.w.sink|]
    ensures s.down <= Hello(a) + ClaimPart(a) + SecretStream(chunks)
    ensures s.down[..s.gotDown] == Hello(a) + ClaimPart(a) + SecretStream(s.w.sink) + s.w.act.buffer
    ensures s.w.phase == InSession(ClaimSent)
    ensures FrameProgress(SecretChunk, LimitW(a, SecretChunk), s.w.act.buffer).More?
  {
    WhatItHasRead(a, s);
    WhatWasSent(a, chunks, s);
    SinkSoFar(a, chunks, s);
    hide *;
    assert |s.down[..s.gotDown]| == s.gotDown;
  }

  lemma WhatWasSent(a: Authorization, chunks: seq<bytes>, s: Sys)
    requires OnTrack(a, chunks, s)
    ensures |s.down| > |Hello(a) + ClaimPart(a)| ==>
              && s.d.chunks == Some(chunks) && Sendable(chunks) && |chunks| == |a.counts|
              && s.down <= Hello(a) + ClaimPart(a) + SecretStream(chunks)
  {
    hide FrameProgress, WrapperReads, WrapperWrites, DaemonReads, SinkInv, SecretStream, DaemonStream, Concat, Frame,
      MetaFrame;
  }

  lemma SinkSoFar(a: Authorization, chunks: seq<bytes>, s: Sys)
    requires OnTrack(a, chunks, s)
    ensures |s.w.sink| <= |chunks| ==> s.w.sink == chunks[..|s.w.sink|]
  {
    hide FrameProgress, WrapperReads, WrapperWrites, DaemonReads, DaemonInv, SecretStream, Frame, MetaFrame, Ends;
  }

  lemma WhatItHasRead(a: Authorization, s: Sys)
    requires Inv(a, s) && s.w.act.Reading? && s.w.act.frame == SecretChunk
    ensures s.gotDown <= |s.down| && Sendable(s.w.sink) && |s.w.sink| < |a.counts|
    ensures s.down[..s.gotDown] == Hello(a) + ClaimPart(a) + SecretStream(s.w.sink) + s.w.act.buffer
    ensures s.w.phase == InSession(ClaimSent)
    ensures FrameProgress(SecretChunk, LimitW(a, SecretChunk), s.w.act.buffer).More?
  {
    hide FrameProgress, DaemonInv, WrapperWrites, DaemonReads, SinkInv, SecretStream, Frame, MetaFrame, LimitW;
  }

  lemma AwaitedChunk(a: Authorization, chunks: seq<bytes>, w: Wrapper)
    requires w.act.Reading? && w.act.frame == SecretChunk && |w.sink| < |chunks| && Sendable(chunks)
    ensures Awaited(a, chunks, w) == U16(|w.sink| + 1) + chunks[|w.sink|]
  {
    hide U16;
  }

  /** A stream that goes as far as all chunks goes on with chunk k after the first k. */
  lemma SecretsAhead(chunks: seq<bytes>, k: nat, sent: bytes, begun: bytes) returns (rest: bytes)
    requires Sendable(chunks) && k < |chunks| && sent <= begun + SecretStream(chunks)
    ensures sent <= begun + SecretStream(chunks[..k]) + (SecretFrame(k + 1, chunks[k]) + rest)
  {
    hide *;
    SendableParts(chunks, k);
    rest := StreamSplits(chunks, k);
    Regroup(sent, begun, SecretStream(chunks), SecretStream(chunks[..k]), SecretFrame(k + 1, chunks[k]) + rest);
  }

  lemma SendableParts(chunks: seq<bytes>, k: nat)
    requires Sendable(chunks) && k < |chunks|
    ensures |chunks| <= 4 && Sendable(chunks[..k]) && |chunks[k]| <= 65536
  {
  }

  lemma SecretLimit(a: Authorization, chunks: seq<bytes>)
    requires Completable(a, chunks)
    ensures LimitW(a, SecretChunk) == a.limits.maxChunk + 2 <= 65538
  {
  }

  lemma Regroup(sent: bytes, begun: bytes, stream: bytes, part: bytes, ahead: bytes)
    requires sent <= begun + stream && stream == part + ahead
    ensures sent <= begun + part + ahead
  {
    assert begun + (part + ahead) == begun + part + ahead;
  }

  /** One more block of the awaited payload takes the wrapper on, or has it hand over the chunk. */
  lemma SecretStep(a: Authorization, w: Wrapper, block: bytes, payload: bytes)
    requires w.act.Reading? && w.act.frame == SecretChunk && block != [] && ChunkOk(a, w.sink, payload)
    requires var p := FrameProgress(SecretChunk, LimitW(a, SecretChunk), w.act.buffer); p.More? && |block| <= p.wanted
    requires var p := FrameProgress(SecretChunk, LimitW(a, SecretChunk), w.act.buffer + block);
             p.More? || p == Done(payload)
    ensures WrapperStep(a, w, Read(block)) == Some(w.(act :=
              if FrameProgress(SecretChunk, LimitW(a, SecretChunk), w.act.buffer + block).More?
              then Reading(SecretChunk, w.act.buffer + block) else Delivering(payload[2..])))
  {
    hide FrameProgress, ChunkOk, LimitW;
  }

  lemma WrapperReadsSecretOn(a: Authorization, chunks: seq<bytes>, s: Sys) returns (l: Label)
    requires Completable(a, chunks) && OnTrack(a, chunks, s)
    requires s.w.act.Reading? && s.w.act.frame == SecretChunk && s.gotDown < |s.down|
    ensures GoesOn(a, chunks, s, l)
  {
    hide *;
    SecretsAreComing(a, chunks, s);
    SendableParts(chunks, |s.w.sink|);
    AwaitedChunk(a, chunks, s.w);
    ChunkIsOk(a, chunks, |s.w.sink|);
    SecretLimit(a, chunks);
    var begun := Hello(a) + ClaimPart(a);
    var payload := Awaited(a, chunks, s.w);
    var rest := SecretsAhead(chunks, |s.w.sink|, s.down, begun);
    var block := NextBlock(SecretChunk, LimitW(a, SecretChunk), payload, begun + SecretStream(s.w.sink), rest,
      s.down, s.gotDown, s.w.act.buffer);
    SecretStep(a, s.w, block, payload);
    l := Read(block);
    SecretBlockGoesOn(a, chunks, s, block, payload);
  }

  lemma SecretBlockGoesOn(a: Authorization, chunks: seq<bytes>, s: Sys, block: bytes, payload: bytes)
    requires s.w.act.Reading? && s.w.act.frame == SecretChunk && s.w.phase == InSession(ClaimSent)
    requires s.gotDown + |block| <= |s.down| && block == s.down[s.gotDown..s.gotDown + |block|] && block != []
    requires payload == Awaited(a, chunks, s.w) && |payload| >= 2 && |s.w.sink| < 4
    requires var more := FrameProgress(SecretChunk, LimitW(a, SecretChunk), s.w.act.buffer + block).More?;
             && (more ==> |s.w.act.buffer + block| < HEADER_BYTES + |payload|)
             && WrapperStep(a, s.w, Read(block)) == Some(s.w.(act :=
                  if more then Reading(SecretChunk, s.w.act.buffer + block) else Delivering(payload[2..])))
    ensures GoesOn(a, chunks, s, Read(block))
  {
    hide WrapperStep, FrameProgress, LimitW, U16;
  }

  lemma WrapperBeginsOn(a: Authorization, chunks: seq<bytes>, s: Sys) returns (l: Label)
    requires Completable(a, chunks) && OnTrack(a, chunks, s) && s.w.phase != InSession(Closed) && s.w.act.Idle?
    ensures GoesOn(a, chunks, s, l)
  {
    IdlePhase(a, s);
    hide FrameProgress, Inv, Ends, ReadW;
    l := BeginWrapper(NextWrapperCall(s.w.phase));
  }

  lemma IdlePhase(a: Authorization, s: Sys)
    requires Inv(a, s) && Live(s) && s.w.act.Idle?
    ensures s.w.phase in {AwaitingEnvelope, InSession(New), InSession(ReadyReceived), InSession(ClaimSent),
                          InSession(ChunksSent), InSession(WriteClosed), InSession(Closed)}
    ensures s.w.phase == InSession(ClaimSent) ==> s.w.sink == []
  {
    hide FrameProgress, DaemonInv, DaemonReads, WrapperWrites, SinkInv, SecretStream, Frame, MetaFrame;
  }

  lemma WrapperActsOn(a: Authorization, chunks: seq<bytes>, s: Sys) returns (l: Label)
    requires Completable(a, chunks) && OnTrack(a, chunks, s)
    requires !s.w.act.Idle? && !s.w.act.Reading? && !WrapperWaits(s)
    ensures GoesOn(a, chunks, s, l)
  {
    hide Header, FrameProgress, DaemonInv, DaemonReads, SecretStream, Concat, Frame, MetaFrame, ChunkOk, Deliverable,
      Verified, ReadW;
    match s.w.act
    case Writing(calls, _) => l := Wrote(calls[0]);
    case Delivering(_) => l := Sink(true);
    case Closing => l := HalfClose(true, true);
    case AwaitingEof => l := Read([]);
  }

  lemma WrapperMovesOn(a: Authorization, chunks: seq<bytes>, s: Sys) returns (s': Sys)
    requires Completable(a, chunks) && OnTrack(a, chunks, s) && s.w.phase != InSession(Closed) && !WrapperWaits(s)
    ensures Next(a, s, s') && OnTrack(a, chunks, s') && WrapperNearer(a, chunks, s, s') && s'.d == s.d
  {
    hide Inv, Ends, WrapperStep, Verified, ReadsFaithfully, WrapperNearer;
    var l: Label;
    ReadsWithin(a, s);
    if s.w.act.Idle? {
      l := WrapperBeginsOn(a, chunks, s);
    } else if !s.w.act.Reading? {
      l := WrapperActsOn(a, chunks, s);
    } else if s.w.act.frame == SecretChunk {
      l := WrapperReadsSecretOn(a, chunks, s);
    } else {
      l := WrapperReadsMetadataOn(a, chunks, s);
    }
    s' := AfterWrapper(s, l, WrapperStep(a, s.w, l).value);
    assert WrapperMoves(a, s, l, s');
    NextKeepsInv(a, s, s');
    WrapperKeepsEnds(a, s, l, s');
  }

  // Never both waiting ----------------------------------------------------------

  /** Who waits for a frame that starts what is left of a stream has not been sent the whole frame. */
  lemma FrameMissing(t: FrameType, limit: nat, payload: bytes, rest: bytes, buffer: bytes)
    requires |payload| <= limit && |payload| < 0x1_0000_0000 && buffer <= Frame(t, payload) + rest
    requires FrameProgress(t, limit, buffer).More?
    ensures |buffer| < HEADER_BYTES + |payload| == |Frame(t, payload)|
  {
    assert (Frame(t, payload) + rest)[..|buffer|] == buffer;
    ProgressOfFrame(t, limit, payload, rest, |buffer|);
  }

  lemma ReadyMissing(a: Authorization, chunks: seq<bytes>, s: Sys)
    requires Completable(a, chunks) && OnTrack(a, chunks, s)
    requires s.d.act.Reading? && s.d.act.frame == Ready && s.gotUp == |s.up|
    ensures |s.up| < |ReadyPart(a)| && s.down == Hello(a)
  {
    hide Header, FrameProgress, WrapperReads, SinkInv, SecretStream, Secrets, Concat, Frame;
    assert s.up[..s.gotUp] == s.up;
    assert [] + s.d.act.buffer == s.d.act.buffer;
    FrameMissing(Ready, a.limits.maxMetadata, a.ready, AckPart(a), s.up);
  }

  lemma AckMissing(a: Authorization, chunks: seq<bytes>, s: Sys)
    requires Completable(a, chunks) && OnTrack(a, chunks, s)
    requires s.d.act.Reading? && s.d.act.frame == TerminalAck && s.gotUp == |s.up|
    ensures |s.up| < |ReadyPart(a) + AckPart(a)| && s.downClosed
  {
    hide Header, FrameProgress, WrapperReads, SinkInv, SecretStream, Secrets, Concat, Frame, DaemonStream;
    assert s.up[..s.gotUp] == s.up;
    var buffer := s.d.act.buffer;
    Behind(ReadyPart(a), AckPart(a), s.up, s.gotUp, buffer);
    assert AckPart(a) + [] == AckPart(a);
    FrameMissing(TerminalAck, a.limits.maxMetadata, a.ack, [], buffer);
  }

  /** While the daemon still waits for READY, the wrapper has octets or an answer of its own to go on with. */
  lemma ReadyIsOwed(a: Authorization, chunks: seq<bytes>, s: Sys)
    requires Completable(a, chunks) && OnTrack(a, chunks, s)
    requires s.d.act.Reading? && s.d.act.frame == Ready && s.gotUp == |s.up|
    ensures s.w.phase != InSession(Closed) && !WrapperWaits(s)
  {
    hide Header, FrameProgress, SecretStream, Secrets, Concat, Frame, MetaFrame, DaemonStream;
    ReadyMissing(a, chunks, s);
    if s.w.act.Reading? && s.w.act.frame == TicketEnvelope && s.gotDown == |s.down| {
      assert s.down[..s.gotDown] == s.down;
      MetaFrameFits(a, TicketEnvelope, a.envelope);
      assert Frame(TicketEnvelope, a.envelope) + [] == Frame(TicketEnvelope, a.envelope);
      NotWaiting(TicketEnvelope, a.limits.maxMetadata, a.envelope, [], s.w.act.buffer);
    }
  }

  lemma MetaFrameFits(a: Authorization, t: FrameType, payload: bytes)
    requires MetadataFits(a, payload)
    ensures MetaFrame(a, t, payload) == Frame(t, payload)
  {
  }

  /** Once the daemon has closed its side, a wrapper that has read everything is not waiting. */
  lemma MetadataSent(a: Authorization, chunks: seq<bytes>, s: Sys)
    requires Completable(a, chunks) && OnTrack(a, chunks, s) && s.downClosed && s.gotDown == |s.down|
    ensures !(s.w.act.Reading? && s.w.act.frame != SecretChunk)
  {
    hide Header, FrameProgress, SecretStream, Secrets, Concat, Frame, MetaFrame, DaemonStream, DaemonReads,
      WrapperWrites;
    var secrets := Secrets(s.d.chunks);
    assert s.down[..s.gotDown] == s.down;
    if s.w.act.Reading? && s.w.act.frame == TicketEnvelope {
      MetaFrameFits(a, TicketEnvelope, a.envelope);
      assert Hello(a) + ClaimPart(a) + secrets == Hello(a) + (ClaimPart(a) + secrets);
      NotWaiting(TicketEnvelope, a.limits.maxMetadata, a.envelope, ClaimPart(a) + secrets, s.w.act.buffer);
    } else if s.w.act.Reading? && s.w.act.frame == Claim {
      MetaFrameFits(a, Claim, a.claim);
      assert Hello(a) + ClaimPart(a) + secrets == Hello(a) + (ClaimPart(a) + secrets);
      Cancel(Hello(a), ClaimPart(a) + secrets, s.w.act.buffer);
      NotWaiting(Claim, a.limits.maxMetadata, a.claim, secrets, s.w.act.buffer);
    }
  }

  lemma Cancel(x: bytes, y: bytes, z: bytes)
    requires x + y == x + z
    ensures y == z
  {
    assert (x + y)[|x|..] == y && (x + z)[|x|..] == z;
  }

  lemma SecretsSent(a: Authorization, chunks: seq<bytes>, s: Sys)
    requires Completable(a, chunks) && OnTrack(a, chunks, s) && s.downClosed && s.gotDown == |s.down|
    ensures !(s.w.act.Reading? && s.w.act.frame == SecretChunk)
  {
    if s.w.act.Reading? && s.w.act.frame == SecretChunk {
      AllSecretsSent(a, chunks, s);
      hide *;
      var k := |s.w.sink|;
      SendableParts(chunks, k);
      var rest := StreamSplits(chunks, k);
      ChunkIsOk(a, chunks, k);
      SecretLimit(a, chunks);
      Cancel(SecretStream(chunks[..k]), SecretFrame(k + 1, chunks[k]) + rest, s.w.act.buffer);
      NotWaiting(SecretChunk, LimitW(a, SecretChunk), U16(k + 1) + chunks[k], rest, s.w.act.buffer);
    }
  }

  lemma AllSecretsSent(a: Authorization, chunks: seq<bytes>, s: Sys)
    requires Completable(a, chunks) && OnTrack(a, chunks, s) && s.downClosed && s.gotDown == |s.down|
    requires s.w.act.Reading? && s.w.act.frame == SecretChunk
    ensures Sendable(chunks) && |s.w.sink| < |chunks| && s.w.sink == chunks[..|s.w.sink|]
    ensures SecretStream(chunks) == SecretStream(s.w.sink) + s.w.act.buffer
    ensures FrameProgress(SecretChunk, LimitW(a, SecretChunk), s.w.act.buffer).More?
  {
    hide Header, FrameProgress, SecretStream, Concat, Frame, MetaFrame, DaemonStream, DaemonReads, WrapperWrites,
      ChunkOk, AllTaken, Sum, Lengths, LimitW;
    var begun := Hello(a) + ClaimPart(a);
    assert s.down[..s.gotDown] == s.down;
    var part, buffer := SecretStream(s.w.sink), s.w.act.buffer;
    assert begun + part + buffer == begun + (part + buffer);
    Cancel(begun, SecretStream(chunks), part + buffer);
  }

  lemma EndIsThere(a: Authorization, chunks: seq<bytes>, s: Sys)
    requires Completable(a, chunks) && OnTrack(a, chunks, s) && s.downClosed
    ensures !WrapperWaits(s)
  {
    if s.w.act.Reading? {
      if s.gotDown == |s.down| {
        MetadataSent(a, chunks, s);
        SecretsSent(a, chunks, s);
      }
    } else if s.w.act.AwaitingEof? {
      hide Header, FrameProgress, SecretStream, Concat, Frame, MetaFrame, DaemonStream, DaemonReads, WrapperWrites;
      assert s.w.sink == chunks;
      assert s.down[..s.gotDown] == s.down;
    }
  }

  lemma AckIsThere(a: Authorization, chunks: seq<bytes>, s: Sys)
    requires Completable(a, chunks) && OnTrack(a, chunks, s)
    requires s.d.act.AwaitingEof? || s.d.state == Closed
    ensures s.downClosed && s.gotUp == |s.up|
  {
    hide Header, FrameProgress, SecretStream, Concat, Frame, MetaFrame, DaemonStream, WrapperReads, SinkInv;
  }

  /** At most one party waits at a time, so before the end there is always a next step. */
  lemma NotBothWaiting(a: Authorization, chunks: seq<bytes>, s: Sys)
    requires Completable(a, chunks) && OnTrack(a, chunks, s)
    requires s.d.state == Closed || DaemonWaits(s)
    requires s.w.phase == InSession(Closed) || WrapperWaits(s)
    ensures BothClosed(s)
  {
    hide Inv, Completable;
    if s.d.act.Reading? && s.d.act.frame == Ready {
      ReadyIsOwed(a, chunks, s);
    } else {
      if s.d.act.Reading? {
        NoOtherFrame(a, s);
        AckMissing(a, chunks, s);
        ClosedHasAnswered(a, s);
      } else {
        AckIsThere(a, chunks, s);
      }
      EndIsThere(a, chunks, s);
    }
  }

  lemma NoOtherFrame(a: Authorization, s: Sys)
    requires Inv(a, s) && s.d.act.Reading?
    ensures s.d.act.frame == Ready || s.d.act.frame == TerminalAck
  {
    hide FrameProgress, DaemonReads, WrapperReads, WrapperWrites, SinkInv, DaemonStream, SecretStream, MetaFrame;
  }

  lemma ClosedHasAnswered(a: Authorization, s: Sys)
    requires Inv(a, s) && Ends(a, s)
    ensures s.w.phase == InSession(Closed) ==> s.up == ReadyPart(a) + AckPart(a)
  {
    hide FrameProgress, DaemonReads, WrapperReads, DaemonInv, SinkInv, DaemonStream, SecretStream, MetaFrame;
  }

  // The theorem -------------------------------------------------------------------

  /** From a state on track the goal is reached by steps that only ever come nearer. */
  lemma {:induction false} CanFinish(a: Authorization, chunks: seq<bytes>, s: Sys) returns (path: seq<Sys>)
    requires Completable(a, chunks) && OnTrack(a, chunks, s)
    ensures |path| > 0 && IsPath(a, path, s, path[|path| - 1])
    ensures BothClosed(path[|path| - 1]) && OnTrack(a, chunks, path[|path| - 1])
    decreases DaemonStage(s.d), DaemonLeft(a, s.d), WrapperStage(s.w), WrapperLeft(a, chunks, s.w)
  {
    hide OnTrack, Completable, Next, DaemonStage, DaemonLeft, WrapperStage, WrapperLeft;
    if BothClosed(s) {
      path := [s];
    } else {
      var s': Sys;
      if s.d.state != Closed && !DaemonWaits(s) {
        s' := DaemonMovesOn(a, chunks, s);
      } else {
        if s.w.phase == InSession(Closed) || WrapperWaits(s) {
          NotBothWaiting(a, chunks, s);
        }
        s' := WrapperMovesOn(a, chunks, s);
      }
      var rest := CanFinish(a, chunks, s');
      path := [s] + rest;
      forall i | 0 <= i < |path| - 1 ensures Next(a, path[i], path[i + 1]) {
        if i > 0 {
          assert Next(a, rest[i - 1], rest[i - 1 + 1]);
        }
      }
    }
  }

  /**
   No run gets stuck: whatever has been sent, read and cut into blocks so far, as long as neither
   party has failed the run can be continued to one that closes both sessions, with the sink holding
   exactly the daemon's chunks and both channels read to their ends.
   */
  lemma NeverStuck(a: Authorization, chunks: seq<bytes>, run: seq<Sys>, k: nat) returns (longer: seq<Sys>)
    requires Completable(a, chunks) && IsRun(a, run) && k < |run| && Live(run[k])
    ensures IsRun(a, longer) && run[..k + 1] <= longer
    ensures var s := longer[|longer| - 1];
            && BothClosed(s) && s.d.chunks.Some? && s.w.sink == s.d.chunks.value
            && s.gotDown == |s.down| && s.gotUp == |s.up|
            && s.d.chunks.value == (if run[k].d.chunks.Some? then run[k].d.chunks.value else chunks)
  {
    hide Next, Inv, Verified;
    RunKeepsEnds(a, run, k);
    var given := if run[k].d.chunks.Some? then run[k].d.chunks.value else chunks;
    GivenShape(a, run[k]);
    var path := CanFinish(a, given, run[k]);
    longer := run[..k] + path;
    forall i | 0 <= i < |longer| - 1 ensures Next(a, longer[i], longer[i + 1]) {
      if i < k {
        assert longer[i] == run[i] && longer[i + 1] == run[i + 1];
      } else {
        assert Next(a, path[i - k], path[i - k + 1]);
      }
    }
    assert longer[0] == Start && run[..k + 1] <= longer;
    DeliverySafety(a, longer, |longer| - 1);
    BothClosedHasChunks(a, given, longer[|longer| - 1]);
  }

  lemma GivenShape(a: Authorization, s: Sys)
    requires Inv(a, s)
    ensures s.d.chunks.Some? ==> ShapeOk(a, s.d.chunks.value)
  {
    hide FrameProgress, DaemonReads, WrapperReads, WrapperWrites, SinkInv, DaemonStream, SecretStream, MetaFrame;
  }

  lemma BothClosedHasChunks(a: Authorization, chunks: seq<bytes>, s: Sys)
    requires OnTrack(a, chunks, s) && s.d.state == Closed
    ensures s.d.chunks == Some(chunks)
  {
    hide FrameProgress, DaemonReads, WrapperReads, WrapperWrites, SinkInv, DaemonStream, SecretStream, MetaFrame;
  }

  /** In particular every deliverable tuple of chunks can be delivered from the start. */
  lemma HonestRunCompletes(a: Authorization, chunks: seq<bytes>) returns (run: seq<Sys>)
    requires Completable(a, chunks)
    ensures IsRun(a, run)
    ensures var s := run[|run| - 1];
            BothClosed(s) && s.w.sink == chunks && s.gotDown == |s.down| && s.gotUp == |s.up|
  {
    hide Next, Completable;
    run := NeverStuck(a, chunks, [Start], 0);
  }
}

/**
 One daemon session and one wrapper over two faithful FIFO byte channels, every interleaving of
 their single write, read and close calls. `down` and `up` hold every octet ever written to a
 channel; `gotDown` and `gotUp` say how far the far end has read.
 */
module TwoParty {
  import opened Bytes
  import opened Frames
  import opened AttachProgram
  import opened AttachStreams

  datatype Sys = Sys(
    d: Daemon, w: Wrapper,
    down: bytes, gotDown: nat, downClosed: bool,
    up: bytes, gotUp: nat, upClosed: bool)

  const Start := Sys(DaemonStart, WrapperStart, [], 0, false, [], 0, false)

  /** A block read from a channel is what comes next in it; [] only at its closed end. */
  predicate Delivers(sent: bytes, got: nat, closed: bool, block: bytes) {
    && got <= |sent|
    && (block == [] ==> closed && got == |sent|)
    && got + |block| <= |sent| && block == sent[got..got + |block|]
  }

  predicate ReadsFaithfully(sent: bytes, got: nat, closed: bool, l: Label) {
    && (l.Read? ==> Delivers(sent, got, closed, l.block))
    && (l.ReadBroke? ==> got + |l.lost| <= |sent|)
  }

  ghost predicate DaemonMoves(a: Authorization, s: Sys, l: Label, s': Sys) {
    && DaemonStep(a, s.d, l).Some?
    && ReadsFaithfully(s.up, s.gotUp, s.upClosed, l)
    && s' == s.(d := DaemonStep(a, s.d, l).value, down := s.down + BytesOut(l),
                gotUp := s.gotUp + |BytesIn(l)|, downClosed := s.downClosed || Closes(l))
  }

  ghost predicate WrapperMoves(a: Authorization, s: Sys, l: Label, s': Sys) {
    && WrapperStep(a, s.w, l).Some?
    && ReadsFaithfully(s.down, s.gotDown, s.downClosed, l)
    && s' == s.(w := WrapperStep(a, s.w, l).value, up := s.up + BytesOut(l),
                gotDown := s.gotDown + |BytesIn(l)|, upClosed := s.upClosed || Closes(l))
  }

  ghost predicate Next(a: Authorization, s: Sys, s': Sys) {
    exists l: Label :: DaemonMoves(a, s, l, s') || WrapperMoves(a, s, l, s')
  }

  ghost predicate IsRun(a: Authorization, run: seq<Sys>) {
    && |run| > 0 && run[0] == Start
    && forall i :: 0 <= i < |run| - 1 ==> Next(a, run[i], run[i + 1])
  }

  /** What the daemon has read, while it is live. */
  ghost predicate DaemonReads(a: Authorization, s: Sys) {
    var d, got := s.d, s.gotUp;
    && got <= |s.up|
    && match d.act
       case Reading(t, buffer) =>
         && FrameProgress(t, a.limits.maxMetadata, buffer).More?
         && s.up[..got] == (if t == Ready then [] else ReadyPart(a)) + buffer
       case _ =>
         match d.state
         case New => got == 0
         case TicketSent => got == 0
         case TerminalAckReceived => s.up[..got] == ReadyPart(a) + AckPart(a) && MetadataFits(a, a.ack)
         case Closed => s.up[..got] == ReadyPart(a) + AckPart(a) && MetadataFits(a, a.ack)
                        && s.upClosed && got == |s.up|
         case Ambiguous => true
         case Rejected => true
         case _ => s.up[..got] == ReadyPart(a)
  }

  ghost predicate WrapperWrites(a: Authorization, s: Sys) {
    var w := s.w;
    && s.up <= ReadyPart(a) + AckPart(a)
    && (|s.up| > |ReadyPart(a)| ==> w.eofSeen)
    && (s.upClosed ==> s.up == ReadyPart(a) + AckPart(a) && w.eofSeen)
    && match w.act
       case Writing(calls, next) =>
         && calls != []
         && ((w.phase == InSession(New) && next == ReadyReceived && s.up + Concat(calls) == ReadyPart(a))
             || (w.phase == InSession(WriteClosed) && next == Closed
                 && s.up + Concat(calls) == ReadyPart(a) + AckPart(a)))
       case Closing => w.phase == InSession(WriteClosed) && s.up == ReadyPart(a) + AckPart(a)
       case _ =>
         match w.phase
         case AwaitingEnvelope => s.up == []
         case EnvelopeRefused => s.up == []
         case InSession(New) => s.up == []
         case InSession(Ambiguous) => true
         case InSession(Closed) => s.up == ReadyPart(a) + AckPart(a)
         case InSession(_) => s.up == ReadyPart(a)
  }

  /** The wrapper's sink holds the daemon's chunks in field order, complete once eof was seen. */
  ghost predicate SinkInv(a: Authorization, s: Sys) {
    var d, w := s.d, s.w;
    && Sendable(w.sink) && |w.sink| <= |a.counts|
    && (w.sink != [] ==> d.chunks.Some? && w.sink <= d.chunks.value)
    && (w.eofSeen ==> s.downClosed && |w.sink| == |a.counts| && s.gotDown == |s.down|)
    && (w.act.Delivering? ==>
        d.chunks.Some? && |w.sink| < |a.counts| && w.sink + [w.act.chunk] <= d.chunks.value)
    && (w.phase == InSession(WriteClosed) || w.phase == InSession(Closed) ==> w.eofSeen)
    && (w.phase == InSession(ChunksSent) ==> |w.sink| == |a.counts|)
  }

  /** What the wrapper has read, while it is live. */
  ghost predicate WrapperReads(a: Authorization, s: Sys) {
    var w, got := s.w, s.gotDown;
    && got <= |s.down|
    && match w.act
       case Reading(t, buffer) =>
         && FrameProgress(t, LimitW(a, t), buffer).More?
         && (match t
             case TicketEnvelope => w.phase == AwaitingEnvelope && w.sink == [] && s.down[..got] == buffer
             case Claim =>
               w.phase == InSession(ReadyReceived) && w.sink == [] && s.down[..got] == Hello(a) + buffer
             case SecretChunk =>
               w.phase == InSession(ClaimSent) && Sendable(w.sink) && |w.sink| < |a.counts|
               && s.down[..got] == Hello(a) + ClaimPart(a) + SecretStream(w.sink) + buffer
             case _ => false)
       case Delivering(chunk) =>
         && w.phase == InSession(ClaimSent) && Sendable(w.sink + [chunk])
         && s.down[..got] == Hello(a) + ClaimPart(a) + SecretStream(w.sink + [chunk])
       case AwaitingEof => w.phase == InSession(ChunksSent) && Sendable(w.sink)
         && s.down[..got] == Hello(a) + ClaimPart(a) + SecretStream(w.sink)
       case Claiming => false
       case _ =>
         match w.phase
         case AwaitingEnvelope => got == 0 && w.sink == []
         case EnvelopeRefused => w.sink == []
         case InSession(New) => s.down[..got] == Hello(a) && w.sink == []
         case InSession(ReadyReceived) => s.down[..got] == Hello(a) && w.sink == []
         case InSession(ClaimSent) => s.down[..got] == Hello(a) + ClaimPart(a) && w.sink == []
         case InSession(ChunksSent) => Sendable(w.sink)
           && s.down[..got] == Hello(a) + ClaimPart(a) + SecretStream(w.sink)
         case InSession(WriteClosed) => true
         case InSession(Closed) => true
         case InSession(Ambiguous) => true
         case InSession(_) => false
  }

  ghost predicate Inv(a: Authorization, s: Sys) {
    && DaemonInv(a, s.d, s.down, s.downClosed) && DaemonReads(a, s)
    && WrapperWrites(a, s) && SinkInv(a, s) && WrapperReads(a, s)
  }

  lemma DaemonReadsBlock(a: Authorization, s: Sys, l: Label, s': Sys)
    requires Verified(a) && DaemonInv(a, s.d, s.down, s.downClosed) && DaemonReads(a, s) && DaemonMoves(a, s, l, s')
    requires s.d.act.Reading? && l.Read?
    ensures DaemonReads(a, s')
  {
    hide Header, ParseHeader, SecretFrame, SecretStream, DaemonStream;
    var t, buffer, limit := s.d.act.frame, s.d.act.buffer + l.block, a.limits.maxMetadata;
    assert s'.up[..s'.gotUp] == s.up[..s.gotUp] + l.block;
    assert s'.up[..s'.gotUp] == (if t == Ready then [] else ReadyPart(a)) + buffer;
    if FrameProgress(t, limit, buffer).Done? {
      DoneIsFrame(t, limit, buffer);
    }
  }

  lemma DaemonKeepsReads(a: Authorization, s: Sys, l: Label, s': Sys)
    requires Verified(a) && DaemonInv(a, s.d, s.down, s.downClosed) && DaemonReads(a, s) && DaemonMoves(a, s, l, s')
    ensures DaemonReads(a, s')
  {
    hide Header, ParseHeader, Frame, SecretFrame, SecretStream, SecretCalls, MetadataCalls, DaemonStream;
    if s.d.act.Reading? && l.Read? {
      DaemonReadsBlock(a, s, l, s');
    }
  }

  lemma DaemonKeepsWrapperSide(a: Authorization, s: Sys, l: Label, s': Sys)
    requires Verified(a) && Inv(a, s) && DaemonMoves(a, s, l, s') && DaemonInv(a, s'.d, s'.down, s'.downClosed)
    ensures WrapperWrites(a, s') && SinkInv(a, s') && WrapperReads(a, s')
  {
    hide Header, ParseHeader, Frame, SecretFrame, SecretStream, MetaFrame, FrameProgress, DaemonReads, DaemonStep;
    assert s'.down[..s.gotDown] == s.down[..s.gotDown];
    DaemonKeepsChunks(a, s, l, s');
    hide DaemonInv;
  }

  lemma DaemonKeepsChunks(a: Authorization, s: Sys, l: Label, s': Sys)
    requires Verified(a) && Inv(a, s) && DaemonMoves(a, s, l, s')
    ensures s.d.chunks.Some? ==> s'.d.chunks == s.d.chunks
  {
    hide Header, ParseHeader, Frame, SecretFrame, SecretStream, MetaFrame, FrameProgress, DaemonReads, WrapperReads,
      WrapperWrites, SinkInv;
  }

  lemma WrapperKeepsDaemonSide(a: Authorization, s: Sys, l: Label, s': Sys)
    requires Inv(a, s) && WrapperMoves(a, s, l, s')
    ensures DaemonInv(a, s'.d, s'.down, s'.downClosed) && DaemonReads(a, s')
  {
    hide Header, ParseHeader, Frame, SecretFrame, SecretStream, MetaFrame, FrameProgress;
    assert s'.up[..s.gotUp] == s.up[..s.gotUp];
    assert s.upClosed ==> s'.up == s.up;
  }

  lemma WrapperBegins(a: Authorization, s: Sys, l: Label, s': Sys)
    requires Verified(a) && Inv(a, s) && WrapperMoves(a, s, l, s') && s.w.act.Idle?
    ensures WrapperWrites(a, s')
  {
    hide Header, ParseHeader, Frame, SecretFrame, SecretStream, DaemonInv, DaemonReads, WrapperReads;
    if l.BeginWrapper? {
      match l.wcall
      case WriteReady =>
        if MetadataFits(a, a.ready) { MetadataConcat(a, Ready, a.ready); }
      case WriteAckAndCloseOutput =>
        if MetadataFits(a, a.ack) { MetadataConcat(a, TerminalAck, a.ack); }
      case _ =>
    }
  }

  lemma WrapperSpeaks(a: Authorization, s: Sys, l: Label, s': Sys)
    requires Verified(a) && Inv(a, s) && WrapperMoves(a, s, l, s') && s.w.act.Writing?
    ensures WrapperWrites(a, s')
  {
    hide Header, ParseHeader, MetaFrame, SecretStream, DaemonInv, DaemonReads, WrapperReads, FrameProgress, ChunkOk,
      MetadataCalls;
    var whole := if s.w.act.next == Closed then ReadyPart(a) + AckPart(a) else ReadyPart(a);
    if l.Wrote? {
      PopCall(s.up, s.w.act.calls, whole);
    } else if l.WriteBroke? {
      PartOfCall(s.up, l.part, s.w.act.calls, whole);
    }
  }

  lemma WrapperIsQuiet(a: Authorization, s: Sys, l: Label, s': Sys)
    requires Verified(a) && Inv(a, s) && WrapperMoves(a, s, l, s') && !s.w.act.Idle? && !s.w.act.Writing?
    ensures WrapperWrites(a, s')
  {
    hide Header, ParseHeader, MetaFrame, SecretStream, FrameProgress, ChunkOk, Concat, DaemonInv, DaemonReads,
      MetadataCalls, Sum, Lengths, Secrets;
    assert s'.up == s.up;
  }

  lemma WrapperKeepsWrites(a: Authorization, s: Sys, l: Label, s': Sys)
    requires Verified(a) && Inv(a, s) && WrapperMoves(a, s, l, s')
    ensures WrapperWrites(a, s')
  {
    hide Inv, WrapperMoves, WrapperWrites;
    match s.w.act
    case Idle => WrapperBegins(a, s, l, s');
    case Writing(_, _) => WrapperSpeaks(a, s, l, s');
    case _ => WrapperIsQuiet(a, s, l, s');
  }

  /** The chunk of a freshly completed secret frame is the daemon's next one. */
  lemma ChunkIsNext(a: Authorization, s: Sys, buffer: bytes, got: nat, payload: bytes)
    requires Verified(a) && DaemonInv(a, s.d, s.down, s.downClosed) && Sendable(s.w.sink)
    requires |payload| < 0x1_0000_0000 && buffer == Frame(SecretChunk, payload)
    requires ChunkOk(a, s.w.sink, payload) && got <= |s.down|
    requires forall i :: 0 <= i < |s.w.sink| ==> |s.w.sink[i]| == a.counts[i]
    requires s.down[..got] == Hello(a) + ClaimPart(a) + SecretStream(s.w.sink) + buffer
    ensures var sink := s.w.sink + [payload[2..]];
            && Sendable(sink) && s.d.chunks.Some? && sink <= s.d.chunks.value
            && s.down[..got] == Hello(a) + ClaimPart(a) + SecretStream(sink)
  {
    hide Header, Frame, SecretFrame, SecretStream, MetaFrame;
    var sink := s.w.sink + [payload[2..]];
    FrameNonEmpty(SecretChunk, payload);
    SecretStreamSnoc(s.w.sink, payload, buffer);
    var prologue := Hello(a) + ClaimPart(a);
    var full := prologue + Secrets(s.d.chunks);
    assert s.down[..got] == prologue + SecretStream(sink);
    assert prologue + SecretStream(sink) <= full;
    SuffixPrefix(prologue, SecretStream(sink), Secrets(s.d.chunks));
    SecretPrefixDecodes(sink, s.d.chunks.value);
  }

  lemma FrameNonEmpty(t: FrameType, payload: bytes)
    requires |payload| < 0x1_0000_0000
    ensures |Frame(t, payload)| == HEADER_BYTES + |payload|
  {
  }

  lemma SuffixPrefix(p: bytes, x: bytes, y: bytes)
    requires p + x <= p + y
    ensures x <= y
  {
    assert (p + x)[|p|..] == x && (p + y)[|p|..] == y;
  }

  lemma WrapperReadsMetadata(a: Authorization, s: Sys, l: Label, s': Sys)
    requires Verified(a) && Inv(a, s) && WrapperMoves(a, s, l, s')
    requires s.w.act.Reading? && s.w.act.frame != SecretChunk && l.Read?
    ensures SinkInv(a, s') && WrapperReads(a, s')
  {
    hide Header, ParseHeader, SecretFrame, SecretStream, DaemonReads, DaemonInv, WrapperWrites,
      SecretCalls, ChunkOk, Secrets, Sum, Lengths, Deliverable;
    var t, buffer := s.w.act.frame, s.w.act.buffer + l.block;
    assert s'.down[..s'.gotDown] == s.down[..s.gotDown] + l.block;
    if t == TicketEnvelope {
      assert s'.down[..s'.gotDown] == buffer;
    } else {
      assert s'.down[..s'.gotDown] == Hello(a) + buffer;
    }
    if FrameProgress(t, a.limits.maxMetadata, buffer).Done? {
      DoneIsFrame(t, a.limits.maxMetadata, buffer);
    }
  }

  lemma WrapperReadsSecret(a: Authorization, s: Sys, l: Label, s': Sys)
    requires Verified(a) && Inv(a, s) && WrapperMoves(a, s, l, s')
    requires s.w.act.Reading? && s.w.act.frame == SecretChunk && l.Read?
    ensures SinkInv(a, s') && WrapperReads(a, s')
  {
    hide Header, ParseHeader, Frame, MetaFrame, SecretFrame, SecretStream, DaemonReads, WrapperWrites,
      SecretCalls;
    var buffer, limit := s.w.act.buffer + l.block, LimitW(a, SecretChunk);
    assert s'.down[..s'.gotDown] == s.down[..s.gotDown] + l.block;
    var prologue := Hello(a) + ClaimPart(a) + SecretStream(s.w.sink);
    assert s'.down[..s'.gotDown] == prologue + buffer;
    if FrameProgress(SecretChunk, limit, buffer).Done? {
      DoneIsFrame(SecretChunk, limit, buffer);
      var p := FrameProgress(SecretChunk, limit, buffer).payload;
      if ChunkOk(a, s.w.sink, p) {
        ChunkIsNext(a, s, buffer, s'.gotDown, p);
      }
    }
  }

  lemma NoSecretsYet()
    ensures SecretStream([]) == [] && forall x: bytes :: x + [] == x
  {
  }

  lemma NothingReadYet(t: FrameType, limit: nat)
    ensures FrameProgress(t, limit, []).More?
  {
  }

  lemma WrapperKeepsSink(a: Authorization, s: Sys, l: Label, s': Sys)
    requires Verified(a) && Inv(a, s) && WrapperMoves(a, s, l, s')
    requires !(s.w.act.Reading? && l.Read?)
    ensures SinkInv(a, s')
  {
    hide SecretStream, DaemonReads, DaemonInv, ChunkOk, MetaFrame, MetadataCalls, Concat, Secrets,
      FrameProgress, Sum, Lengths;
  }

  lemma WrapperKeepsReads(a: Authorization, s: Sys, l: Label, s': Sys)
    requires Verified(a) && Inv(a, s) && WrapperMoves(a, s, l, s')
    requires !(s.w.act.Reading? && l.Read?)
    ensures WrapperReads(a, s')
  {
    hide ParseHeader, SecretStream, DaemonReads, DaemonInv, ChunkOk, MetaFrame, MetadataCalls, Concat,
      Secrets, Sum, Lengths, FrameProgress;
    NoSecretsYet();
    NothingReadYet(SecretChunk, LimitW(a, SecretChunk));
    NothingReadYet(TicketEnvelope, LimitW(a, TicketEnvelope));
    NothingReadYet(Claim, LimitW(a, Claim));
    if BytesIn(l) == [] {
      assert s'.down[..s'.gotDown] == s.down[..s.gotDown];
    }
  }

  lemma NextKeepsInv(a: Authorization, s: Sys, s': Sys)
    requires Verified(a) && Inv(a, s) && Next(a, s, s')
    ensures Inv(a, s')
  {
    hide DaemonStep, WrapperStep, DaemonInv, DaemonReads, WrapperWrites, SinkInv, WrapperReads;
    var l: Label :| DaemonMoves(a, s, l, s') || WrapperMoves(a, s, l, s');
    if DaemonMoves(a, s, l, s') {
      DaemonKeepsInv(a, s.d, l, s'.d, s.down, s.downClosed);
      DaemonKeepsReads(a, s, l, s');
      DaemonKeepsWrapperSide(a, s, l, s');
    } else {
      WrapperKeepsDaemonSide(a, s, l, s');
      WrapperKeepsWrites(a, s, l, s');
      if s.w.act.Reading? && l.Read? {
        if s.w.act.frame == SecretChunk {
          WrapperReadsSecret(a, s, l, s');
        } else {
          WrapperReadsMetadata(a, s, l, s');
        }
      } else {
        WrapperKeepsSink(a, s, l, s');
        WrapperKeepsReads(a, s, l, s');
      }
    }
  }

  lemma {:induction false} RunKeepsInv(a: Authorization, run: seq<Sys>, k: nat)
    requires Verified(a) && IsRun(a, run) && k < |run|
    ensures Inv(a, run[k])
  {
    hide DaemonStep, WrapperStep, Next;
    if k > 0 {
      RunKeepsInv(a, run, k - 1);
      assert Next(a, run[k - 1], run[k - 1 + 1]);
      NextKeepsInv(a, run[k - 1], run[k]);
    }
  }

  lemma AcknowledgedMeansDelivered(a: Authorization, s: Sys)
    requires Verified(a) && Inv(a, s)
    requires s.d.state == TerminalAckReceived || s.d.state == Closed
    ensures s.d.chunks.Some? && s.w.sink == s.d.chunks.value && s.w.eofSeen
  {
    hide MetaFrame, SecretStream, FrameProgress, WrapperReads;
    AckNonEmpty(a);
    assert |s.up[..s.gotUp]| <= |s.up|;
  }

  lemma AckNonEmpty(a: Authorization)
    ensures MetadataFits(a, a.ack) ==> |AckPart(a)| >= HEADER_BYTES
  {
  }

  /**
   Delivery safety, for every interleaving and every collaborator failure: the sink has received a
   prefix of the daemon's chunks in field order; an acknowledged daemon means the sink has received
   exactly all of them and the wrapper read its input to the end; a closed daemon means the wrapper closed
   its output and nothing is left in it.
   */
  lemma DeliverySafety(a: Authorization, run: seq<Sys>, k: nat)
    requires Verified(a) && IsRun(a, run) && k < |run|
    ensures var s := run[k];
            && (s.w.sink != [] ==> s.d.chunks.Some? && s.w.sink <= s.d.chunks.value)
            && (s.d.state == TerminalAckReceived || s.d.state == Closed ==>
                  s.d.chunks.Some? && s.w.sink == s.d.chunks.value
                  && s.w.eofSeen && s.downClosed && s.gotDown == |s.down|)
            && (s.d.state == Closed ==> s.upClosed && s.gotUp == |s.up|)
  {
    hide MetaFrame, SecretStream, FrameProgress, Next;
    RunKeepsInv(a, run, k);
    var s := run[k];
    if s.d.state == TerminalAckReceived || s.d.state == Closed {
      AcknowledgedMeansDelivered(a, s);
    }
  }
}

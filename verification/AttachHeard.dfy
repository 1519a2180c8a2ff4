/**
 What a session has heard, with nothing assumed about the other side: the octets it took in are the
 frames its state stands for, whoever sent them.
 */
module AttachHeard {
  import opened Bytes
  import opened Frames
  import opened AttachProgram
  import opened AttachStreams
  import opened AttachWire
  import opened AttachRuns
  import Base64Url

  /** All octets taken in, in order, those of broken reads included. */
  ghost function Heard(ls: seq<Label>): bytes {
    if ls == [] then [] else Heard(ls[..|ls| - 1]) + BytesIn(ls[|ls| - 1])
  }

  /** All octets put out, in order. */
  ghost function Said(ls: seq<Label>): bytes {
    if ls == [] then [] else Said(ls[..|ls| - 1]) + BytesOut(ls[|ls| - 1])
  }

  lemma {:induction false} HeardAppend(x: seq<Label>, y: seq<Label>)
    ensures Heard(x + y) == Heard(x) + Heard(y)
    decreases |y|
  {
    hide BytesIn, BytesOut;
    if y == [] {
      assert x + y == x;
    } else {
      var n := |y| - 1;
      HeardAppend(x, y[..n]);
      assert (x + y)[..|x| + n] == x + y[..n];
      AppendAssociates(Heard(x), Heard(y[..n]), BytesIn(y[n]));
    }
  }

  lemma {:induction false} SaidAppend(x: seq<Label>, y: seq<Label>)
    ensures Said(x + y) == Said(x) + Said(y)
    decreases |y|
  {
    hide BytesIn, BytesOut;
    if y == [] {
      assert x + y == x;
    } else {
      var n := |y| - 1;
      SaidAppend(x, y[..n]);
      assert (x + y)[..|x| + n] == x + y[..n];
      AppendAssociates(Said(x), Said(y[..n]), BytesOut(y[n]));
    }
  }

  lemma {:induction false} JoinedIsHeard(steps: seq<Label>)
    requires AllReads(steps)
    ensures Heard(steps) == Joined(steps)
  {
    if steps != [] {
      JoinedIsHeard(steps[..|steps| - 1]);
    }
  }

  /** A frame read that succeeds has taken in exactly the frame of its payload. */
  lemma FrameReadHears(steps: seq<Label>, t: FrameType, limit: nat, payload: bytes)
    requires FrameRead(steps, t, limit, Some(payload)) && limit < 0x1_0000_0000
    ensures |payload| <= limit && Heard(steps) == Frame(t, payload)
  {
    hide ParseHeader, Joined, Heard, Header;
    var k :| 0 <= k <= |steps| && FrameReadAt(steps[..k], steps[k..], t, limit, Some(payload));
    var head, tail := steps[..k], steps[k..];
    var n := ParseHeader(Joined(head), t, limit).value;
    ParseHeaderExact(Joined(head), t, limit, n);
    JoinedIsHeard(head);
    JoinedIsHeard(tail);
    assert steps == head + tail;
    HeardAppend(head, tail);
  }

  /** A frame write that succeeds has put out exactly its calls. */
  lemma {:induction false} CallsSaid(calls: seq<bytes>)
    ensures Said(AllWrote(calls)) == Concat(calls)
    decreases |calls|
  {
    if calls != [] {
      var n := |calls| - 1;
      CallsSaid(calls[..n]);
      assert AllWrote(calls)[..n] == AllWrote(calls[..n]);
      ConcatAppend(calls[..n], [calls[n]]);
      assert calls == calls[..n] + [calls[n]];
      assert Concat([calls[n]]) == calls[n] + Concat([]);
    }
  }

  // The wrapper --------------------------------------------------------------

  /** One chunk of the declared count, and where the component wants it the base64url text of 32 octets. */
  ghost predicate ChunkFor(a: Authorization, k: nat, chunk: bytes) {
    && k < |a.counts| && |chunk| == a.counts[k]
    && (a.valkey ==> exists raw: bytes :: |raw| == 32 && Base64Url.Encode(raw) == chunk)
  }

  ghost predicate ChunksFor(a: Authorization, chunks: seq<bytes>) {
    |chunks| <= |a.counts| && forall i :: 0 <= i < |chunks| ==> ChunkFor(a, i, chunks[i])
  }

  /** The claim frame and the secret frames of these chunks. */
  ghost function ClaimAnd(a: Authorization, chunks: seq<bytes>): bytes
    requires Sendable(chunks)
  {
    ClaimPart(a) + SecretStream(chunks)
  }

  /** The envelope frame, for a wrapper that was heard from its start on. */
  ghost function Base(a: Authorization, whole: bool): bytes { if whole then Hello(a) else [] }

  /** What a wrapper in this state has taken in, from its very start or since it has had a session. */
  ghost predicate WrapperHeard(a: Authorization, w: Wrapper, whole: bool, heard: bytes) {
    match w.phase
    case AwaitingEnvelope =>
      && w.sink == [] && whole
      && (w.act.Idle? || (w.act.Reading? && w.act.frame == TicketEnvelope))
      && heard == (if w.act.Reading? then w.act.buffer else [])
    case EnvelopeRefused => w.sink == [] && w.act.Idle?
    case InSession(s) =>
      && (whole ==> MetadataFits(a, a.envelope))
      && ChunksFor(a, w.sink) && Sendable(w.sink)
      && SessionHeard(a, s, w.act, w.sink, Base(a, whole), heard)
  }

  ghost predicate SessionHeard(
      a: Authorization, s: SessionState, act: Activity, sink: seq<bytes>, base: bytes, heard: bytes)
    requires Sendable(sink)
  {
    match s
    case New => sink == [] && heard == base && (act.Idle? || (act.Writing? && act.next == ReadyReceived))
    case ReadyReceived =>
      && sink == [] && (act.Idle? || (act.Reading? && act.frame == Claim))
      && heard == base + (if act.Reading? then act.buffer else [])
    case ClaimSent =>
      && MetadataFits(a, a.claim)
      && (match act
          case Idle => sink == [] && heard == base + ClaimPart(a)
          case Reading(t, buffer) => t == SecretChunk && heard == base + ClaimAnd(a, sink) + buffer
          case Delivering(chunk) =>
            && ChunkFor(a, |sink|, chunk) && |chunk| <= 65536 && |sink| < 4
            && heard == base + ClaimAnd(a, sink + [chunk])
          case _ => false)
    case ChunksSent =>
      && (act.Idle? || act.AwaitingEof?) && MetadataFits(a, a.claim)
      && |sink| == |a.counts| && heard == base + ClaimAnd(a, sink)
    case WriteClosed =>
      && (act.Idle? || act.Closing? || (act.Writing? && act.next == Closed)) && MetadataFits(a, a.claim)
      && |sink| == |a.counts| && heard == base + ClaimAnd(a, sink)
    case Closed =>
      act.Idle? && MetadataFits(a, a.claim) && |sink| == |a.counts| && heard == base + ClaimAnd(a, sink)
    case Ambiguous =>
      act.Idle? && (sink != [] ==> MetadataFits(a, a.claim) && base + ClaimAnd(a, sink) <= heard)
    case _ => false
  }

  lemma MetadataHeard(a: Authorization, t: FrameType, buffer: bytes, base: bytes, heard: bytes)
    requires Verified(a) && t != SecretChunk && FrameProgress(t, a.limits.maxMetadata, buffer).Done?
    requires heard == base + buffer
    ensures var p := FrameProgress(t, a.limits.maxMetadata, buffer).payload;
            MetadataFits(a, p) && heard == base + MetaFrame(a, t, p)
  {
    hide Frame, FrameProgress;
    DoneIsFrame(t, a.limits.maxMetadata, buffer);
  }

  lemma NoChunksAnd(a: Authorization)
    ensures ClaimAnd(a, []) == ClaimPart(a)
  {
    hide ClaimPart;
  }

  /** The frame that completes the next chunk. */
  lemma SecretHeard(a: Authorization, sink: seq<bytes>, buffer: bytes, base: bytes, heard: bytes)
    requires Verified(a) && ChunksFor(a, sink) && Sendable(sink)
    requires FrameProgress(SecretChunk, a.limits.maxChunk + 2, buffer).Done?
    requires ChunkOk(a, sink, FrameProgress(SecretChunk, a.limits.maxChunk + 2, buffer).payload)
    requires heard == base + ClaimAnd(a, sink) + buffer
    ensures var chunk := FrameProgress(SecretChunk, a.limits.maxChunk + 2, buffer).payload[2..];
            && ChunkFor(a, |sink|, chunk) && |chunk| <= 65536 && |sink| < 4
            && heard == base + ClaimAnd(a, sink + [chunk])
  {
    hide FrameProgress, SecretStream, ClaimPart, Frame, Sum, Base64Url.Accepts, Base64Url.Encode;
    DoneIsFrame(SecretChunk, a.limits.maxChunk + 2, buffer);
    var payload := FrameProgress(SecretChunk, a.limits.maxChunk + 2, buffer).payload;
    SecretStreamSnoc(sink, payload, buffer);
    Base64Url.AcceptsIffCanonicalEncoding(32, payload[2..]);
    Regroup(base, ClaimPart(a), SecretStream(sink), buffer);
  }

  lemma Regroup(w: bytes, x: bytes, y: bytes, z: bytes)
    ensures w + (x + y) + z == w + (x + (y + z))
  {
  }

  lemma WrapperFails(a: Authorization, w: Wrapper, l: Label, w': Wrapper, whole: bool, heard: bytes)
    requires Verified(a) && WrapperHeard(a, w, whole, heard) && WrapperStep(a, w, l) == Some(w') && w.act.Reading?
    requires w' == FailW(w)
    ensures WrapperHeard(a, w', whole, heard + BytesIn(l))
  {
    hide FrameProgress, SecretStream, MetaFrame, ChunkFor, ChunkOk, Deliverable, Sum, WrapperStep;
    NoChunksAnd(a);
  }

  lemma WrapperReadsMetadata(a: Authorization, w: Wrapper, l: Label, w': Wrapper, whole: bool, heard: bytes)
    requires Verified(a) && WrapperHeard(a, w, whole, heard) && WrapperStep(a, w, l) == Some(w') && w.act.Reading?
    requires w.act.frame != SecretChunk && w' != FailW(w)
    ensures WrapperHeard(a, w', whole, heard + BytesIn(l))
  {
    hide FrameProgress, SecretStream, MetaFrame, ChunkFor, ChunkOk, Deliverable, Sum;
    NoChunksAnd(a);
    var t, buffer := w.act.frame, w.act.buffer;
    var longer, before := buffer + l.block, if t == Claim then Base(a, whole) else [];
    assert heard + l.block == before + longer;
    if FrameProgress(t, LimitW(a, t), longer).Done? {
      MetadataHeard(a, t, longer, before, heard + l.block);
    }
  }

  lemma WrapperReadsSecret(a: Authorization, w: Wrapper, l: Label, w': Wrapper, whole: bool, heard: bytes)
    requires Verified(a) && WrapperHeard(a, w, whole, heard) && WrapperStep(a, w, l) == Some(w') && w.act.Reading?
    requires w.act.frame == SecretChunk && w' != FailW(w)
    ensures WrapperHeard(a, w', whole, heard + BytesIn(l))
  {
    hide FrameProgress, SecretStream, MetaFrame, ChunkFor, ChunkOk, Deliverable, Sum, ClaimAnd;
    var longer, before := w.act.buffer + l.block, Base(a, whole) + ClaimAnd(a, w.sink);
    assert heard + l.block == before + longer;
    if FrameProgress(SecretChunk, a.limits.maxChunk + 2, longer).Done? {
      SecretHeard(a, w.sink, longer, Base(a, whole), heard + l.block);
    }
  }

  lemma OneMoreFor(a: Authorization, sink: seq<bytes>, chunk: bytes)
    requires ChunksFor(a, sink) && ChunkFor(a, |sink|, chunk)
    ensures ChunksFor(a, sink + [chunk])
  {
  }

  lemma WrapperDelivers(a: Authorization, w: Wrapper, l: Label, w': Wrapper, whole: bool, heard: bytes)
    requires Verified(a) && WrapperHeard(a, w, whole, heard) && WrapperStep(a, w, l) == Some(w') && w.act.Delivering?
    ensures WrapperHeard(a, w', whole, heard + BytesIn(l))
  {
    hide FrameProgress, SecretStream, MetaFrame, ChunkFor, Sum, ClaimAnd, Base;
    assert heard + [] == heard;
    OneMoreFor(a, w.sink, w.act.chunk);
  }

  lemma WrapperSpeaks(a: Authorization, w: Wrapper, l: Label, w': Wrapper, whole: bool, heard: bytes)
    requires Verified(a) && WrapperHeard(a, w, whole, heard) && WrapperStep(a, w, l) == Some(w')
    requires !w.act.Reading? && !w.act.Delivering?
    ensures WrapperHeard(a, w', whole, heard + BytesIn(l))
  {
    NoChunksAnd(a);
    hide FrameProgress, SecretStream, MetaFrame, ChunkFor, Sum, MetadataCalls, ClaimAnd, Base;
    assert heard + [] == heard;
    assert heard <= heard + BytesIn(l);
  }

  /** One label of the wrapper keeps what it has heard in step with its state. */
  lemma WrapperKeepsHeard(a: Authorization, w: Wrapper, l: Label, w': Wrapper, whole: bool, heard: bytes)
    requires Verified(a) && WrapperHeard(a, w, whole, heard) && WrapperStep(a, w, l) == Some(w')
    ensures WrapperHeard(a, w', whole, heard + BytesIn(l))
  {
    hide WrapperHeard, WrapperStep, BytesIn, FailW;
    if w.act.Delivering? {
      WrapperDelivers(a, w, l, w', whole, heard);
    } else if !w.act.Reading? {
      WrapperSpeaks(a, w, l, w', whole, heard);
    } else if w' == FailW(w) {
      WrapperFails(a, w, l, w', whole, heard);
    } else if w.act.frame == SecretChunk {
      WrapperReadsSecret(a, w, l, w', whole, heard);
    } else {
      WrapperReadsMetadata(a, w, l, w', whole, heard);
    }
  }

  lemma {:induction false} RunHeard(a: Authorization, w: Wrapper, whole: bool, ls: seq<Label>)
    requires Verified(a) && WrapperHeard(a, w, whole, []) && RunW(a, w, ls).Some?
    ensures WrapperHeard(a, RunW(a, w, ls).value, whole, Heard(ls))
    decreases |ls|
  {
    hide WrapperHeard, WrapperStep, BytesIn;
    if ls != [] {
      var n := |ls| - 1;
      RunHeard(a, w, whole, ls[..n]);
      WrapperKeepsHeard(a, RunW(a, w, ls[..n]).value, ls[n], RunW(a, w, ls).value, whole, Heard(ls[..n]));
    }
  }

  /** The claim has been accepted and nothing has failed since. */
  predicate PastClaim(p: WrapperPhase) {
    p in {InSession(ClaimSent), InSession(ChunksSent), InSession(WriteClosed), InSession(Closed)}
  }

  predicate PastChunks(p: WrapperPhase) {
    p in {InSession(ChunksSent), InSession(WriteClosed), InSession(Closed)}
  }

  lemma HeardInPhase(a: Authorization, w: Wrapper, heard: bytes)
    requires Verified(a) && WrapperHeard(a, w, true, heard)
    ensures ChunksFor(a, w.sink) && Sendable(w.sink)
    ensures PastClaim(w.phase) || w.sink != [] ==>
      && MetadataFits(a, a.envelope) && MetadataFits(a, a.claim)
      && Hello(a) + ClaimAnd(a, w.sink) <= heard
    ensures PastChunks(w.phase) ==> |w.sink| == |a.counts| && heard == Hello(a) + ClaimAnd(a, w.sink)
  {
    hide ChunkFor, SecretStream, Sum;
    hide Hello, ClaimPart;
    NoChunksAnd(a);
    if w.act.Delivering? {
      OneChunkMore(w.sink, w.act.chunk);
    }
  }

  /** Between two secret frames, as heard since the session began. */
  lemma HeardBetween(a: Authorization, w: Wrapper, heard: bytes)
    requires WrapperHeard(a, w, false, heard)
    requires w.phase == InSession(ChunksSent)
             || (w.phase == InSession(ClaimSent) && (w.act.Idle? || w.act == Activity.Reading(SecretChunk, [])))
    ensures ChunksFor(a, w.sink) && Sendable(w.sink) && heard == ClaimAnd(a, w.sink)
    ensures w.phase == InSession(ChunksSent) ==> |w.sink| == |a.counts|
  {
    hide ChunkFor, SecretStream, ClaimPart, Sum;
    NoChunksAnd(a);
    assert [] + ClaimAnd(a, w.sink) + [] == ClaimAnd(a, w.sink);
  }

  /**
   A wrapper, whatever is at the other end of its input: once past its claim it has taken in the one
   envelope frame and the one claim frame of its authorization first; each chunk it handed over has its
   field's count and grammar and came as the secret frame of its place right after them; and once past
   its chunks it has handed over one for each field and has taken in nothing else.
   */
  lemma WrapperHeardItsAuthorization(a: Authorization, ls: seq<Label>)
    requires Verified(a) && RunW(a, WrapperStart, ls).Some?
    ensures var w := RunW(a, WrapperStart, ls).value;
            && ChunksFor(a, w.sink) && Sendable(w.sink)
            && (PastClaim(w.phase) || w.sink != [] ==>
                  && |a.envelope| <= a.limits.maxMetadata && |a.claim| <= a.limits.maxMetadata
                  && Frame(TicketEnvelope, a.envelope) + (Frame(Claim, a.claim) + SecretStream(w.sink)) <= Heard(ls))
            && (PastChunks(w.phase) ==>
                  && |w.sink| == |a.counts|
                  && Frame(TicketEnvelope, a.envelope) + (Frame(Claim, a.claim) + SecretStream(w.sink)) == Heard(ls))
  {
    hide ChunkFor, SecretStream, RunW;
    RunHeard(a, WrapperStart, true, ls);
    var w := RunW(a, WrapperStart, ls).value;
    HeardInPhase(a, w, Heard(ls));
  }

  // The daemon ---------------------------------------------------------------

  /** What a daemon in this state has taken in. */
  ghost predicate DaemonHeard(a: Authorization, d: Daemon, heard: bytes) {
    var act := d.act;
    match d.state
    case New => heard == [] && (act.Idle? || (act.Writing? && act.next == TicketSent))
    case TicketSent =>
      && (act.Idle? || (act.Reading? && act.frame == Ready))
      && heard == if act.Reading? then act.buffer else []
    case ReadyReceived => act.Idle? && HeardReady(a, heard)
    case ClaimAttempted => (act.Claiming? || (act.Writing? && act.next == ClaimSent)) && HeardReady(a, heard)
    case Rejected => act.Idle? && HeardReady(a, heard)
    case ClaimSent => act.Idle? && HeardReady(a, heard)
    case ChunksSent =>
      && (act.Idle? || act.Closing? || (act.Writing? && act.next == ChunksSent))
      && HeardReady(a, heard)
    case WriteClosed =>
      && MetadataFits(a, a.ready) && (act.Idle? || (act.Reading? && act.frame == TerminalAck))
      && heard == ReadyPart(a) + if act.Reading? then act.buffer else []
    case TerminalAckReceived => (act.Idle? || act.AwaitingEof?) && HeardAck(a, heard)
    case Closed => act.Idle? && HeardAck(a, heard)
    case Ambiguous => act.Idle?
  }

  ghost predicate HeardReady(a: Authorization, heard: bytes) {
    MetadataFits(a, a.ready) && heard == ReadyPart(a)
  }

  ghost predicate HeardAck(a: Authorization, heard: bytes) {
    MetadataFits(a, a.ready) && MetadataFits(a, a.ack) && heard == ReadyPart(a) + AckPart(a)
  }

  lemma DaemonReadsReady(a: Authorization, d: Daemon, l: Label, d': Daemon, heard: bytes)
    requires Verified(a) && DaemonHeard(a, d, heard) && DaemonStep(a, d, l) == Some(d') && d.act.Reading?
    requires d'.state != Ambiguous && d.act.frame == Ready
    ensures DaemonHeard(a, d', heard + BytesIn(l))
  {
    hide FrameProgress, MetaFrame, Sum;
    var longer := d.act.buffer + l.block;
    assert heard + l.block == [] + longer;
    if FrameProgress(Ready, a.limits.maxMetadata, longer).Done? {
      MetadataHeard(a, Ready, longer, [], heard + l.block);
    }
  }

  lemma DaemonReadsAck(a: Authorization, d: Daemon, l: Label, d': Daemon, heard: bytes)
    requires Verified(a) && DaemonHeard(a, d, heard) && DaemonStep(a, d, l) == Some(d') && d.act.Reading?
    requires d'.state != Ambiguous && d.act.frame == TerminalAck
    ensures DaemonHeard(a, d', heard + BytesIn(l))
  {
    hide FrameProgress, MetaFrame, Sum;
    var longer := d.act.buffer + l.block;
    assert heard + l.block == ReadyPart(a) + longer;
    if FrameProgress(TerminalAck, a.limits.maxMetadata, longer).Done? {
      MetadataHeard(a, TerminalAck, longer, ReadyPart(a), heard + l.block);
    }
  }

  /** One label of the daemon keeps what it has heard in step with its state. */
  lemma DaemonKeepsHeard(a: Authorization, d: Daemon, l: Label, d': Daemon, heard: bytes)
    requires Verified(a) && DaemonHeard(a, d, heard) && DaemonStep(a, d, l) == Some(d')
    ensures DaemonHeard(a, d', heard + BytesIn(l))
  {
    hide FrameProgress, MetaFrame, MetadataCalls, SecretCalls, Deliverable, ShapeOk, Sum;
    assert heard + [] == heard;
    if d.act.Reading? && d'.state != Ambiguous {
      hide DaemonStep;
      if d.act.frame == Ready {
        DaemonReadsReady(a, d, l, d', heard);
      } else {
        DaemonReadsAck(a, d, l, d', heard);
      }
    }
  }

  lemma {:induction false} DaemonRunHeard(a: Authorization, ls: seq<Label>)
    requires Verified(a) && RunD(a, DaemonStart, ls).Some?
    ensures DaemonHeard(a, RunD(a, DaemonStart, ls).value, Heard(ls))
    decreases |ls|
  {
    hide DaemonStep, BytesIn;
    if ls != [] {
      hide DaemonHeard;
      var n := |ls| - 1;
      DaemonRunHeard(a, ls[..n]);
      DaemonKeepsHeard(a, RunD(a, DaemonStart, ls[..n]).value, ls[n], RunD(a, DaemonStart, ls).value, Heard(ls[..n]));
    }
  }

  /**
   A daemon, whatever is at the other end of its output: before it asks for the claim it has taken in
   the one ready frame of its authorization and nothing else; acknowledged, that and the one
   acknowledgement frame.
   */
  lemma DaemonHeardItsAuthorization(a: Authorization, ls: seq<Label>)
    requires Verified(a) && RunD(a, DaemonStart, ls).Some?
    ensures var s := RunD(a, DaemonStart, ls).value.state;
            && (s in {ReadyReceived, ClaimAttempted, ClaimSent, ChunksSent, Rejected} ==>
                  |a.ready| <= a.limits.maxMetadata && Heard(ls) == Frame(Ready, a.ready))
            && (s in {TerminalAckReceived, Closed} ==>
                  && |a.ready| <= a.limits.maxMetadata && |a.ack| <= a.limits.maxMetadata
                  && Heard(ls) == Frame(Ready, a.ready) + Frame(TerminalAck, a.ack))
  {
    hide Frame;
    DaemonRunHeard(a, ls);
  }

  // What one call adds -------------------------------------------------------

  /** A label that moves no octets, in front of a call's others. */
  lemma SilentFirst(before: seq<Label>, l: Label, all: seq<Label>)
    requires before + [l] <= all
    ensures BytesIn(l) == [] ==> Heard(all[|before|..]) == Heard(all[|before| + 1..])
    ensures BytesOut(l) == [] ==> Said(all[|before|..]) == Said(all[|before| + 1..])
  {
    var rest := all[|before| + 1..];
    assert all[|before|..] == [l] + rest;
    HeardAppend([l], rest);
    SaidAppend([l], rest);
    assert Heard([l]) == Heard([]) + BytesIn(l) && Said([l]) == Said([]) + BytesOut(l);
  }

  lemma SilentTwo(before: seq<Label>, l: Label, m: Label, all: seq<Label>)
    requires before + [l] + [m] <= all && BytesOut(l) == [] && BytesOut(m) == []
    ensures Said(all[|before|..]) == Said(all[|before| + 2..])
  {
    SilentFirst(before, l, all);
    SilentFirst(before + [l], m, all);
  }

  lemma Difference(all: bytes, x: bytes, y: bytes, z: bytes)
    requires all == x + y == x + z
    ensures y == z
  {
    assert all[|x|..] == y == z;
  }

  /** From the ticket on to the ready frame. */
  lemma TookReady(a: Authorization, before: seq<Label>, added: seq<Label>)
    requires Verified(a) && RunD(a, DaemonStart, before).Some? && RunD(a, DaemonStart, before + added).Some?
    requires RunD(a, DaemonStart, before).value.state == TicketSent && RunD(a, DaemonStart, before).value.act.Idle?
    requires RunD(a, DaemonStart, before + added).value.state == ReadyReceived
    ensures |a.ready| <= a.limits.maxMetadata && Heard(added) == Frame(Ready, a.ready)
  {
    hide RunD, Heard, Frame;
    DaemonRunHeard(a, before);
    DaemonRunHeard(a, before + added);
    HeardAppend(before, added);
    Difference(Heard(before + added), [], Heard(added), Frame(Ready, a.ready));
  }

  lemma TookAck(a: Authorization, before: seq<Label>, added: seq<Label>)
    requires Verified(a) && RunD(a, DaemonStart, before).Some? && RunD(a, DaemonStart, before + added).Some?
    requires RunD(a, DaemonStart, before).value.state == WriteClosed && RunD(a, DaemonStart, before).value.act.Idle?
    requires RunD(a, DaemonStart, before + added).value.state == TerminalAckReceived
    ensures |a.ack| <= a.limits.maxMetadata && Heard(added) == Frame(TerminalAck, a.ack)
  {
    hide RunD, Heard, Frame;
    DaemonRunHeard(a, before);
    DaemonRunHeard(a, before + added);
    HeardAppend(before, added);
    assert ReadyPart(a) + [] == ReadyPart(a);
    Difference(Heard(before + added), ReadyPart(a), Heard(added), Frame(TerminalAck, a.ack));
  }

  lemma MetadataLimit(a: Authorization)
    requires Verified(a)
    ensures a.limits.maxMetadata <= 16384
  {
  }

  lemma ShapedAreFor(a: Authorization, chunks: seq<bytes>)
    ensures ShapeOk(a, chunks) && (forall i :: 0 <= i < |chunks| ==> Deliverable(a, chunks[i])) <==>
      |chunks| == |a.counts| && ChunksFor(a, chunks)
  {
    hide Base64Url.Accepts, Base64Url.Encode;
    forall i | 0 <= i < |chunks|
      ensures i < |a.counts| ==>
        (|chunks[i]| == a.counts[i] && Deliverable(a, chunks[i]) <==> ChunkFor(a, i, chunks[i]))
    {
      Base64Url.AcceptsIffCanonicalEncoding(32, chunks[i]);
    }
  }
}

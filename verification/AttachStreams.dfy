/**
 What each side of a V2 attach writes, as one octet stream per direction, and the invariant that ties
 a daemon's state to the stream it has produced.
 */
module AttachStreams {
  import opened Bytes
  import opened Frames
  import opened AttachProgram

  function BytesOut(l: Label): bytes {
    match l
    case Wrote(data) => data
    case WriteBroke(part) => part
    case _ => []
  }

  function BytesIn(l: Label): bytes {
    match l
    case Read(block) => block
    case ReadBroke(lost) => lost
    case _ => []
  }

  function Closes(l: Label): bool {
    l.HalfClose? && l.closed
  }

  // What each side has said -------------------------------------------------

  function Concat(calls: seq<bytes>): bytes {
    if calls == [] then [] else calls[0] + Concat(calls[1..])
  }

  lemma {:induction false} ConcatAppend(x: seq<bytes>, y: seq<bytes>)
    ensures Concat(x + y) == Concat(x) + Concat(y)
    decreases |x|
  {
    if x == [] {
      assert x + y == y;
    } else {
      ConcatAppend(x[1..], y);
      assert (x + y)[1..] == x[1..] + y;
      AppendAssociates(x[0], Concat(x[1..]), Concat(y));
    }
  }

  /** A metadata frame, or nothing when the writer refuses its size. */
  function MetaFrame(a: Authorization, t: FrameType, payload: bytes): bytes {
    if MetadataFits(a, payload) then Frame(t, payload) else []
  }

  lemma MetadataConcat(a: Authorization, t: FrameType, payload: bytes)
    requires MetadataFits(a, payload)
    ensures Concat(MetadataCalls(t, payload)) == MetaFrame(a, t, payload)
  {
    var rest: seq<bytes> := MetadataCalls(t, payload)[1..];
    assert Concat(rest) == payload + Concat(rest[1..]);
    assert Concat(rest[1..]) == [];
  }

  function SecretStream(chunks: seq<bytes>): bytes
    requires Sendable(chunks)
  {
    if chunks == [] then []
    else SecretStream(chunks[..|chunks| - 1]) + SecretFrame(|chunks|, chunks[|chunks| - 1])
  }

  lemma SecretConcat(chunks: seq<bytes>)
    requires Sendable(chunks)
    ensures Concat(SecretCalls(chunks)) == SecretStream(chunks)
  {
    if chunks != [] {
      var n := |chunks|;
      SecretConcat(chunks[..n - 1]);
      var last: seq<bytes> := [Header(SecretChunk, 2 + |chunks[n - 1]|), U16(n), chunks[n - 1]];
      ConcatAppend(SecretCalls(chunks[..n - 1]), last);
      assert Concat(last[2..]) == chunks[n - 1] + Concat(last[3..]);
      assert last[1..][1..] == last[2..] && last[2..][1..] == last[3..] == [];
      assert Concat(last) == SecretFrame(n, chunks[n - 1]);
    }
  }

  function Hello(a: Authorization): bytes { MetaFrame(a, TicketEnvelope, a.envelope) }
  function ClaimPart(a: Authorization): bytes { MetaFrame(a, Claim, a.claim) }
  function ReadyPart(a: Authorization): bytes { MetaFrame(a, Ready, a.ready) }
  function AckPart(a: Authorization): bytes { MetaFrame(a, TerminalAck, a.ack) }

  function Secrets(chunks: Option<seq<bytes>>): bytes {
    if chunks.Some? && Sendable(chunks.value) then SecretStream(chunks.value) else []
  }

  /** Everything a daemon in a given live state has written. */
  function DaemonStream(a: Authorization, s: SessionState, chunks: Option<seq<bytes>>): bytes {
    match s
    case New => []
    case TicketSent => Hello(a)
    case ReadyReceived => Hello(a)
    case ClaimAttempted => Hello(a)
    case Rejected => Hello(a)
    case ClaimSent => Hello(a) + ClaimPart(a)
    case _ => Hello(a) + ClaimPart(a) + Secrets(chunks)
  }

  predicate Early(s: SessionState) {
    s in {New, TicketSent, ReadyReceived, ClaimAttempted, ClaimSent, Rejected}
  }

  // Secret frames determine their chunks ------------------------------------

  predicate SameShape(x: seq<bytes>, y: seq<bytes>) {
    |x| == |y| && forall i :: 0 <= i < |x| ==> |x[i]| == |y[i]|
  }

  lemma SecretStreamInjective(x: seq<bytes>, y: seq<bytes>)
    requires Sendable(x) && Sendable(y) && SameShape(x, y)
    ensures |SecretStream(x)| == |SecretStream(y)|
    ensures SecretStream(x) == SecretStream(y) ==> x == y
  {
    if x != [] {
      var n := |x|;
      var x', y' := x[..n - 1], y[..n - 1];
      SecretStreamInjective(x', y');
      var fx, fy := SecretFrame(n, x[n - 1]), SecretFrame(n, y[n - 1]);
      if SecretStream(x) == SecretStream(y) {
        assert SecretStream(x)[..|SecretStream(x')|] == SecretStream(x');
        assert SecretStream(y)[..|SecretStream(x')|] == SecretStream(y');
        assert fx == SecretStream(x)[|SecretStream(x')|..] == SecretStream(y)[|SecretStream(x')|..] == fy;
        assert fx[12..] == x[n - 1] && fy[12..] == y[n - 1];
        assert x == x' + [x[n - 1]] && y == y' + [y[n - 1]];
      }
    }
  }

  /** The stream of all chunks goes on, after those of the first k, with the frame of chunk k. */
  lemma {:induction false} StreamSplits(chunks: seq<bytes>, k: nat) returns (rest: bytes)
    requires Sendable(chunks) && k < |chunks|
    ensures SecretStream(chunks) == SecretStream(chunks[..k]) + (SecretFrame(k + 1, chunks[k]) + rest)
    decreases |chunks|
  {
    hide Header, SecretFrame;
    var n := |chunks| - 1;
    if k == n {
      rest := [];
    } else {
      var less := StreamSplits(chunks[..n], k);
      assert chunks[..n][..k] == chunks[..k];
      rest := less + SecretFrame(n + 1, chunks[n]);
      var x, f, y := SecretStream(chunks[..k]), SecretFrame(k + 1, chunks[k]), SecretFrame(n + 1, chunks[n]);
      assert x + (f + less) + y == x + (f + (less + y));
    }
  }

  lemma SecretStreamPrefix(y: seq<bytes>, k: nat)
    requires Sendable(y) && k <= |y|
    ensures SecretStream(y[..k]) <= SecretStream(y)
  {
    hide SecretStream, SecretFrame;
    if k < |y| {
      var rest := StreamSplits(y, k);
    } else {
      assert y[..k] == y;
    }
  }

  lemma SecretPrefixDecodes(x: seq<bytes>, y: seq<bytes>)
    requires Sendable(x) && Sendable(y) && |x| <= |y| && SameShape(x, y[..|x|])
    requires SecretStream(x) <= SecretStream(y)
    ensures x <= y
  {
    SecretStreamPrefix(y, |x|);
    SecretStreamInjective(x, y[..|x|]);
  }

  /** A completely read frame is the frame of its payload. */
  lemma DoneIsFrame(t: FrameType, limit: nat, buffer: bytes)
    requires FrameProgress(t, limit, buffer).Done? && limit < 0x1_0000_0000
    ensures var p := FrameProgress(t, limit, buffer).payload;
            |p| <= limit && buffer == Frame(t, p)
  {
    var n := ParseHeader(buffer[..HEADER_BYTES], t, limit).value;
    ParseHeaderExact(buffer[..HEADER_BYTES], t, limit, n);
  }

  lemma SecretStreamSnoc(sink: seq<bytes>, payload: bytes, buffer: bytes)
    requires Sendable(sink) && |sink| < 4 && 2 <= |payload| <= 65538
    requires buffer == Frame(SecretChunk, payload) && ReadU16(payload[..2]) == |sink| + 1
    ensures Sendable(sink + [payload[2..]])
    ensures SecretStream(sink + [payload[2..]]) == SecretStream(sink) + buffer
  {
    hide *;
    OrdinalOf(payload, |sink| + 1);
    OneChunkMore(sink, payload[2..]);
  }

  lemma OneChunkMore(sink: seq<bytes>, chunk: bytes)
    requires Sendable(sink) && |sink| < 4 && |chunk| <= 65536
    ensures Sendable(sink + [chunk])
    ensures SecretStream(sink + [chunk]) == SecretStream(sink) + SecretFrame(|sink| + 1, chunk)
  {
    hide SecretFrame;
    var longer := sink + [chunk];
    assert longer[..|longer| - 1] == sink;
  }

  lemma OrdinalOf(payload: bytes, ordinal: nat)
    requires 2 <= |payload| <= 65538 && ReadU16(payload[..2]) == ordinal
    ensures SecretFrame(ordinal, payload[2..]) == Frame(SecretChunk, payload)
  {
    var b := payload[..2];
    assert U16(ordinal) == b;
    hide U16, Header;
    assert payload == b + payload[2..];
  }

  /** The daemon's state, its activity and what it has written belong together. */
  ghost predicate DaemonInv(a: Authorization, d: Daemon, down: bytes, closed: bool) {
    var full := Hello(a) + ClaimPart(a) + Secrets(d.chunks);
    && (Early(d.state) ==> d.chunks == None)
    && (d.state in {ChunksSent, WriteClosed, TerminalAckReceived, Closed} ==> d.chunks.Some?)
    && (d.chunks.Some? ==> ShapeOk(a, d.chunks.value) && Sendable(d.chunks.value))
    && (closed ==>
          && down == full && d.chunks.Some?
          && d.state in {WriteClosed, TerminalAckReceived, Closed, Ambiguous})
    && down <= full
    && match d.act
       case Idle => d.state == Ambiguous || down == DaemonStream(a, d.state, d.chunks)
       case Writing(calls, next) =>
         && calls != [] && down + Concat(calls) == DaemonStream(a, next, d.chunks)
         && ((d.state == New && next == TicketSent)
             || (d.state == ClaimAttempted && next == ClaimSent)
             || (d.state == ChunksSent && next == ChunksSent))
       case Reading(t, _) =>
         && down == DaemonStream(a, d.state, d.chunks)
         && ((t == Ready && d.state == TicketSent) || (t == TerminalAck && d.state == WriteClosed))
       case Claiming => d.state == ClaimAttempted && down == DaemonStream(a, d.state, d.chunks)
       case Closing => d.state == ChunksSent && down == full
       case AwaitingEof => d.state == TerminalAckReceived && down == full
       case Delivering(_) => false
  }

  // Every daemon step keeps the invariant -------------------------------------

  lemma AppendAssociates(x: bytes, y: bytes, z: bytes)
    ensures (x + y) + z == x + (y + z)
  {
  }

  lemma PopCall(sent: bytes, calls: seq<bytes>, whole: bytes)
    requires calls != [] && sent + Concat(calls) == whole
    ensures (sent + calls[0]) + Concat(calls[1..]) == whole
    ensures |calls| == 1 ==> sent + calls[0] == whole
  {
    AppendAssociates(sent, calls[0], Concat(calls[1..]));
    if |calls| == 1 {
      assert Concat(calls[1..]) == [];
    }
  }

  lemma PartOfCall(sent: bytes, part: bytes, calls: seq<bytes>, whole: bytes)
    requires calls != [] && sent + Concat(calls) == whole && part <= calls[0]
    ensures sent + part <= whole
  {
    PopCall(sent, calls, whole);
    assert (sent + part) <= (sent + calls[0]);
  }

  lemma DaemonBegins(a: Authorization, d: Daemon, l: Label, d': Daemon, down: bytes, closed: bool)
    requires Verified(a) && DaemonInv(a, d, down, closed) && DaemonStep(a, d, l) == Some(d') && d.act.Idle?
    ensures DaemonInv(a, d', down + BytesOut(l), closed || Closes(l))
  {
    hide Header, Frame, SecretFrame, SecretStream, SecretCalls, Deliverable, Sum;
    if l.BeginDaemon? {
      match l.call
      case WriteTicketEnvelope =>
        if MetadataFits(a, a.envelope) { MetadataConcat(a, TicketEnvelope, a.envelope); }
      case WriteSecretChunks(given) =>
        if d'.act.Writing? {
          SecretConcat(given.value);
          SecretCallsNonEmpty(given.value);
        }
      case _ =>
    }
  }

  lemma SecretCallsNonEmpty(chunks: seq<bytes>)
    requires Sendable(chunks) && chunks != []
    ensures SecretCalls(chunks) != []
  {
    hide Header;
  }

  lemma StreamWithinWhole(a: Authorization, s: SessionState, chunks: Option<seq<bytes>>)
    ensures DaemonStream(a, s, chunks) <= Hello(a) + ClaimPart(a) + Secrets(chunks)
  {
    hide MetaFrame, Secrets;
  }

  lemma DaemonWrites(a: Authorization, d: Daemon, l: Label, d': Daemon, down: bytes, closed: bool)
    requires Verified(a) && DaemonInv(a, d, down, closed) && DaemonStep(a, d, l) == Some(d') && d.act.Writing?
    ensures DaemonInv(a, d', down + BytesOut(l), closed || Closes(l))
  {
    hide Header, Frame, SecretStream, SecretFrame, MetaFrame, Secrets, Concat, DaemonStream;
    var whole := DaemonStream(a, d.act.next, d.chunks);
    StreamWithinWhole(a, d.act.next, d.chunks);
    if l.Wrote? {
      PopCall(down, d.act.calls, whole);
      assert down + l.data <= whole;
    } else if l.WriteBroke? {
      PartOfCall(down, l.part, d.act.calls, whole);
    }
  }

  lemma DaemonClaims(a: Authorization, d: Daemon, l: Label, d': Daemon, down: bytes, closed: bool)
    requires Verified(a) && DaemonInv(a, d, down, closed) && DaemonStep(a, d, l) == Some(d') && d.act.Claiming?
    ensures DaemonInv(a, d', down + BytesOut(l), closed || Closes(l))
  {
    hide Header, Frame, SecretStream;
    if MetadataFits(a, a.claim) { MetadataConcat(a, Claim, a.claim); }
  }

  lemma DaemonKeepsInv(a: Authorization, d: Daemon, l: Label, d': Daemon, down: bytes, closed: bool)
    requires Verified(a) && DaemonInv(a, d, down, closed) && DaemonStep(a, d, l) == Some(d')
    ensures DaemonInv(a, d', down + BytesOut(l), closed || Closes(l))
  {
    hide Header, Frame, SecretFrame, SecretStream, MetaFrame, FrameProgress;
    match d.act
    case Idle => DaemonBegins(a, d, l, d', down, closed);
    case Writing(_, _) => DaemonWrites(a, d, l, d', down, closed);
    case Claiming => DaemonClaims(a, d, l, d', down, closed);
    case Reading(_, _) => assert down + BytesOut(l) == down;
    case Closing => assert down + BytesOut(l) == down;
    case AwaitingEof => assert down + BytesOut(l) == down;
  }
}

/**
 The Docker non-TTY stream demultiplexer: stdout frames of an eight-octet header and a payload,
 reassembled from an upgrade leftover and arbitrarily split receives.
 */
module Demux {
  import opened Bytes

  const MUX_HEADER_BYTES := 8

  /** What a raw multiplexed stream means: the payload octets before its end or its first fault. */
  datatype Stdout = Stdout(content: bytes, clean: bool)

  /** Stream tag 1, three ignored octets, then the payload length. */
  function FrameLength(raw: bytes): int
    requires |raw| >= MUX_HEADER_BYTES
  {
    ReadU32(raw[4..8])
  }

  predicate FrameAllowed(raw: bytes, frames: nat, budget: nat)
    requires |raw| >= MUX_HEADER_BYTES
  {
    frames > 0 && raw[0] == 1 && 0 < FrameLength(raw) <= budget
  }

  /** Meaning of a raw stream when `frames` more frames and `budget` more payload octets are allowed. */
  function Meaning(raw: bytes, frames: nat, budget: nat): Stdout
  {
    if raw == [] then Stdout([], true)
    else if |raw| < MUX_HEADER_BYTES || !FrameAllowed(raw, frames, budget) then Stdout([], false)
    else
      var n := MUX_HEADER_BYTES + FrameLength(raw);
      if |raw| < n then Stdout([], false)
      else
        var rest := Meaning(raw[n..], frames - 1, budget - FrameLength(raw));
        Prepend(raw[MUX_HEADER_BYTES..n], rest)
  }

  /** A frame wholly there and allowed. */
  predicate FrameAhead(raw: bytes, frames: nat, budget: nat) {
    |raw| >= MUX_HEADER_BYTES && FrameAllowed(raw, frames, budget) && |raw| >= MUX_HEADER_BYTES + FrameLength(raw)
  }

  lemma MeaningOfFrame(raw: bytes, frames: nat, budget: nat)
    requires FrameAhead(raw, frames, budget)
    ensures var n := FrameLength(raw);
            Meaning(raw, frames, budget) == Prepend(raw[MUX_HEADER_BYTES..MUX_HEADER_BYTES + n],
              Meaning(raw[MUX_HEADER_BYTES + n..], frames - 1, budget - n))
  {
  }

  lemma MeaningOfEnd(frames: nat, budget: nat)
    ensures Meaning([], frames, budget) == Stdout([], true)
  {
  }

  lemma MeaningOfFault(raw: bytes, frames: nat, budget: nat)
    requires raw != [] && !FrameAhead(raw, frames, budget)
    ensures Meaning(raw, frames, budget) == Stdout([], false)
  {
  }

  function Prepend(data: bytes, rest: Stdout): Stdout {
    Stdout(data + rest.content, rest.clean)
  }

  lemma Served(buffer: bytes, rest: Stdout, n: nat)
    requires n <= |buffer|
    ensures Prepend(buffer, rest) == Prepend(buffer[..n], Prepend(buffer[n..], rest))
  {
    assert buffer + rest.content == buffer[..n] + (buffer[n..] + rest.content);
  }

  /** A socket that delivers `incoming` in order, in blocks of its own choosing, or raises. */
  class Socket {
    var incoming: bytes
    var broken: bool  // whether it has ever raised

    constructor (incoming: bytes)
      ensures this.incoming == incoming && !broken
    {
      this.incoming := incoming;
      broken := false;
    }

    method Recv(count: nat) returns (block: Option<bytes>)
      requires count > 0
      modifies this
      ensures block.Some? ==> block.value + incoming == old(incoming) && |block.value| <= count
      ensures block.Some? ==> (block.value == [] <==> old(incoming) == [])
      ensures broken == (old(broken) || block.None?)
    {
      var raises: bool := *;
      if raises {
        incoming, broken := *, true;
        return None;
      }
      if incoming == [] {
        return Some([]);
      }
      var k :| 0 < k <= count && k <= |incoming|;
      block := Some(incoming[..k]);
      assert incoming == incoming[..k] + incoming[k..];
      incoming := incoming[k..];
    }
  }

  datatype Frame = Eof | Payload(data: bytes) | Fault

  class Demultiplexer {
    const socket: Socket
    const maxFrames: nat
    const maxBytes: nat
    var muxBuffer: bytes
    var applicationBuffer: bytes
    var muxFrames: nat
    var stdoutBytes: nat

    ghost predicate Valid()
      reads this
    {
      muxFrames <= maxFrames && stdoutBytes <= maxBytes
    }

    /** All raw octets not yet turned into application octets. */
    ghost function Raw(): bytes
      reads this, socket
    {
      muxBuffer + socket.incoming
    }

    /** The meaning of those octets under what is left of the policy. */
    ghost function Ahead(): Stdout
      reads this, socket
      requires Valid()
    {
      Meaning(Raw(), maxFrames - muxFrames, maxBytes - stdoutBytes)
    }

    /** What the application is still owed, and whether the stream then ends cleanly. */
    ghost function Owed(): Stdout
      reads this, socket
      requires Valid()
    {
      Prepend(applicationBuffer, Ahead())
    }

    constructor (socket: Socket, maxFrames: nat, maxBytes: nat, initial: bytes)
      ensures Valid() && this.socket == socket
      ensures Owed() == Meaning(initial + socket.incoming, maxFrames, maxBytes)
    {
      this.socket := socket;
      this.maxFrames := maxFrames;
      this.maxBytes := maxBytes;
      muxBuffer, applicationBuffer, muxFrames, stdoutBytes := initial, [], 0, 0;
      new;
      assert [] + Ahead().content == Ahead().content;
    }

    /** Fills the raw buffer up to count octets; `raised` tells a transport failure from an early end. */
    method Fill(count: nat) returns (filled: bool, raised: bool)
      modifies this`muxBuffer, socket
      ensures !raised ==> Raw() == old(Raw())
      ensures socket.broken == (old(socket.broken) || raised)
      ensures filled ==> !raised && |muxBuffer| >= count && old(muxBuffer) <= muxBuffer
      ensures !filled && !raised ==> socket.incoming == [] && |muxBuffer| < count
      ensures |muxBuffer| <= count || muxBuffer == old(muxBuffer)  // it never reads ahead
    {
      while |muxBuffer| < count
        invariant Raw() == old(Raw()) && old(muxBuffer) <= muxBuffer && socket.broken == old(socket.broken)
        invariant |muxBuffer| <= count || muxBuffer == old(muxBuffer)
        decreases count - |muxBuffer|
      {
        var block := socket.Recv(count - |muxBuffer|);
        if block.None? {
          return false, true;
        }
        if block.value == [] {
          return false, false;
        }
        assert muxBuffer + (block.value + socket.incoming) == (muxBuffer + block.value) + socket.incoming;
        muxBuffer := muxBuffer + block.value;
      }
      return true, false;
    }

    /** The next stdout payload, a clean end exactly between frames, or a fault. */
    method NextStdoutFrame() returns (frame: Frame, ghost raised: bool)
      requires Valid()
      modifies this`muxBuffer, this`muxFrames, this`stdoutBytes, socket
      ensures frame.Payload? ==>
        && Valid() && frame.data != []
        && old(Ahead()) == Prepend(frame.data, Ahead())
        && muxFrames == old(muxFrames) + 1 && stdoutBytes == old(stdoutBytes) + |frame.data|
      ensures frame.Eof? ==> Valid() && old(Ahead()) == Ahead() == Stdout([], true)
      ensures frame.Fault? && !raised ==> old(Ahead()) == Stdout([], false)
      ensures socket.broken == (old(socket.broken) || raised) && (raised ==> frame.Fault?)
    {
      hide Meaning, ReadU32;
      ghost var raw := Raw();
      ghost var frames, budget := maxFrames - muxFrames, maxBytes - stdoutBytes;
      var filled, failed := Fill(MUX_HEADER_BYTES);
      if !filled {
        if !failed && muxBuffer == [] {
          MeaningOfEnd(frames, budget);
          return Eof, false;
        }
        if !failed {
          MeaningOfFault(raw, frames, budget);
        }
        return Fault, failed;
      }
      var header := muxBuffer[..MUX_HEADER_BYTES];
      Cut(muxBuffer, socket.incoming, raw, MUX_HEADER_BYTES);
      assert header[4..8] == raw[4..8] && header[0] == raw[0];
      muxBuffer := muxBuffer[MUX_HEADER_BYTES..];
      muxFrames := muxFrames + 1;
      var length := FrameLength(header);
      if muxFrames > maxFrames || header[0] != 1 || length == 0 || length > maxBytes - stdoutBytes {
        MeaningOfFault(raw, frames, budget);
        return Fault, false;
      }
      filled, failed := Fill(length);
      if !filled {
        if !failed {
          MeaningOfFault(raw, frames, budget);
        }
        return Fault, failed;
      }
      MeaningOfFrame(raw, frames, budget);
      var payload := muxBuffer[..length];
      Cut(muxBuffer, socket.incoming, raw[MUX_HEADER_BYTES..], length);
      Twice(raw, MUX_HEADER_BYTES, length);
      muxBuffer := muxBuffer[length..];
      stdoutBytes := stdoutBytes + length;
      return Payload(payload), false;
    }

    /**
     A successful read of a positive count returns the next owed octets, at least one unless nothing is
     owed and the stream ended cleanly; in time and with the socket unbroken it fails exactly when nothing
     more is owed and the stream does not end cleanly.
     */
    method Read(count: nat, late: bool) returns (value: Option<bytes>)
      requires Valid()
      modifies this, socket
      ensures value.Some? ==> Valid() && |value.value| <= count
      ensures value.Some? && count == 0 ==> value.value == [] && Owed() == old(Owed())
      ensures value.Some? && count > 0 ==>
        && old(Owed()) == Prepend(value.value, Owed())
        && (value.value == [] <==> old(Owed()) == Stdout([], true))
      ensures !late && !socket.broken ==>
        (value.None? <==> count > 0 && old(Owed()) == Stdout([], false))
      ensures late ==> value.None?
    {
      hide Meaning;
      if late {
        return None;
      }
      if count == 0 {
        return Some([]);
      }
      if applicationBuffer == [] {
        ghost var broke;
        var frame;
        frame, broke := NextStdoutFrame();
        match frame
        case Fault => return None;
        case Eof => return Some([]);
        case Payload(data) => applicationBuffer := data;
      }
      var n := if count <= |applicationBuffer| then count else |applicationBuffer|;
      value := Some(applicationBuffer[..n]);
      Served(applicationBuffer, Ahead(), n);
      applicationBuffer := applicationBuffer[n..];
    }
  }

  // Multiplexed streams the daemon may send ---------------------------------

  /** One stdout frame; the three octets after the tag carry nothing. */
  function StdoutFrame(ignored: bytes, payload: bytes): bytes
    requires |ignored| == 3 && |payload| < 0x1_0000_0000
  {
    [1] + ignored + U32(|payload|) + payload
  }

  predicate Framed(payloads: seq<(bytes, bytes)>) {
    forall i :: 0 <= i < |payloads| ==>
      |payloads[i].0| == 3 && 0 < |payloads[i].1| < 0x1_0000_0000
  }

  function Multiplex(payloads: seq<(bytes, bytes)>): bytes
    requires Framed(payloads)
  {
    if payloads == [] then []
    else StdoutFrame(payloads[0].0, payloads[0].1) + Multiplex(payloads[1..])
  }

  function Content(payloads: seq<(bytes, bytes)>): bytes {
    if payloads == [] then [] else payloads[0].1 + Content(payloads[1..])
  }

  /** The head of a multiplexed stream: its tag, its length, its payload, and what comes after it. */
  lemma FirstFrame(payloads: seq<(bytes, bytes)>)
    requires Framed(payloads) && payloads != []
    ensures var raw, first := Multiplex(payloads), payloads[0].1;
            var n := MUX_HEADER_BYTES + |first|;
            && |raw| >= n && raw[0] == 1 && FrameLength(raw) == |first|
            && raw[MUX_HEADER_BYTES..n] == first && raw[n..] == Multiplex(payloads[1..])
  {
    var ignored, first := payloads[0].0, payloads[0].1;
    var raw, rest := Multiplex(payloads), Multiplex(payloads[1..]);
    var header := [1] + ignored + U32(|first|);
    U32RoundTrip(|first|);
    UnfoldMultiplex(payloads);
    hide U32, ReadU32, Multiplex, StdoutFrame;
    assert header[4..8] == U32(|first|);
    Cut(header, first + rest, raw, MUX_HEADER_BYTES);
    assert raw[4..8] == raw[..MUX_HEADER_BYTES][4..8];
    Cut(first, rest, raw[MUX_HEADER_BYTES..], |first|);
    Twice(raw, MUX_HEADER_BYTES, |first|);
  }

  /** Cutting what is buffered off the front of a stream. */
  lemma Cut(buffer: bytes, incoming: bytes, raw: bytes, k: nat)
    requires raw == buffer + incoming && k <= |buffer|
    ensures raw[..k] == buffer[..k] && raw[k..] == buffer[k..] + incoming
  {
  }

  lemma Twice(raw: bytes, k: nat, n: nat)
    requires k + n <= |raw|
    ensures raw[k..][..n] == raw[k..k + n] && raw[k..][n..] == raw[k + n..]
  {
  }

  lemma UnfoldMultiplex(payloads: seq<(bytes, bytes)>)
    requires Framed(payloads) && payloads != []
    ensures var header := [1] + payloads[0].0 + U32(|payloads[0].1|);
            Multiplex(payloads) == header + (payloads[0].1 + Multiplex(payloads[1..]))
  {
    hide U32;
  }

  /** The meaning of a multiplexed stream, one frame unfolded. */
  lemma MeaningUnfolds(payloads: seq<(bytes, bytes)>, frames: nat, budget: nat)
    requires Framed(payloads) && payloads != []
    ensures var first := payloads[0].1;
            Meaning(Multiplex(payloads), frames, budget) ==
              if frames == 0 || |first| > budget then Stdout([], false)
              else Prepend(first, Meaning(Multiplex(payloads[1..]), frames - 1, budget - |first|))
  {
    FirstFrame(payloads);
    hide Multiplex, FrameLength;
  }

  /** The same with anything after it. */
  lemma MeaningUnfoldsBefore(payloads: seq<(bytes, bytes)>, rest: bytes, frames: nat, budget: nat)
    requires Framed(payloads) && payloads != []
    ensures var first := payloads[0].1;
            Meaning(Multiplex(payloads) + rest, frames, budget) ==
              if frames == 0 || |first| > budget then Stdout([], false)
              else Prepend(first, Meaning(Multiplex(payloads[1..]) + rest, frames - 1, budget - |first|))
  {
    FirstFrame(payloads);
    var raw, n := Multiplex(payloads), MUX_HEADER_BYTES + |payloads[0].1|;
    hide Multiplex;
    var whole := raw + rest;
    assert whole[4..8] == raw[4..8] && whole[0] == raw[0];
    assert whole[MUX_HEADER_BYTES..n] == raw[MUX_HEADER_BYTES..n] && whole[n..] == raw[n..] + rest;
  }

  /** The length a header states, most significant octet first. */
  function StatedLength(raw: bytes): int
    requires |raw| >= MUX_HEADER_BYTES
  {
    raw[4] as int * 16777216 + raw[5] as int * 65536 + raw[6] as int * 256 + raw[7] as int
  }

  /**
   Where a stream stops being readable: a header cut short, of another stream than 1, of length zero, one
   frame or some octets too many, or a payload cut short. What comes after does not matter.
   */
  predicate Stops(raw: bytes, frames: nat, budget: nat) {
    || 0 < |raw| < MUX_HEADER_BYTES
    || (|raw| >= MUX_HEADER_BYTES
        && (frames == 0 || raw[0] != 1 || StatedLength(raw) == 0 || StatedLength(raw) > budget
            || |raw| < MUX_HEADER_BYTES + StatedLength(raw)))
  }

  lemma StatedIsRead(raw: bytes)
    requires |raw| >= MUX_HEADER_BYTES
    ensures FrameLength(raw) == StatedLength(raw)
  {
    U32IsBigEndian(0, raw[4..8]);
  }

  lemma StopMeansNothing(rest: bytes, frames: nat, budget: nat)
    requires rest == [] || Stops(rest, frames, budget)
    ensures Meaning(Multiplex([]) + rest, frames, budget) == Stdout([], rest == [])
  {
    assert Multiplex([]) + rest == rest;
    if |rest| >= MUX_HEADER_BYTES {
      StatedIsRead(rest);
    }
  }

  /**
   Frames of stream 1 within the limits, and then the end or a place where the stream stops: it means
   exactly the payloads of those frames, and ends cleanly in the first case only.
   */
  lemma {:induction false} MeaningUpToStop(payloads: seq<(bytes, bytes)>, rest: bytes, frames: nat, budget: nat)
    requires Framed(payloads) && |payloads| <= frames && |Content(payloads)| <= budget
    requires rest == [] || Stops(rest, frames - |payloads|, budget - |Content(payloads)|)
    ensures Meaning(Multiplex(payloads) + rest, frames, budget) == Stdout(Content(payloads), rest == [])
    decreases |payloads|
  {
    hide Meaning, Stops, Multiplex;
    if payloads == [] {
      StopMeansNothing(rest, frames, budget);
    } else {
      MeaningUnfoldsBefore(payloads, rest, frames, budget);
      MeaningUpToStop(payloads[1..], rest, frames - 1, budget - |payloads[0].1|);
    }
  }

  /** And every stream is of that kind. */
  lemma {:induction false} EveryStreamSplits(raw: bytes, frames: nat, budget: nat)
    returns (payloads: seq<(bytes, bytes)>, rest: bytes)
    ensures Framed(payloads) && |payloads| <= frames && |Content(payloads)| <= budget
    ensures raw == Multiplex(payloads) + rest
    ensures rest == [] || Stops(rest, frames - |payloads|, budget - |Content(payloads)|)
    decreases |raw|
  {
    if raw == [] || Stops(raw, frames, budget) {
      payloads, rest := [], raw;
    } else {
      var length := StatedLength(raw);
      var n := MUX_HEADER_BYTES + length;
      var more;
      more, rest := EveryStreamSplits(raw[n..], frames - 1, budget - length);
      var first := (raw[1..4], raw[MUX_HEADER_BYTES..n]);
      payloads := [first] + more;
      assert payloads[1..] == more;
      HeadIsFrame(raw, length);
      hide StdoutFrame, Stops;
      assert raw == StdoutFrame(first.0, first.1) + (Multiplex(more) + rest);
    }
  }

  lemma HeadIsFrame(raw: bytes, length: nat)
    requires |raw| >= MUX_HEADER_BYTES + length && raw[0] == 1 && length == StatedLength(raw) < 0x1_0000_0000
    ensures var n := MUX_HEADER_BYTES + length;
            raw == StdoutFrame(raw[1..4], raw[MUX_HEADER_BYTES..n]) + raw[n..]
  {
    U32IsBigEndian(length, raw[4..8]);
    hide U32, ReadU32;
    assert raw[..MUX_HEADER_BYTES] == [1] + raw[1..4] + raw[4..8];
  }

  /** Well-formed frames within the limits mean exactly their payloads and a clean end ... */
  lemma {:induction false} MultiplexMeansContent(payloads: seq<(bytes, bytes)>, frames: nat, budget: nat)
    requires Framed(payloads) && |payloads| <= frames && |Content(payloads)| <= budget
    ensures Meaning(Multiplex(payloads), frames, budget) == Stdout(Content(payloads), true)
  {
    hide Meaning;
    if payloads == [] {
      MeaningOfEnd(frames, budget);
    } else {
      MeaningUnfolds(payloads, frames, budget);
      MultiplexMeansContent(payloads[1..], frames - 1, budget - |payloads[0].1|);
    }
  }

  /** ... and one frame or one octet beyond the limits never means a clean end. */
  lemma {:induction false} BeyondLimitsIsFault(payloads: seq<(bytes, bytes)>, frames: nat, budget: nat)
    requires Framed(payloads) && (|payloads| > frames || |Content(payloads)| > budget)
    ensures !Meaning(Multiplex(payloads), frames, budget).clean
    ensures Meaning(Multiplex(payloads), frames, budget).content <= Content(payloads)
    ensures |Meaning(Multiplex(payloads), frames, budget).content| <= budget
  {
    hide Meaning, Multiplex;
    MeaningUnfolds(payloads, frames, budget);
    var first := payloads[0].1;
    if frames > 0 && |first| <= budget {
      BeyondLimitsIsFault(payloads[1..], frames - 1, budget - |first|);
    }
  }
}

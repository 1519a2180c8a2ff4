/** Attach V2 frame layout: "ONC2", version 2, frame type, payload length, payload. */
module Frames {
  import opened Bytes

  datatype FrameType = TicketEnvelope | Ready | Claim | SecretChunk | TerminalAck

  const HEADER_BYTES := 10
  const MAGIC: bytes := [79, 78, 67, 50]
  const VERSION: byte := 2

  function TypeCode(t: FrameType): (c: byte)
    ensures 1 <= c <= 5
  {
    match t
    case TicketEnvelope => 1
    case Ready => 2
    case Claim => 3
    case SecretChunk => 4
    case TerminalAck => 5
  }

  function Header(t: FrameType, length: int): (h: bytes)
    requires 0 <= length < 0x1_0000_0000
    ensures |h| == HEADER_BYTES
  {
    MAGIC + [VERSION, TypeCode(t)] + U32(length)
  }

  /** The payload length of a well-formed header of the expected type within the limit. */
  function ParseHeader(h: bytes, expected: FrameType, limit: nat): (length: Option<nat>)
    requires |h| == HEADER_BYTES
    ensures length.Some? ==> length.value <= limit
  {
    var n := ReadU32(h[6..]);
    if h[..4] == MAGIC && h[4] == VERSION && h[5] == TypeCode(expected) && n <= limit
    then Some(n) else None
  }

  lemma ParseHeaderExact(h: bytes, t: FrameType, limit: nat, length: nat)
    requires |h| == HEADER_BYTES && length < 0x1_0000_0000
    ensures ParseHeader(h, t, limit) == Some(length) <==> h == Header(t, length) && length <= limit
  {
    if ParseHeader(h, t, limit) == Some(length) {
      ReadU32RoundTrip(h[6..]);
      assert h == h[..4] + [h[4], h[5]] + h[6..];
    }
    if h == Header(t, length) {
      assert h[..4] == MAGIC && h[6..] == U32(length);
      U32RoundTrip(length);
    }
  }

  lemma WrongTypeHeader(t: FrameType, expected: FrameType, length: nat, limit: nat)
    requires t != expected && length < 0x1_0000_0000
    ensures ParseHeader(Header(t, length), expected, limit) == None
  {
    assert Header(t, length)[5] == TypeCode(t);
  }

  function Frame(t: FrameType, payload: bytes): bytes
    requires |payload| < 0x1_0000_0000
  {
    Header(t, |payload|) + payload
  }

  /** One secret chunk: its ordinal travels in the first two payload octets. */
  function SecretFrame(ordinal: nat, chunk: bytes): (f: bytes)
    requires ordinal < 0x1_0000 && |chunk| < 0x1_0000_0000 - 2
    ensures f == Header(SecretChunk, 2 + |chunk|) + U16(ordinal) + chunk
  {
    assert Header(SecretChunk, 2 + |chunk|) + (U16(ordinal) + chunk)
        == Header(SecretChunk, 2 + |chunk|) + U16(ordinal) + chunk;
    Frame(SecretChunk, U16(ordinal) + chunk)
  }

  /** A frame octet by octet: the letters ONC2, version 2, its type, its length, its payload. */
  lemma FrameLayout(t: FrameType, payload: bytes)
    requires |payload| < 0x1_0000_0000
    ensures var f := Frame(t, payload);
            && |f| == 10 + |payload| && f[10..] == payload
            && f[0] == 'O' as int && f[1] == 'N' as int && f[2] == 'C' as int && f[3] == '2' as int && f[4] == 2
            && f[5] == (match t
                        case TicketEnvelope => 1
                        case Ready => 2
                        case Claim => 3
                        case SecretChunk => 4
                        case TerminalAck => 5)
            && f[6] as int * 16777216 + f[7] as int * 65536 + f[8] as int * 256 + f[9] as int == |payload|
  {
    U32IsBigEndian(|payload|, U32(|payload|));
    hide U32;
    var h := Header(t, |payload|);
    assert h[6..] == U32(|payload|);
    assert h[6] == h[6..][0] && h[7] == h[6..][1] && h[8] == h[6..][2] && h[9] == h[6..][3];
  }

  /** A secret frame's payload begins with its ordinal, most significant octet first. */
  lemma SecretLayout(ordinal: nat, chunk: bytes)
    requires ordinal < 0x1_0000 && |chunk| < 0x1_0000_0000 - 2
    ensures var f := SecretFrame(ordinal, chunk);
            && |f| == 12 + |chunk| && f[12..] == chunk && f[5] == 4
            && f[10] as int * 256 + f[11] as int == ordinal
  {
    FrameLayout(SecretChunk, U16(ordinal) + chunk);
    U16IsBigEndian(ordinal, U16(ordinal));
    var p := U16(ordinal) + chunk;
    assert p[0] == U16(ordinal)[0] && p[1] == U16(ordinal)[1] && p[2..] == chunk;
    var f := Frame(SecretChunk, p);
    assert f[10] == f[10..][0] && f[11] == f[10..][1] && f[12..] == f[10..][2..];
  }

  // Decoding ----------------------------------------------------------------

  /** The first frame of a stream: whole, rejected after its header alone, or not all there. */
  datatype Decoded = Whole(payload: bytes, rest: bytes) | HeaderRefused(rest: bytes) | Short

  function Decode(stream: bytes, expected: FrameType, limit: nat): Decoded {
    if |stream| < HEADER_BYTES then Short
    else
      match ParseHeader(stream[..HEADER_BYTES], expected, limit)
      case None => HeaderRefused(stream[HEADER_BYTES..])
      case Some(n) =>
        if |stream| < HEADER_BYTES + n then Short
        else Whole(stream[HEADER_BYTES..HEADER_BYTES + n], stream[HEADER_BYTES + n..])
  }

  /** A metadata frame of some other type than SecretChunk, or a secret chunk with its ordinal. */
  datatype Message = Metadata(t: FrameType, payload: bytes) | Secret(ordinal: nat, chunk: bytes)

  predicate InLimit(m: Message, maxMetadata: nat, maxChunk: nat) {
    match m
    case Metadata(t, payload) => t != SecretChunk && |payload| <= maxMetadata
    case Secret(ordinal, chunk) => ordinal < 0x1_0000 && |chunk| <= maxChunk
  }

  function TypeOf(m: Message): FrameType {
    if m.Metadata? then m.t else SecretChunk
  }

  function LimitOf(t: FrameType, maxMetadata: nat, maxChunk: nat): nat {
    if t == SecretChunk then maxChunk + 2 else maxMetadata
  }

  function Encode(m: Message, maxMetadata: nat, maxChunk: nat): bytes
    requires maxMetadata < 0x1_0000_0000 && maxChunk < 0x1_0000_0000 - 2
    requires InLimit(m, maxMetadata, maxChunk)
  {
    match m
    case Metadata(t, payload) => Frame(t, payload)
    case Secret(ordinal, chunk) => SecretFrame(ordinal, chunk)
  }

  function EncodeAll(ms: seq<Message>, maxMetadata: nat, maxChunk: nat): bytes
    requires maxMetadata < 0x1_0000_0000 && maxChunk < 0x1_0000_0000 - 2
    requires forall m :: m in ms ==> InLimit(m, maxMetadata, maxChunk)
  {
    if ms == [] then []
    else Encode(ms[0], maxMetadata, maxChunk) + EncodeAll(ms[1..], maxMetadata, maxChunk)
  }

  /** The payload a message travels in, and the message a payload of some type carries. */
  function PayloadOf(m: Message): bytes
    requires m.Secret? ==> m.ordinal < 0x1_0000
  {
    if m.Metadata? then m.payload else U16(m.ordinal) + m.chunk
  }

  function MessageOf(t: FrameType, payload: bytes): Option<Message> {
    if t != SecretChunk then Some(Metadata(t, payload))
    else if |payload| < 2 then None
    else Some(Secret(ReadU16(payload[..2]), payload[2..]))
  }

  lemma MessageRoundTrip(m: Message, maxMetadata: nat, maxChunk: nat)
    requires maxMetadata < 0x1_0000_0000 && maxChunk < 0x1_0000_0000 - 2
    requires InLimit(m, maxMetadata, maxChunk)
    ensures |PayloadOf(m)| <= LimitOf(TypeOf(m), maxMetadata, maxChunk) < 0x1_0000_0000
    ensures Encode(m, maxMetadata, maxChunk) == Frame(TypeOf(m), PayloadOf(m))
    ensures MessageOf(TypeOf(m), PayloadOf(m)) == Some(m)
  {
    hide Header;
    if m.Secret? {
      assert PayloadOf(m)[..2] == U16(m.ordinal) && PayloadOf(m)[2..] == m.chunk;
    }
  }

  /** Reads one frame per expected type; the octets after the last one are left over. */
  function DecodeAll(stream: bytes, types: seq<FrameType>, maxMetadata: nat, maxChunk: nat)
    : Option<(seq<Message>, bytes)>
  {
    if types == [] then Some(([], stream))
    else
      match Decode(stream, types[0], LimitOf(types[0], maxMetadata, maxChunk))
      case Whole(payload, rest) =>
        (match (MessageOf(types[0], payload), DecodeAll(rest, types[1..], maxMetadata, maxChunk))
         case (Some(m), Some(more)) => Some(([m] + more.0, more.1))
         case _ => None)
      case _ => None
  }

  function Types(ms: seq<Message>): seq<FrameType> {
    seq(|ms|, i requires 0 <= i < |ms| => TypeOf(ms[i]))
  }

  lemma DecodeOfFrame(t: FrameType, payload: bytes, tail: bytes, limit: nat)
    requires |payload| <= limit < 0x1_0000_0000
    ensures Decode(Frame(t, payload) + tail, t, limit) == Whole(payload, tail)
  {
    hide Header, ParseHeader;
    var stream := Frame(t, payload) + tail;
    ParseHeaderExact(Header(t, |payload|), t, limit, |payload|);
    assert stream[..HEADER_BYTES] == Header(t, |payload|);
  }

  /** A frame of another type than expected is refused after its ten header octets only. */
  /** What decodes whole begins with the frame of its payload. */
  lemma WholeIsFrame(stream: bytes, t: FrameType, limit: nat)
    requires Decode(stream, t, limit).Whole? && limit < 0x1_0000_0000
    ensures var d := Decode(stream, t, limit);
            |d.payload| <= limit && stream == Frame(t, d.payload) + d.rest
  {
    hide ParseHeader, Header;
    var h := stream[..HEADER_BYTES];
    var n := ParseHeader(h, t, limit).value;
    ParseHeaderExact(h, t, limit, n);
    assert stream == h + (stream[HEADER_BYTES..HEADER_BYTES + n] + stream[HEADER_BYTES + n..]);
  }

  /** One frame at the head of a stream, as a reader of it finds it. */
  ghost predicate Begins(stream: bytes, t: FrameType, payload: bytes, limit: nat) {
    |payload| <= limit && |payload| < 0x1_0000_0000 && Frame(t, payload) <= stream
  }

  lemma BeginsIffWhole(stream: bytes, t: FrameType, payload: bytes, limit: nat)
    requires limit < 0x1_0000_0000
    ensures Begins(stream, t, payload, limit) <==>
      Decode(stream, t, limit).Whole? && Decode(stream, t, limit).payload == payload
    ensures Begins(stream, t, payload, limit) ==>
      stream == Frame(t, payload) + Decode(stream, t, limit).rest
  {
    hide Decode, Frame;
    if Begins(stream, t, payload, limit) {
      var rest := stream[|Frame(t, payload)|..];
      assert stream == Frame(t, payload) + rest;
      DecodeOfFrame(t, payload, rest, limit);
    }
    if Decode(stream, t, limit).Whole? {
      WholeIsFrame(stream, t, limit);
    }
  }

  lemma WrongTypeConsumesHeader(t: FrameType, expected: FrameType, payload: bytes, tail: bytes, limit: nat)
    requires t != expected && |payload| < 0x1_0000_0000
    ensures Decode(Frame(t, payload) + tail, expected, limit) == HeaderRefused(payload + tail)
  {
    hide Header, ParseHeader;
    var stream := Frame(t, payload) + tail;
    WrongTypeHeader(t, expected, |payload|, limit);
    assert stream[..HEADER_BYTES] == Header(t, |payload|);
    assert stream[HEADER_BYTES..] == payload + tail;
  }

  lemma MessageDecodes(m: Message, tail: bytes, maxMetadata: nat, maxChunk: nat)
    requires maxMetadata < 0x1_0000_0000 && maxChunk < 0x1_0000_0000 - 2
    requires InLimit(m, maxMetadata, maxChunk)
    ensures var limit := LimitOf(TypeOf(m), maxMetadata, maxChunk);
            var d := Decode(Encode(m, maxMetadata, maxChunk) + tail, TypeOf(m), limit);
            d.Whole? && d.rest == tail && MessageOf(TypeOf(m), d.payload) == Some(m)
  {
    hide Header, ParseHeader, Decode, Frame, Encode, MessageOf;
    MessageRoundTrip(m, maxMetadata, maxChunk);
    DecodeOfFrame(TypeOf(m), PayloadOf(m), tail, LimitOf(TypeOf(m), maxMetadata, maxChunk));
  }

  /** In-limit frames written back to back decode to themselves with only the tail left over. */
  lemma {:induction false} RoundTrip(ms: seq<Message>, tail: bytes, maxMetadata: nat, maxChunk: nat)
    requires maxMetadata < 0x1_0000_0000 && maxChunk < 0x1_0000_0000 - 2
    requires forall m :: m in ms ==> InLimit(m, maxMetadata, maxChunk)
    ensures DecodeAll(EncodeAll(ms, maxMetadata, maxChunk) + tail, Types(ms), maxMetadata, maxChunk)
         == Some((ms, tail))
  {
    hide Header, ParseHeader, Decode, Frame, Encode, PayloadOf, MessageOf, InLimit, LimitOf;
    if ms == [] {
      assert [] + tail == tail;
    } else {
      var m := ms[0];
      assert m in ms && forall x :: x in ms[1..] ==> x in ms;
      var head, rest := Encode(m, maxMetadata, maxChunk), EncodeAll(ms[1..], maxMetadata, maxChunk);
      RoundTrip(ms[1..], tail, maxMetadata, maxChunk);
      MessageDecodes(m, rest + tail, maxMetadata, maxChunk);
      DecodeFirst(head + (rest + tail), Types(ms), m, rest + tail, maxMetadata, maxChunk);
      assert Types(ms)[1..] == Types(ms[1..]);
      assert EncodeAll(ms, maxMetadata, maxChunk) + tail == head + (rest + tail);
      hide DecodeAll, EncodeAll, Types;
      assert ms == [m] + ms[1..];
    }
  }

  lemma DecodeFirst(
      stream: bytes, types: seq<FrameType>, m: Message, rest: bytes, maxMetadata: nat, maxChunk: nat)
    requires types != []
    requires var d := Decode(stream, types[0], LimitOf(types[0], maxMetadata, maxChunk));
             d.Whole? && d.rest == rest && MessageOf(types[0], d.payload) == Some(m)
    ensures var more := DecodeAll(rest, types[1..], maxMetadata, maxChunk);
            DecodeAll(stream, types, maxMetadata, maxChunk)
            == if more.None? then None else Some(([m] + more.value.0, more.value.1))
  {
    hide Decode, MessageOf, LimitOf;
  }
}

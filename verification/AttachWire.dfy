/**
 Exact reads and whole writes under a deadline. Readers and writers are arbitrary: they may raise
 (also after acting), return short, return too much, or return something that is not bytes. Every
 call is recorded as the label an observer would see.
 */
module AttachWire {
  import opened Bytes
  import opened AttachProgram
  import opened Deadlines
  import opened Frames

  datatype ReadOutcome = ReadRaised(lost: bytes) | NotBytes(consumed: bytes) | Block(data: bytes)
  datatype WriteOutcome = WriteRaised(part: bytes) | Reported(part: bytes, count: Option<int>)
  datatype CloseOutcome = CloseRaised(closed: bool) | ReportedClosed | OtherResult(closed: bool)
  datatype AuthorityOutcome = AuthorityRaised(recorded: bool) | Malformed(recorded: bool)
                            | Answered(outcome: ClaimOutcome, recorded: bool)

  /**
   A reader. A faithful one delivers `incoming` in order, in nonempty blocks of its own choosing no
   longer than asked; any other reader may do anything.
   */
  class Reader {
    const faithful: bool
    var incoming: bytes

    constructor (faithful: bool, incoming: bytes)
      ensures this.faithful == faithful && this.incoming == incoming
    {
      this.faithful := faithful;
      this.incoming := incoming;
    }

    method Ask(count: nat) returns (o: ReadOutcome)
      requires count > 0
      modifies this
      ensures faithful ==>
        && o.Block? && |o.data| <= count && o.data + incoming == old(incoming)
        && (o.data == [] <==> old(incoming) == [])
    {
      o := *;
      if faithful {
        if incoming == [] {
          return Block([]);
        }
        var k :| 0 < k <= count && k <= |incoming|;
        o := Block(incoming[..k]);
        assert incoming == incoming[..k] + incoming[k..];
        incoming := incoming[k..];
      } else {
        incoming := *;
      }
    }
  }

  /**
   A session's guard together with the record of everything it did on its channels, and whether some
   collaborator has yet made trouble: a clock that fails or goes backwards, a writer that does not take
   the whole of what it is given, a closer that does not close, an authority that does not say CLAIMED,
   a sink that refuses.
   */
  class Wire {
    const guard: MonotonicGuard
    ghost var labels: seq<Label>
    ghost var trouble: bool

    constructor (guard: MonotonicGuard)
      ensures this.guard == guard && labels == [] && !trouble
    {
      this.guard := guard;
      labels := [];
      trouble := false;
    }

    ghost method Note(l: Label)
      modifies this`labels
      ensures labels == old(labels) + [l]
    {
      labels := labels + [l];
    }
  }

  method ReadClock(w: Wire) returns (reading: ClockReading)
    modifies w`trouble
    ensures w.trouble == (old(w.trouble) || !w.guard.Takes(reading))
  {
    reading := *;
    w.trouble := w.trouble || !w.guard.Takes(reading);
  }

  /** What a writer may do with data; a writer that reports a count has taken that many octets. */
  method AskWriter(w: Wire, data: bytes) returns (o: WriteOutcome)
    modifies w`trouble
    ensures o.part <= data
    ensures o.Reported? && o.count.Some? ==> o.count.value == |o.part|
    ensures w.trouble == (old(w.trouble) || !o.Reported? || o.count != Some(|data|))
  {
    var k :| 0 <= k <= |data|;
    var raised: bool := *;
    var reportsInteger: bool := *;
    o := if raised then WriteRaised(data[..k])
         else Reported(data[..k], if reportsInteger then Some(k) else None);
    w.trouble := w.trouble || !o.Reported? || o.count != Some(|data|);
  }

  method AskCloser(w: Wire) returns (o: CloseOutcome)
    modifies w`trouble
    ensures w.trouble == (old(w.trouble) || !o.ReportedClosed?)
  {
    o := *;
    w.trouble := w.trouble || !o.ReportedClosed?;
  }

  /** A claim authority that answers CLAIMED has recorded the claim; it may also record and then fail. */
  method AskAuthority(w: Wire) returns (o: AuthorityOutcome)
    modifies w`trouble
    ensures o.Answered? && o.outcome == Claimed ==> o.recorded
    ensures w.trouble == (old(w.trouble) || !o.Answered? || o.outcome != Claimed)
  {
    o := *;
    if o.Answered? && o.outcome == Claimed {
      o := Answered(Claimed, true);
    }
    w.trouble := w.trouble || !o.Answered? || o.outcome != Claimed;
  }

  method AskSink(w: Wire, chunk: bytes) returns (accepted: bool)
    modifies w`trouble
    ensures w.trouble == (old(w.trouble) || !accepted)
  {
    accepted := *;
    w.trouble := w.trouble || !accepted;
  }

  ghost predicate AllReads(steps: seq<Label>) {
    forall i :: 0 <= i < |steps| ==> steps[i].Read? && steps[i].block != []
  }

  ghost function Joined(steps: seq<Label>): bytes
    requires AllReads(steps)
  {
    if steps == [] then [] else Joined(steps[..|steps| - 1]) + steps[|steps| - 1].block
  }

  /** A label that ends an exact read which still wanted `wanted` octets. */
  ghost predicate BreaksRead(l: Label, wanted: nat) {
    l.Late? || l.ReadBroke? || (l.Read? && (l.block == [] || |l.block| > wanted))
  }

  ghost predicate ExactRead(steps: seq<Label>, count: nat, result: Option<bytes>) {
    match result
    case Some(data) => AllReads(steps) && Joined(steps) == data && |data| == count
    case None =>
      var n := |steps| - 1;
      && n >= 0 && AllReads(steps[..n]) && |Joined(steps[..n])| < count
      && BreaksRead(steps[n], count - |Joined(steps[..n])|)
  }

  lemma ReadAppends(steps: seq<Label>, l: Label)
    requires AllReads(steps) && l.Read? && l.block != []
    ensures AllReads(steps + [l]) && Joined(steps + [l]) == Joined(steps) + l.block
  {
    assert (steps + [l])[..|steps|] == steps;
  }

  lemma EmptyReads()
    ensures AllReads([]) && Joined([]) == []
  {
  }

  lemma CompleteRead(steps: seq<Label>, count: nat)
    requires AllReads(steps) && |Joined(steps)| == count
    ensures ExactRead(steps, count, Some(Joined(steps)))
  {
  }

  lemma ReadBreaks(steps: seq<Label>, l: Label, count: nat)
    requires AllReads(steps) && |Joined(steps)| < count && BreaksRead(l, count - |Joined(steps)|)
    ensures ExactRead(steps + [l], count, None)
  {
    assert (steps + [l])[..|steps|] == steps;
  }

  lemma SuffixOfAppend<T>(x: seq<T>, y: seq<T>)
    ensures x <= x + y && (x + y)[|x|..] == y
  {
  }

  /** The guard's last accepted reading is strictly before the deadline. */
  ghost predicate InTime(guard: MonotonicGuard, deadline: Deadline)
    reads guard
  {
    guard.last.Some? && guard.last.value < deadline.expiresAt
  }

  /** Two deadline checks passed for each call, the one before and the one after it. */
  predicate CheckedAround(checks: int, calls: int) { checks == 2 * calls }

  /** The last of some readings is strictly before the one at `first` plus so many seconds. */
  predicate Beats(accepted: seq<real>, first: nat, seconds: int) {
    first < |accepted| && accepted[|accepted| - 1] < accepted[first] + seconds as real
  }

  /** It is at or after the absolute deadline, or at or after the one at `first` plus so many seconds. */
  predicate Passed(accepted: seq<real>, first: nat, seconds: int, absolute: real) {
    accepted != []
    && (accepted[|accepted| - 1] >= absolute
        || (first < |accepted| && accepted[|accepted| - 1] >= accepted[first] + seconds as real))
  }

  /** Whichever comes first of so many seconds from `start` and the absolute deadline. */
  predicate PhaseFrom(expires: real, start: real, seconds: int, absolute: real) {
    expires == if start + seconds as real <= absolute then start + seconds as real else absolute
  }

  lemma PhaseTiming(accepted: seq<real>, first: nat, seconds: int, absolute: real, expires: real)
    requires first < |accepted| && PhaseFrom(expires, accepted[first], seconds, absolute)
    ensures accepted[|accepted| - 1] < expires ==>
              Beats(accepted, first, seconds) && accepted[|accepted| - 1] < absolute
    ensures accepted[|accepted| - 1] >= expires ==> Passed(accepted, first, seconds, absolute)
  {
  }

  /** An excuse for giving up: some collaborator made trouble, or the deadline has passed. */
  ghost predicate Excused(w: Wire, deadline: Deadline)
    reads w, w.guard
  {
    w.trouble || deadline.guard != w.guard
    || (w.guard.last.Some? && w.guard.last.value >= deadline.expiresAt)
  }

  lemma LastIsLast(w: Wire, deadline: Deadline)
    requires w.guard.Valid() && deadline.guard == w.guard
    ensures InTime(w.guard, deadline) <==>
      w.guard.accepted != [] && w.guard.accepted[|w.guard.accepted| - 1] < deadline.expiresAt
    ensures Excused(w, deadline) <==>
      w.trouble || (w.guard.accepted != [] && w.guard.accepted[|w.guard.accepted| - 1] >= deadline.expiresAt)
  {
  }

  method CheckDeadline(w: Wire, deadline: Deadline) returns (ok: bool)
    requires w.guard.Valid()
    modifies w`trouble, w.guard
    ensures w.guard.Valid() && old(w.guard.accepted) <= w.guard.accepted && (old(w.trouble) ==> w.trouble)
    ensures !ok ==> Excused(w, deadline)
    ensures ok ==> InTime(w.guard, deadline) && |w.guard.accepted| == |old(w.guard.accepted)| + 1
  {
    var reading := ReadClock(w);
    ok := RequireBefore(w.guard, deadline, reading);
  }

  method ReadExact(w: Wire, reader: Reader, deadline: Deadline, count: nat) returns (result: Option<bytes>)
    requires w.guard.Valid()
    modifies w, w.guard, reader
    ensures w.guard.Valid() && old(w.guard.accepted) <= w.guard.accepted
    ensures old(w.labels) <= w.labels
    ensures ExactRead(w.labels[|old(w.labels)|..], count, result)
    ensures result.Some? && count > 0 ==> InTime(w.guard, deadline)
    ensures result.Some? ==> CheckedAround(|w.guard.accepted| - |old(w.guard.accepted)|, |w.labels| - |old(w.labels)|)
    ensures reader.faithful && result.Some? ==> result.value + reader.incoming == old(reader.incoming)
    ensures reader.faithful && result.None? ==> Excused(w, deadline) || |old(reader.incoming)| < count
    ensures old(w.trouble) ==> w.trouble
    ensures count == 0 ==> w.guard.accepted == old(w.guard.accepted)
  {
    hide ExactRead, Joined, AllReads;
    EmptyReads();
    var got: bytes := [];
    ghost var steps: seq<Label> := [];
    while |got| < count
      invariant w.guard.Valid() && old(w.guard.accepted) <= w.guard.accepted
      invariant w.labels == old(w.labels) + steps && (old(w.trouble) ==> w.trouble)
      invariant AllReads(steps) && Joined(steps) == got && |got| <= count
      invariant |got| > 0 ==> InTime(w.guard, deadline)
      invariant CheckedAround(|w.guard.accepted| - |old(w.guard.accepted)|, |steps|)
      invariant reader.faithful ==> got + reader.incoming == old(reader.incoming)
      invariant count == 0 ==> w.guard.accepted == old(w.guard.accepted)
      decreases count - |got|
    {
      var before := CheckDeadline(w, deadline);
      if !before {
        w.Note(Late);
        ReadBreaks(steps, Late, count);
        assert w.labels == old(w.labels) + (steps + [Late]);
        SuffixOfAppend(old(w.labels), steps + [Late]);
        return None;
      }
      var o := reader.Ask(count - |got|);
      var after := CheckDeadline(w, deadline);
      ghost var seen := match o
        case ReadRaised(lost) => ReadBroke(lost)
        case NotBytes(consumed) => ReadBroke(consumed)
        case Block(data) => if after then Read(data) else ReadBroke(data);
      w.Note(seen);
      if !o.Block? || !after || o.data == [] || |o.data| > count - |got| {
        ReadBreaks(steps, seen, count);
        assert w.labels == old(w.labels) + (steps + [seen]);
        SuffixOfAppend(old(w.labels), steps + [seen]);
        return None;
      }
      ReadAppends(steps, seen);
      steps := steps + [seen];
      got := got + o.data;
    }
    CompleteRead(steps, count);
    SuffixOfAppend(old(w.labels), steps);
    return Some(got);
  }

  /** One write call: complete and in time, or broken. */
  method WriteWhole(w: Wire, deadline: Deadline, data: bytes) returns (ok: bool)
    requires w.guard.Valid()
    modifies w, w.guard
    ensures w.guard.Valid() && old(w.guard.accepted) <= w.guard.accepted
    ensures ok ==> w.labels == old(w.labels) + [Wrote(data)] && InTime(w.guard, deadline)
    ensures ok ==> CheckedAround(|w.guard.accepted| - |old(w.guard.accepted)|, 1)
    ensures !ok ==> exists l :: w.labels == old(w.labels) + [l]
                                && (l.Late? || (l.WriteBroke? && l.part <= data))
    ensures (old(w.trouble) ==> w.trouble) && (!ok ==> Excused(w, deadline))
  {
    var before := CheckDeadline(w, deadline);
    if !before {
      w.Note(Late);
      return false;
    }
    var o := AskWriter(w, data);
    var after := CheckDeadline(w, deadline);
    if !after || !o.Reported? || o.count != Some(|data|) {
      w.Note(WriteBroke(o.part));
      return false;
    }
    w.Note(Wrote(data));
    return true;
  }

  /** Writes the calls of one frame in order and stops at the first that breaks. */
  method WriteAll(w: Wire, deadline: Deadline, calls: seq<bytes>) returns (ok: bool)
    requires w.guard.Valid() && calls != []
    modifies w, w.guard
    ensures w.guard.Valid() && old(w.guard.accepted) <= w.guard.accepted
    ensures old(w.labels) <= w.labels
    ensures FrameWritten(w.labels[|old(w.labels)|..], calls, ok)
    ensures (old(w.trouble) ==> w.trouble) && (!ok ==> Excused(w, deadline))
    ensures ok ==> InTime(w.guard, deadline)
    ensures ok ==> CheckedAround(|w.guard.accepted| - |old(w.guard.accepted)|, |calls|)
  {
    var k := 0;
    while k < |calls|
      invariant 0 <= k <= |calls|
      invariant w.guard.Valid() && old(w.guard.accepted) <= w.guard.accepted
      invariant w.labels == old(w.labels) + AllWrote(calls[..k]) && (old(w.trouble) ==> w.trouble)
      invariant k > 0 ==> InTime(w.guard, deadline)
      invariant CheckedAround(|w.guard.accepted| - |old(w.guard.accepted)|, k)
    {
      var done := WriteWhole(w, deadline, calls[k]);
      if !done {
        ghost var l :| w.labels == old(w.labels) + AllWrote(calls[..k]) + [l]
                       && (l.Late? || (l.WriteBroke? && l.part <= calls[k]));
        assert w.labels[|old(w.labels)|..] == AllWrote(calls[..k]) + [l];
        return false;
      }
      assert AllWrote(calls[..k + 1]) == AllWrote(calls[..k]) + [Wrote(calls[k])];
      k := k + 1;
    }
    assert calls[..k] == calls;
    assert w.labels[|old(w.labels)|..] == AllWrote(calls);
    return true;
  }

  ghost function AllWrote(calls: seq<bytes>): seq<Label> {
    seq(|calls|, i requires 0 <= i < |calls| => Wrote(calls[i]))
  }

  ghost predicate FrameWritten(steps: seq<Label>, calls: seq<bytes>, ok: bool) {
    if ok then steps == AllWrote(calls)
    else exists k, l :: 0 <= k < |calls| && steps == AllWrote(calls[..k]) + [l]
                        && (l.Late? || (l.WriteBroke? && l.part <= calls[k]))
  }

  /** The steps of one frame read: ten header octets, the header's verdict, then the payload. */
  ghost predicate FrameRead(steps: seq<Label>, t: FrameType, limit: nat, result: Option<bytes>) {
    exists k :: 0 <= k <= |steps| && FrameReadAt(steps[..k], steps[k..], t, limit, result)
  }

  ghost predicate FrameReadAt(
      head: seq<Label>, tail: seq<Label>, t: FrameType, limit: nat, result: Option<bytes>)
  {
    if ExactRead(head, HEADER_BYTES, None) then tail == [] && result == None
    else
      && AllReads(head) && |Joined(head)| == HEADER_BYTES
      && match ParseHeader(Joined(head), t, limit)
         case None => tail == [] && result == None
         case Some(n) => ExactRead(tail, n, result)
  }

  lemma FrameReadParts(
      head: seq<Label>, tail: seq<Label>, t: FrameType, limit: nat, result: Option<bytes>)
    requires FrameReadAt(head, tail, t, limit, result)
    ensures FrameRead(head + tail, t, limit, result)
  {
    assert (head + tail)[..|head|] == head && (head + tail)[|head|..] == tail;
  }

  /** How a stream that begins with h, and then p, decodes. */
  lemma DecodeFromHeader(stream: bytes, h: bytes, after: bytes, t: FrameType, limit: nat)
    requires |h| == HEADER_BYTES && stream == h + after
    ensures Decode(stream, t, limit) ==
      match ParseHeader(h, t, limit)
      case None => HeaderRefused(after)
      case Some(n) => if |after| < n then Short else Whole(after[..n], after[n..])
  {
    hide ParseHeader;
    assert stream[..HEADER_BYTES] == h && stream[HEADER_BYTES..] == after;
    match ParseHeader(h, t, limit)
    case None =>
    case Some(n) =>
      if n <= |after| {
        assert stream[HEADER_BYTES..HEADER_BYTES + n] == after[..n];
        assert stream[HEADER_BYTES + n..] == after[n..];
      }
  }

  method ReadFrame(w: Wire, reader: Reader, deadline: Deadline, t: FrameType, limit: nat)
    returns (payload: Option<bytes>)
    requires w.guard.Valid()
    modifies w, w.guard, reader
    ensures w.guard.Valid() && old(w.guard.accepted) <= w.guard.accepted
    ensures old(w.labels) <= w.labels
    ensures FrameRead(w.labels[|old(w.labels)|..], t, limit, payload)
    ensures payload.Some? ==> InTime(w.guard, deadline)
    ensures old(w.trouble) ==> w.trouble
    ensures reader.faithful && (payload.None? ==> !Excused(w, deadline)) ==>
      match Decode(old(reader.incoming), t, limit)
      case Whole(p, rest) => payload == Some(p) && reader.incoming == rest
      case HeaderRefused(rest) => payload == None && reader.incoming == rest
      case Short => payload == None
  {
    hide Joined, AllReads, ParseHeader, FrameRead, ExactRead, Decode, Excused;
    payload := None;
    var header := ReadExact(w, reader, deadline, HEADER_BYTES);
    ghost var middle, after := w.labels, reader.incoming;
    ghost var head, tail := middle[|old(w.labels)|..], [];
    if header.None? {
      ShortStream(old(reader.incoming), t, limit);
    } else {
      NotBoth(head, HEADER_BYTES, header.value);
      if reader.faithful {
        DecodeFromHeader(old(reader.incoming), header.value, after, t, limit);
      }
    }
    var length := if header.None? then None else ParseHeader(header.value, t, limit);
    if length.Some? {
      payload := ReadExact(w, reader, deadline, length.value);
      tail := w.labels[|middle|..];
      if reader.faithful && payload.Some? {
        NotBoth(tail, length.value, payload.value);
        TakenOff(after, payload.value, reader.incoming);
      }
    }
    SuffixOfSuffix(old(w.labels), middle, w.labels);
    FrameReadParts(head, tail, t, limit, payload);
  }

  lemma SuffixOfSuffix(x: seq<Label>, y: seq<Label>, z: seq<Label>)
    requires x <= y <= z
    ensures z[|x|..] == y[|x|..] + z[|y|..]
  {
  }

  lemma ShortStream(stream: bytes, t: FrameType, limit: nat)
    ensures |stream| < HEADER_BYTES ==> Decode(stream, t, limit) == Short
  {
  }

  lemma TakenOff(whole: bytes, front: bytes, rest: bytes)
    requires front + rest == whole
    ensures |front| <= |whole| && whole[..|front|] == front && whole[|front|..] == rest
  {
  }

  /** Frames of the given types one after another; the first that cannot be read ends it. */
  method ReadMessages(
      w: Wire, reader: Reader, deadline: Deadline, types: seq<FrameType>, maxMetadata: nat, maxChunk: nat)
    returns (messages: Option<seq<Message>>)
    requires w.guard.Valid()
    modifies w, w.guard, reader
    ensures w.guard.Valid() && old(w.labels) <= w.labels
    ensures messages.Some? ==> |messages.value| == |types|
    ensures old(w.trouble) ==> w.trouble
    ensures reader.faithful && (messages.None? ==> !Excused(w, deadline)) ==>
      match DecodeAll(old(reader.incoming), types, maxMetadata, maxChunk)
      case Some((decoded, rest)) => messages == Some(decoded) && reader.incoming == rest
      case None => messages == None
  {
    hide FrameRead, Decode, DecodeAll, ParseHeader, MessageOf, LimitOf;
    var got: seq<Message> := [];
    AfterNothing(DecodeAll(reader.incoming, types, maxMetadata, maxChunk));
    ghost var stream := reader.incoming;
    assert types[0..] == types;
    for k := 0 to |types|
      invariant w.guard.Valid() && old(w.labels) <= w.labels && |got| == k && (old(w.trouble) ==> w.trouble)
      invariant reader.faithful ==>
        DecodeAll(stream, types, maxMetadata, maxChunk)
        == After(got, DecodeAll(reader.incoming, types[k..], maxMetadata, maxChunk))
    {
      ghost var ahead := reader.incoming;
      var payload := ReadFrame(w, reader, deadline, types[k], LimitOf(types[k], maxMetadata, maxChunk));
      if payload.None? {
        DecodeStep(ahead, types[k..], maxMetadata, maxChunk);
        return None;
      }
      DecodeStep(ahead, types[k..], maxMetadata, maxChunk);
      var message := MessageOf(types[k], payload.value);
      if message.None? {
        return None;
      }
      assert types[k..][1..] == types[k + 1..] && types[k..][0] == types[k];
      AfterOneMore(got, message.value, DecodeAll(reader.incoming, types[k + 1..], maxMetadata, maxChunk));
      got := got + [message.value];
    }
    assert types[|types|..] == [];
    DecodeNothing(reader.incoming, maxMetadata, maxChunk);
    return Some(got);
  }

  /** Messages already decoded, in front of the rest of the decoding. */
  function After(got: seq<Message>, rest: Option<(seq<Message>, bytes)>): Option<(seq<Message>, bytes)> {
    if rest.None? then None else Some((got + rest.value.0, rest.value.1))
  }

  lemma AfterNothing(rest: Option<(seq<Message>, bytes)>)
    ensures After([], rest) == rest
  {
    if rest.Some? {
      assert [] + rest.value.0 == rest.value.0;
    }
  }

  lemma DecodeNothing(stream: bytes, maxMetadata: nat, maxChunk: nat)
    ensures forall got :: After(got, DecodeAll(stream, [], maxMetadata, maxChunk)) == Some((got, stream))
  {
    forall got ensures After(got, DecodeAll(stream, [], maxMetadata, maxChunk)) == Some((got, stream)) {
      assert got + [] == got;
    }
  }

  lemma DecodeStep(stream: bytes, types: seq<FrameType>, maxMetadata: nat, maxChunk: nat)
    requires types != []
    ensures var d := Decode(stream, types[0], LimitOf(types[0], maxMetadata, maxChunk));
            DecodeAll(stream, types, maxMetadata, maxChunk) ==
              if !d.Whole? || MessageOf(types[0], d.payload).None? then None
              else After([MessageOf(types[0], d.payload).value], DecodeAll(d.rest, types[1..], maxMetadata, maxChunk))
  {
    hide Decode, MessageOf, LimitOf;
  }

  lemma AfterOneMore(got: seq<Message>, m: Message, rest: Option<(seq<Message>, bytes)>)
    ensures After(got, After([m], rest)) == After(got + [m], rest)
  {
    if rest.Some? {
      assert got + ([m] + rest.value.0) == got + [m] + rest.value.0;
    }
  }

  /**
   Whatever in-limit messages were written, a faithful reader gets exactly them back and leaves what
   comes after them, however it cuts its blocks, unless a deadline passes.
   */
  method ReadBack(
      w: Wire, reader: Reader, deadline: Deadline, types: seq<FrameType>, maxMetadata: nat, maxChunk: nat,
      ghost written: seq<Message>, ghost tail: bytes)
    returns (messages: Option<seq<Message>>)
    requires w.guard.Valid() && reader.faithful
    requires maxMetadata < 0x1_0000_0000 && maxChunk < 0x1_0000_0000 - 2
    requires forall m :: m in written ==> InLimit(m, maxMetadata, maxChunk)
    requires types == Types(written) && reader.incoming == EncodeAll(written, maxMetadata, maxChunk) + tail
    modifies w, w.guard, reader
    ensures w.guard.Valid() && old(w.labels) <= w.labels
    ensures messages == Some(written) || (messages == None && Excused(w, deadline))
    ensures messages.Some? ==> reader.incoming == tail
  {
    hide DecodeAll, EncodeAll;
    RoundTrip(written, tail, maxMetadata, maxChunk);
    messages := ReadMessages(w, reader, deadline, types, maxMetadata, maxChunk);
  }

  lemma NotBoth(steps: seq<Label>, count: nat, data: bytes)
    requires ExactRead(steps, count, Some(data))
    ensures !ExactRead(steps, count, None)
    ensures AllReads(steps) && Joined(steps) == data && |data| == count
  {
  }
}

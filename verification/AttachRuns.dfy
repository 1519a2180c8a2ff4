/** Folding recorded labels through the two transition functions. */
module AttachRuns {
  import opened Bytes
  import opened Frames
  import opened AttachProgram
  import opened AttachWire

  // The daemon --------------------------------------------------------------

  ghost function RunD(a: Authorization, d: Daemon, ls: seq<Label>): Option<Daemon> {
    if ls == [] then Some(d)
    else
      var n := |ls| - 1;
      match RunD(a, d, ls[..n])
      case None => None
      case Some(e) => DaemonStep(a, e, ls[n])
  }

  lemma {:induction false} RunDAppend(a: Authorization, d: Daemon, x: seq<Label>, y: seq<Label>)
    requires RunD(a, d, x).Some?
    ensures RunD(a, d, x + y) == RunD(a, RunD(a, d, x).value, y)
  {
    hide DaemonStep;
    if y == [] {
      assert x + y == x;
    } else {
      var n := |y| - 1;
      RunDAppend(a, d, x, y[..n]);
      assert (x + y)[..|x| + n] == x + y[..n];
    }
  }

  lemma RunDOne(a: Authorization, d: Daemon, l: Label)
    ensures RunD(a, d, [l]) == DaemonStep(a, d, l)
  {
    hide DaemonStep;
    assert [l][..0] == [];
  }

  lemma ProgressOfPart(t: FrameType, limit: nat, buffer: bytes, part: bytes)
    requires FrameProgress(t, limit, buffer).More?
    requires |part| < FrameProgress(t, limit, buffer).wanted
    ensures FrameProgress(t, limit, buffer + part)
         == More(FrameProgress(t, limit, buffer).wanted - |part|)
  {
    hide ParseHeader;
    if |buffer| >= HEADER_BYTES {
      assert (buffer + part)[..HEADER_BYTES] == buffer[..HEADER_BYTES];
    }
  }

  lemma {:induction false} DaemonFeeds(
      a: Authorization, d: Daemon, t: FrameType, buffer: bytes, steps: seq<Label>)
    requires d.act == Reading(t, buffer) && FrameProgress(t, a.limits.maxMetadata, buffer).More?
    requires AllReads(steps) && |Joined(steps)| <= FrameProgress(t, a.limits.maxMetadata, buffer).wanted
    ensures RunD(a, d, steps) == Some(
      if |Joined(steps)| < FrameProgress(t, a.limits.maxMetadata, buffer).wanted
      then d.(act := Reading(t, buffer + Joined(steps)))
      else ReadD(a, d, t, buffer + Joined(steps)))
  {
    hide FrameProgress;
    if steps == [] {
      assert buffer + [] == buffer;
    } else {
      var n := |steps| - 1;
      var part := Joined(steps[..n]);
      DaemonFeeds(a, d, t, buffer, steps[..n]);
      ProgressOfPart(t, a.limits.maxMetadata, buffer, part);
      assert buffer + part + steps[n].block == buffer + Joined(steps);
      if |Joined(steps)| < FrameProgress(t, a.limits.maxMetadata, buffer).wanted {
        ProgressOfPart(t, a.limits.maxMetadata, buffer, Joined(steps));
      }
    }
  }

  lemma DaemonExactRead(
      a: Authorization, d: Daemon, t: FrameType, buffer: bytes, steps: seq<Label>, result: Option<bytes>)
    requires d.act == Reading(t, buffer) && FrameProgress(t, a.limits.maxMetadata, buffer).More?
    requires ExactRead(steps, FrameProgress(t, a.limits.maxMetadata, buffer).wanted, result)
    ensures RunD(a, d, steps) == Some(
      if result.Some? then ReadD(a, d, t, buffer + result.value) else FailD(d))
  {
    hide FrameProgress, ReadD, Joined;
    if result.Some? {
      DaemonFeeds(a, d, t, buffer, steps);
    } else {
      var n := |steps| - 1;
      DaemonFeeds(a, d, t, buffer, steps[..n]);
      ProgressOfPart(t, a.limits.maxMetadata, buffer, Joined(steps[..n]));
      assert steps == steps[..n] + [steps[n]];
    }
  }

  /** A frame read takes the daemon to acceptance or failure, whatever the reader did. */
  lemma DaemonReadsFrame(
      a: Authorization, d: Daemon, t: FrameType, steps: seq<Label>, result: Option<bytes>)
    requires d.act == Reading(t, []) && FrameRead(steps, t, a.limits.maxMetadata, result)
    ensures RunD(a, d, steps) == Some(if result.Some? then AcceptD(a, d, t, result.value) else FailD(d))
  {
    hide ParseHeader, Joined, RunD, ReadD, AcceptD, ExactRead, FrameProgress;
    var limit := a.limits.maxMetadata;
    var k :| 0 <= k <= |steps| && FrameReadAt(steps[..k], steps[k..], t, limit, result);
    var head, tail := steps[..k], steps[k..];
    assert steps == head + tail;
    NothingYet(t, limit);
    if ExactRead(head, HEADER_BYTES, None) {
      DaemonExactRead(a, d, t, [], head, None);
      assert steps == head;
    } else {
      var h := Joined(head);
      HeaderTaken(head);
      DaemonExactRead(a, d, t, [], head, Some(h));
      assert [] + h == h;
      RunDAppend(a, d, head, tail);
      DaemonReadsPayload(a, d, t, h, tail, result);
      if ParseHeader(h, t, limit).None? {
        assert steps == head;
      }
    }
  }

  lemma DaemonReadsPayload(
      a: Authorization, d: Daemon, t: FrameType, h: bytes, tail: seq<Label>, result: Option<bytes>)
    requires d.act == Reading(t, []) && |h| == HEADER_BYTES
    requires match ParseHeader(h, t, a.limits.maxMetadata)
             case None => tail == [] && result == None
             case Some(n) => ExactRead(tail, n, result)
    ensures RunD(a, ReadD(a, d, t, h), tail)
         == Some(if result.Some? then AcceptD(a, d, t, result.value) else FailD(d))
  {
    hide ParseHeader, ExactRead, Joined;
    assert h[..HEADER_BYTES] == h;
    match ParseHeader(h, t, a.limits.maxMetadata)
    case None =>
    case Some(n) =>
      if n == 0 {
        EmptyExactRead(tail, result);
        assert h[HEADER_BYTES..] == [];
      } else {
        DaemonExactRead(a, ReadD(a, d, t, h), t, h, tail, result);
        if result.Some? {
          ExactLength(tail, n, result.value);
          assert (h + result.value)[..HEADER_BYTES] == h && (h + result.value)[HEADER_BYTES..] == result.value;
        }
      }
  }

  lemma NothingYet(t: FrameType, limit: nat)
    ensures FrameProgress(t, limit, []) == More(HEADER_BYTES)
  {
  }

  lemma HeaderTaken(head: seq<Label>)
    requires AllReads(head) && |Joined(head)| == HEADER_BYTES
    ensures ExactRead(head, HEADER_BYTES, Some(Joined(head)))
  {
  }

  lemma ExactLength(steps: seq<Label>, n: nat, data: bytes)
    requires ExactRead(steps, n, Some(data))
    ensures |data| == n
  {
  }

  lemma EmptyExactRead(steps: seq<Label>, result: Option<bytes>)
    requires ExactRead(steps, 0, result)
    ensures steps == [] && result == Some([])
  {
    if result.Some? {
      JoinedIsLonger(steps);
    }
  }

  lemma {:induction false} JoinedIsLonger(steps: seq<Label>)
    requires AllReads(steps)
    ensures |Joined(steps)| >= |steps|
  {
    if steps != [] {
      JoinedIsLonger(steps[..|steps| - 1]);
    }
  }

  lemma {:induction false} DaemonSends(
      a: Authorization, d: Daemon, calls: seq<bytes>, next: SessionState, k: nat)
    requires calls != [] && d.act == Writing(calls, next) && k <= |calls|
    ensures RunD(a, d, AllWrote(calls[..k])) == Some(
      if k < |calls| then d.(act := Writing(calls[k..], next)) else d.(state := next, act := Idle))
  {
    if k == 0 {
      assert calls[0..] == calls;
    } else {
      DaemonSends(a, d, calls, next, k - 1);
      var sent := AllWrote(calls[..k]);
      assert sent[..k - 1] == AllWrote(calls[..k - 1]);
      assert calls[k - 1..][1..] == calls[k..];
    }
  }

  /** A frame write either completes every call or takes the daemon to failure. */
  lemma DaemonWritesFrame(
      a: Authorization, d: Daemon, calls: seq<bytes>, next: SessionState, steps: seq<Label>, ok: bool)
    requires calls != [] && d.act == Writing(calls, next) && FrameWritten(steps, calls, ok)
    ensures RunD(a, d, steps) == Some(if ok then d.(state := next, act := Idle) else FailD(d))
  {
    hide RunD;
    if ok {
      DaemonSends(a, d, calls, next, |calls|);
      assert calls[..|calls|] == calls;
    } else {
      var k, l :| 0 <= k < |calls| && steps == AllWrote(calls[..k]) + [l]
                  && (l.Late? || (l.WriteBroke? && l.part <= calls[k]));
      DaemonSends(a, d, calls, next, k);
      RunDAppend(a, d, AllWrote(calls[..k]), [l]);
      RunDOne(a, RunD(a, d, AllWrote(calls[..k])).value, l);
    }
  }

  // The wrapper -------------------------------------------------------------

  ghost function RunW(a: Authorization, w: Wrapper, ls: seq<Label>): Option<Wrapper> {
    if ls == [] then Some(w)
    else
      var n := |ls| - 1;
      match RunW(a, w, ls[..n])
      case None => None
      case Some(e) => WrapperStep(a, e, ls[n])
  }

  lemma {:induction false} RunWAppend(a: Authorization, w: Wrapper, x: seq<Label>, y: seq<Label>)
    requires RunW(a, w, x).Some?
    ensures RunW(a, w, x + y) == RunW(a, RunW(a, w, x).value, y)
  {
    hide WrapperStep;
    if y == [] {
      assert x + y == x;
    } else {
      var n := |y| - 1;
      RunWAppend(a, w, x, y[..n]);
      assert (x + y)[..|x| + n] == x + y[..n];
    }
  }

  lemma RunWOne(a: Authorization, w: Wrapper, l: Label)
    ensures RunW(a, w, [l]) == WrapperStep(a, w, l)
  {
    hide WrapperStep;
    assert [l][..0] == [];
  }

  lemma {:induction false} WrapperFeeds(
      a: Authorization, w: Wrapper, t: FrameType, buffer: bytes, steps: seq<Label>)
    requires w.act == Reading(t, buffer) && FrameProgress(t, LimitW(a, t), buffer).More?
    requires AllReads(steps) && |Joined(steps)| <= FrameProgress(t, LimitW(a, t), buffer).wanted
    ensures RunW(a, w, steps) == Some(
      if |Joined(steps)| < FrameProgress(t, LimitW(a, t), buffer).wanted
      then w.(act := Reading(t, buffer + Joined(steps)))
      else ReadW(a, w, t, buffer + Joined(steps)))
  {
    hide FrameProgress, ChunkOk;
    if steps == [] {
      assert buffer + [] == buffer;
    } else {
      var n := |steps| - 1;
      WrapperFeeds(a, w, t, buffer, steps[..n]);
      ProgressOfPart(t, LimitW(a, t), buffer, Joined(steps[..n]));
      assert buffer + Joined(steps[..n]) + steps[n].block == buffer + Joined(steps);
      if |Joined(steps)| < FrameProgress(t, LimitW(a, t), buffer).wanted {
        ProgressOfPart(t, LimitW(a, t), buffer, Joined(steps));
      }
    }
  }

  lemma WrapperExactRead(
      a: Authorization, w: Wrapper, t: FrameType, buffer: bytes, steps: seq<Label>, result: Option<bytes>)
    requires w.act == Reading(t, buffer) && FrameProgress(t, LimitW(a, t), buffer).More?
    requires ExactRead(steps, FrameProgress(t, LimitW(a, t), buffer).wanted, result)
    ensures RunW(a, w, steps) == Some(
      if result.Some? then ReadW(a, w, t, buffer + result.value) else FailW(w))
  {
    hide FrameProgress, ReadW, Joined, ChunkOk;
    if result.Some? {
      WrapperFeeds(a, w, t, buffer, steps);
    } else {
      var n := |steps| - 1;
      WrapperFeeds(a, w, t, buffer, steps[..n]);
      ProgressOfPart(t, LimitW(a, t), buffer, Joined(steps[..n]));
      assert steps == steps[..n] + [steps[n]];
    }
  }

  lemma WrapperReadsFrame(
      a: Authorization, w: Wrapper, t: FrameType, steps: seq<Label>, result: Option<bytes>)
    requires w.act == Reading(t, []) && FrameRead(steps, t, LimitW(a, t), result)
    ensures RunW(a, w, steps) == Some(if result.Some? then AcceptW(a, w, t, result.value) else FailW(w))
  {
    hide ParseHeader, Joined, RunW, ReadW, AcceptW, LimitW, ExactRead, FrameProgress;
    var limit := LimitW(a, t);
    var k :| 0 <= k <= |steps| && FrameReadAt(steps[..k], steps[k..], t, limit, result);
    var head, tail := steps[..k], steps[k..];
    assert steps == head + tail;
    NothingYet(t, limit);
    if ExactRead(head, HEADER_BYTES, None) {
      WrapperExactRead(a, w, t, [], head, None);
      assert steps == head;
    } else {
      var h := Joined(head);
      HeaderTaken(head);
      WrapperExactRead(a, w, t, [], head, Some(h));
      assert [] + h == h;
      RunWAppend(a, w, head, tail);
      WrapperReadsPayload(a, w, t, h, tail, result);
      if ParseHeader(h, t, limit).None? {
        assert steps == head;
      }
    }
  }

  lemma WrapperReadsPayload(
      a: Authorization, w: Wrapper, t: FrameType, h: bytes, tail: seq<Label>, result: Option<bytes>)
    requires w.act == Reading(t, []) && |h| == HEADER_BYTES
    requires match ParseHeader(h, t, LimitW(a, t))
             case None => tail == [] && result == None
             case Some(n) => ExactRead(tail, n, result)
    ensures RunW(a, ReadW(a, w, t, h), tail)
         == Some(if result.Some? then AcceptW(a, w, t, result.value) else FailW(w))
  {
    hide ParseHeader, ExactRead, Joined;
    assert h[..HEADER_BYTES] == h;
    match ParseHeader(h, t, LimitW(a, t))
    case None =>
    case Some(n) =>
      if n == 0 {
        EmptyExactRead(tail, result);
        assert h[HEADER_BYTES..] == [];
      } else {
        WrapperExactRead(a, ReadW(a, w, t, h), t, h, tail, result);
        if result.Some? {
          ExactLength(tail, n, result.value);
          assert (h + result.value)[..HEADER_BYTES] == h && (h + result.value)[HEADER_BYTES..] == result.value;
        }
      }
  }

  /** After its last call the acknowledgement frame still has the output to close. */
  function AfterWriteW(w: Wrapper, next: SessionState): Wrapper {
    if next == Closed then w.(act := Closing) else w.(phase := InSession(next), act := Idle)
  }

  lemma {:induction false} WrapperSends(
      a: Authorization, w: Wrapper, calls: seq<bytes>, next: SessionState, k: nat)
    requires calls != [] && w.act == Writing(calls, next) && k <= |calls|
    ensures RunW(a, w, AllWrote(calls[..k])) == Some(
      if k < |calls| then w.(act := Writing(calls[k..], next)) else AfterWriteW(w, next))
  {
    if k == 0 {
      assert calls[0..] == calls;
    } else {
      WrapperSends(a, w, calls, next, k - 1);
      var sent := AllWrote(calls[..k]);
      assert sent[..k - 1] == AllWrote(calls[..k - 1]);
      assert calls[k - 1..][1..] == calls[k..];
    }
  }

  lemma WrapperWritesFrame(
      a: Authorization, w: Wrapper, calls: seq<bytes>, next: SessionState, steps: seq<Label>, ok: bool)
    requires calls != [] && w.act == Writing(calls, next) && FrameWritten(steps, calls, ok)
    ensures RunW(a, w, steps) == Some(if ok then AfterWriteW(w, next) else FailW(w))
  {
    hide RunW;
    if ok {
      WrapperSends(a, w, calls, next, |calls|);
      assert calls[..|calls|] == calls;
    } else {
      var k, l :| 0 <= k < |calls| && steps == AllWrote(calls[..k]) + [l]
                  && (l.Late? || (l.WriteBroke? && l.part <= calls[k]));
      WrapperSends(a, w, calls, next, k);
      RunWAppend(a, w, AllWrote(calls[..k]), [l]);
      RunWOne(a, RunW(a, w, AllWrote(calls[..k])).value, l);
    }
  }
}

/**
 The two session objects on a pair of faithful channels: their recorded labels, merged in the order in
 which things happened, are a run of the two-party system, so its theorems hold of the objects.
 */
module AttachedObjects {
  import opened Bytes
  import opened AttachProgram
  import opened AttachStreams
  import opened AttachRuns
  import opened TwoParty
  import DaemonSession
  import WrapperSession

  /** One thing that happened, and on whose side. */
  datatype Turn = Daemons(l: Label) | Wrappers(l: Label)

  function DaemonLabels(ts: seq<Turn>): seq<Label> {
    if ts == [] then []
    else
      var before, t := DaemonLabels(ts[..|ts| - 1]), ts[|ts| - 1];
      if t.Daemons? then before + [t.l] else before
  }

  function WrapperLabels(ts: seq<Turn>): seq<Label> {
    if ts == [] then []
    else
      var before, t := WrapperLabels(ts[..|ts| - 1]), ts[|ts| - 1];
      if t.Wrappers? then before + [t.l] else before
  }

  /** One channel after some turns: all octets put in, how many were taken out, and whether it ended. */
  datatype Channel = Channel(sent: bytes, got: nat, closed: bool)

  function Down(ts: seq<Turn>): Channel {
    if ts == [] then Channel([], 0, false)
    else
      var c, t := Down(ts[..|ts| - 1]), ts[|ts| - 1];
      if t.Daemons? then Channel(c.sent + BytesOut(t.l), c.got, c.closed || Closes(t.l))
      else c.(got := c.got + |BytesIn(t.l)|)
  }

  function Up(ts: seq<Turn>): Channel {
    if ts == [] then Channel([], 0, false)
    else
      var c, t := Up(ts[..|ts| - 1]), ts[|ts| - 1];
      if t.Wrappers? then Channel(c.sent + BytesOut(t.l), c.got, c.closed || Closes(t.l))
      else c.(got := c.got + |BytesIn(t.l)|)
  }

  /** Every read took the next octets of its channel, and saw an end only at its end. */
  ghost predicate Faithful(ts: seq<Turn>) {
    ts == []
    || (var before, t := ts[..|ts| - 1], ts[|ts| - 1];
        var c := if t.Daemons? then Up(before) else Down(before);
        Faithful(before) && ReadsFaithfully(c.sent, c.got, c.closed, t.l))
  }

  function Together(d: Daemon, w: Wrapper, down: Channel, up: Channel): Sys {
    Sys(d, w, down.sent, down.got, down.closed, up.sent, up.got, up.closed)
  }

  /** Two records that each follow their program make one run, in whatever order they were made. */
  lemma {:induction false} MergeIsRun(a: Authorization, ts: seq<Turn>) returns (run: seq<Sys>)
    requires Faithful(ts)
    requires RunD(a, DaemonStart, DaemonLabels(ts)).Some? && RunW(a, WrapperStart, WrapperLabels(ts)).Some?
    ensures |run| > 0 && IsRun(a, run)
    ensures run[|run| - 1] == After(a, ts)
    decreases |ts|
  {
    hide DaemonStep, WrapperStep, RunD, RunW, Next;
    if ts == [] {
      EmptyRecords(a);
      run := [Start];
    } else {
      var before := ts[..|ts| - 1];
      LastLabel(a, ts);
      var earlier := MergeIsRun(a, before);
      OneTurn(a, ts);
      run := earlier + [After(a, ts)];
      hide *;
      RunGoesOn(a, earlier, After(a, ts));
    }
  }

  lemma EmptyRecords(a: Authorization)
    ensures RunD(a, DaemonStart, []) == Some(DaemonStart) && RunW(a, WrapperStart, []) == Some(WrapperStart)
  {
  }

  /** The state that the turns lead to. */
  ghost function After(a: Authorization, ts: seq<Turn>): Sys
    requires RunD(a, DaemonStart, DaemonLabels(ts)).Some? && RunW(a, WrapperStart, WrapperLabels(ts)).Some?
  {
    Together(RunD(a, DaemonStart, DaemonLabels(ts)).value, RunW(a, WrapperStart, WrapperLabels(ts)).value,
      Down(ts), Up(ts))
  }

  lemma OneTurn(a: Authorization, ts: seq<Turn>)
    requires ts != [] && Faithful(ts)
    requires RunD(a, DaemonStart, DaemonLabels(ts)).Some? && RunW(a, WrapperStart, WrapperLabels(ts)).Some?
    ensures var before := ts[..|ts| - 1];
            && RunD(a, DaemonStart, DaemonLabels(before)).Some? && RunW(a, WrapperStart, WrapperLabels(before)).Some?
            && Next(a, After(a, before), After(a, ts))
  {
    var before, t := ts[..|ts| - 1], ts[|ts| - 1];
    LastLabel(a, ts);
    hide RunD, RunW, DaemonLabels, WrapperLabels, DaemonStep, WrapperStep, ReadsFaithfully, Down, Up;
    var s, s' := After(a, before), After(a, ts);
    if t.Daemons? {
      DaemonTurn(a, ts, s, s');
    } else {
      WrapperTurn(a, ts, s, s');
    }
  }

  lemma DaemonTurn(a: Authorization, ts: seq<Turn>, s: Sys, s': Sys)
    requires ts != [] && ts[|ts| - 1].Daemons?
    requires s == Together(s.d, s.w, Down(ts[..|ts| - 1]), Up(ts[..|ts| - 1]))
    requires DaemonStep(a, s.d, ts[|ts| - 1].l).Some?
    requires ReadsFaithfully(s.up, s.gotUp, s.upClosed, ts[|ts| - 1].l)
    requires s' == Together(DaemonStep(a, s.d, ts[|ts| - 1].l).value, s.w, Down(ts), Up(ts))
    ensures Next(a, s, s')
  {
    hide DaemonStep, WrapperStep, ReadsFaithfully, BytesOut, BytesIn, Closes;
    assert DaemonMoves(a, s, ts[|ts| - 1].l, s');
  }

  lemma WrapperTurn(a: Authorization, ts: seq<Turn>, s: Sys, s': Sys)
    requires ts != [] && ts[|ts| - 1].Wrappers?
    requires s == Together(s.d, s.w, Down(ts[..|ts| - 1]), Up(ts[..|ts| - 1]))
    requires WrapperStep(a, s.w, ts[|ts| - 1].l).Some?
    requires ReadsFaithfully(s.down, s.gotDown, s.downClosed, ts[|ts| - 1].l)
    requires s' == Together(s.d, WrapperStep(a, s.w, ts[|ts| - 1].l).value, Down(ts), Up(ts))
    ensures Next(a, s, s')
  {
    hide DaemonStep, WrapperStep, ReadsFaithfully, BytesOut, BytesIn, Closes;
    assert WrapperMoves(a, s, ts[|ts| - 1].l, s');
  }

  lemma RunGoesOn(a: Authorization, run: seq<Sys>, s: Sys)
    requires IsRun(a, run) && Next(a, run[|run| - 1], s)
    ensures IsRun(a, run + [s])
  {
    hide Next;
    var longer := run + [s];
    forall i | 0 <= i < |longer| - 1 ensures Next(a, longer[i], longer[i + 1]) {
      if i < |run| - 1 {
        assert Next(a, run[i], run[i + 1]);
      }
    }
  }

  /** The last turn is the last label of its side. */
  lemma LastLabel(a: Authorization, ts: seq<Turn>)
    requires ts != []
    requires RunD(a, DaemonStart, DaemonLabels(ts)).Some? && RunW(a, WrapperStart, WrapperLabels(ts)).Some?
    ensures var before, t := ts[..|ts| - 1], ts[|ts| - 1];
            var d, w := RunD(a, DaemonStart, DaemonLabels(before)), RunW(a, WrapperStart, WrapperLabels(before));
            && d.Some? && w.Some?
            && RunD(a, DaemonStart, DaemonLabels(ts)) == (if t.Daemons? then DaemonStep(a, d.value, t.l) else d)
            && RunW(a, WrapperStart, WrapperLabels(ts)) == (if t.Wrappers? then WrapperStep(a, w.value, t.l) else w)
  {
    hide DaemonStep, WrapperStep;
    var before, t := ts[..|ts| - 1], ts[|ts| - 1];
    if t.Daemons? {
      var ls := DaemonLabels(ts);
      assert ls[..|ls| - 1] == DaemonLabels(before);
    } else {
      var ls := WrapperLabels(ts);
      assert ls[..|ls| - 1] == WrapperLabels(before);
    }
  }

  /**
   Delivery safety of the objects. Let a daemon session and a wrapper session of one authorization
   have been used in any way whatever, the wrapper's after it had read the ticket envelope, over
   channels that lose, change and reorder nothing. Then the sink holds a prefix of the daemon's
   chunks; if the daemon is acknowledged it holds all of them and the wrapper has read to the end; if
   the daemon is closed the wrapper's output is closed and drained.
   */
  lemma ObjectsDeliver(d: DaemonSession.Session, w: WrapperSession.Session, opening: seq<Label>, ts: seq<Turn>)
    requires d.Valid() && w.Valid() && d.a == w.a && Faithful(ts)
    requires RunW(w.a, WrapperStart, opening) == Some(WrapperSession.SessionStart)
    requires DaemonLabels(ts) == d.wire.labels && WrapperLabels(ts) == opening + w.wire.labels
    ensures w.Now().sink != [] ==> d.Now().chunks.Some? && w.Now().sink <= d.Now().chunks.value
    ensures d.state == TerminalAckReceived || d.state == Closed ==>
              && d.Now().chunks == Some(w.Now().sink) && w.Now().eofSeen
              && Down(ts).closed && Down(ts).got == |Down(ts).sent|
    ensures d.state == Closed ==> Up(ts).closed && Up(ts).got == |Up(ts).sent|
  {
    hide RunD, RunW, Next, IsRun, Faithful;
    WrapperSession.EnvelopeThenSession(w.a, opening, w.wire.labels);
    var run := MergeIsRun(d.a, ts);
    DeliverySafety(d.a, run, |run| - 1);
  }
}

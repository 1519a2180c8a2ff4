/**
 Any number of daemon session objects and one atomic authority: their recorded labels, merged in the
 order in which things happened, are a history of many sessions, so its theorems hold of the objects.
 */
module ManyObjects {
  import opened Bytes
  import opened AttachProgram
  import opened AttachStreams
  import opened AttachRuns
  import opened ManySessions
  import DaemonSession

  /** One thing that happened, and in which session. */
  datatype Turn = Turn(i: nat, l: Label)

  function LabelsOf(ts: seq<Turn>, i: nat): seq<Label> {
    if ts == [] then []
    else
      var before, t := LabelsOf(ts[..|ts| - 1], i), ts[|ts| - 1];
      if t.i == i then before + [t.l] else before
  }

  /** What the authority has consumed after some turns. */
  function Consumed(authorizations: seq<Authorization>, ts: seq<Turn>): Ledger {
    if ts == [] then Ledger({}, {})
    else
      var before, t := Consumed(authorizations, ts[..|ts| - 1]), ts[|ts| - 1];
      if t.i < |authorizations| then Record(before, authorizations[t.i], t.l) else before
  }

  /** Every answer was one that the authority may give after what it had consumed by then. */
  ghost predicate Atomic(authorizations: seq<Authorization>, ts: seq<Turn>) {
    ts == []
    || (var before, t := ts[..|ts| - 1], ts[|ts| - 1];
        && Atomic(authorizations, before) && t.i < |authorizations|
        && AnswerAllowed(Consumed(authorizations, before), authorizations[t.i], t.l))
  }

  /** Each session's labels follow its program. */
  ghost predicate Follow(authorizations: seq<Authorization>, ts: seq<Turn>) {
    forall i :: 0 <= i < |authorizations| ==> RunD(authorizations[i], DaemonStart, LabelsOf(ts, i)).Some?
  }

  ghost function After(authorizations: seq<Authorization>, ts: seq<Turn>): World
    requires Follow(authorizations, ts)
  {
    World(
      seq(|authorizations|, i requires 0 <= i < |authorizations| => Replay(authorizations[i], LabelsOf(ts, i))),
      Consumed(authorizations, ts))
  }

  lemma LastLabel(a: Authorization, ts: seq<Turn>, i: nat)
    requires ts != [] && RunD(a, DaemonStart, LabelsOf(ts, i)).Some?
    ensures var before, t := ts[..|ts| - 1], ts[|ts| - 1];
            && RunD(a, DaemonStart, LabelsOf(before, i)).Some?
            && (if t.i == i
                then SessionMoves(Replay(a, LabelsOf(before, i)), t.l, Replay(a, LabelsOf(ts, i)))
                else LabelsOf(ts, i) == LabelsOf(before, i))
  {
    hide DaemonStep;
    if ts[|ts| - 1].i == i {
      var ls := LabelsOf(ts, i);
      assert ls[..|ls| - 1] == LabelsOf(ts[..|ts| - 1], i);
    }
  }

  lemma OneTurn(authorizations: seq<Authorization>, ts: seq<Turn>)
    requires ts != [] && Atomic(authorizations, ts) && Follow(authorizations, ts)
    ensures var before := ts[..|ts| - 1];
            Follow(authorizations, before) && NextWorld(After(authorizations, before), After(authorizations, ts))
  {
    hide RunD, Replay, LabelsOf, SessionMoves, AnswerAllowed, Record;
    var before, t := ts[..|ts| - 1], ts[|ts| - 1];
    forall i | 0 <= i < |authorizations|
      ensures RunD(authorizations[i], DaemonStart, LabelsOf(before, i)).Some?
      ensures i != t.i ==> LabelsOf(ts, i) == LabelsOf(before, i)
    {
      LastLabel(authorizations[i], ts, i);
    }
    LastLabel(authorizations[t.i], ts, t.i);
    var w, w' := After(authorizations, before), After(authorizations, ts);
    assert w'.sessions == w.sessions[t.i := w'.sessions[t.i]];
    assert Moves(w, t.i, t.l, w');
  }

  /** Records that each follow the program make one history, in whatever order they were made. */
  lemma {:induction false} MergeIsHistory(authorizations: seq<Authorization>, ts: seq<Turn>)
    returns (run: seq<World>)
    requires Atomic(authorizations, ts) && Follow(authorizations, ts)
    ensures |run| > 0 && IsHistory(authorizations, run) && run[|run| - 1] == After(authorizations, ts)
    decreases |ts|
  {
    hide RunD, Follow, NextWorld;
    if ts == [] {
      NothingYet(authorizations);
      run := [Opening(authorizations)];
    } else {
      OneTurn(authorizations, ts);
      var earlier := MergeIsHistory(authorizations, ts[..|ts| - 1]);
      run := earlier + [After(authorizations, ts)];
      hide *;
      HistoryGoesOn(authorizations, earlier, After(authorizations, ts));
    }
  }

  lemma NothingYet(authorizations: seq<Authorization>)
    ensures Follow(authorizations, []) && After(authorizations, []) == Opening(authorizations)
  {
  }

  lemma HistoryGoesOn(authorizations: seq<Authorization>, run: seq<World>, w: World)
    requires IsHistory(authorizations, run) && NextWorld(run[|run| - 1], w)
    ensures IsHistory(authorizations, run + [w])
  {
    hide NextWorld;
    var longer := run + [w];
    forall k | 0 <= k < |longer| - 1 ensures NextWorld(longer[k], longer[k + 1]) {
      if k < |run| - 1 {
        assert NextWorld(run[k], run[k + 1]);
      }
    }
  }

  ghost function Authorizations(ss: seq<DaemonSession.Session>): (r: seq<Authorization>)
    ensures |r| == |ss| && forall i :: 0 <= i < |ss| ==> r[i] == ss[i].a
  {
    seq(|ss|, i requires 0 <= i < |ss| => ss[i].a)
  }

  /** What a session object has recorded of itself. */
  ghost function Recorded(s: DaemonSession.Session): Session
    requires s.Valid()
    reads s, s.wire, s.wire.guard
  {
    Replay(s.a, s.wire.labels)
  }

  /** The claim frame is out, or the session got further than that. */
  predicate PastClaim(state: SessionState) {
    state in {ClaimSent, ChunksSent, WriteClosed, TerminalAckReceived, Closed}
  }

  /**
   One attach per container, for the objects. Let any number of daemon sessions have been used in any
   way and order whatever against one authority that consumes atomically. Of the sessions for one
   container, or for one ticket, at most one has put a secret octet on its wire, and at most one is
   in a state past its claim.
   */
  lemma ObjectsAttachOnce(ss: seq<DaemonSession.Session>, ts: seq<Turn>, i: nat, j: nat)
    requires forall n :: 0 <= n < |ss| ==> ss[n].Valid() && LabelsOf(ts, n) == ss[n].wire.labels
    requires Atomic(Authorizations(ss), ts)
    requires i < |ss| && j < |ss| && i != j
    requires ss[i].a.container == ss[j].a.container || ss[i].a.ticket == ss[j].a.ticket
    ensures !(EmittedSecret(Recorded(ss[i])) && EmittedSecret(Recorded(ss[j])))
    ensures !(PastClaim(ss[i].state) && PastClaim(ss[j].state))
  {
    hide RunD, Replay, IsHistory, Verified, EmittedSecret, Atomic;
    var all := Authorizations(ss);
    var run := MergeIsHistory(all, ts);
    var k := |run| - 1;
    OneAttachPerContainer(all, run, k, i, j);
    HistoryKeepsInv(all, run, k);
    WonOnce(all, run[k], i, j);
  }

  lemma WonOnce(authorizations: seq<Authorization>, w: World, i: nat, j: nat)
    requires WorldInv(authorizations, w) && i < |w.sessions| && j < |w.sessions| && i != j
    requires authorizations[i].container == authorizations[j].container
             || authorizations[i].ticket == authorizations[j].ticket
    ensures !(PastClaim(w.sessions[i].d.state) && PastClaim(w.sessions[j].d.state))
  {
    hide DaemonInv;
  }
}

/**
 Any number of V2 daemon sessions sharing one atomic ticket-and-container authority, in any order of
 calls and with any collaborator failure. A session is recorded with the octets it has written, how
 often it asked the authority, and whether it was ever answered CLAIMED.
 */
module ManySessions {
  import opened Bytes
  import opened Frames
  import opened AttachProgram
  import opened AttachStreams
  import opened AttachRuns

  datatype Session = Session(a: Authorization, d: Daemon, sent: bytes, closed: bool, asked: nat, won: bool)

  /** Tickets and containers the authority has durably consumed. */
  datatype Ledger = Ledger(tickets: set<nat>, containers: set<nat>)

  datatype World = World(sessions: seq<Session>, ledger: Ledger)

  function Fresh(a: Authorization): Session {
    Session(a, DaemonStart, [], false, 0, false)
  }

  function Opening(authorizations: seq<Authorization>): World {
    World(seq(|authorizations|, i requires 0 <= i < |authorizations| => Fresh(authorizations[i])),
          Ledger({}, {}))
  }

  /** Both keys are consumed together or not at all, also when the answer is then lost. */
  predicate AnswerAllowed(ledger: Ledger, a: Authorization, l: Label) {
    l.Authority? ==>
      && (l.recorded ==> a.ticket !in ledger.tickets && a.container !in ledger.containers)
      && (l.outcome == Claimed ==> l.recorded)
  }

  function Record(ledger: Ledger, a: Authorization, l: Label): Ledger {
    if l.Authority? && l.recorded
    then Ledger(ledger.tickets + {a.ticket}, ledger.containers + {a.container}) else ledger
  }

  ghost predicate SessionMoves(s: Session, l: Label, s': Session) {
    && DaemonStep(s.a, s.d, l).Some?
    && s' == Session(s.a, DaemonStep(s.a, s.d, l).value, s.sent + BytesOut(l), s.closed || Closes(l),
                     s.asked + (if l.Authority? then 1 else 0),
                     s.won || (l.Authority? && l.outcome == Claimed))
  }

  ghost predicate Moves(w: World, i: nat, l: Label, w': World) {
    && i < |w.sessions| && |w'.sessions| == |w.sessions|
    && AnswerAllowed(w.ledger, w.sessions[i].a, l)
    && SessionMoves(w.sessions[i], l, w'.sessions[i])
    && w' == World(w.sessions[i := w'.sessions[i]], Record(w.ledger, w.sessions[i].a, l))
  }

  ghost predicate NextWorld(w: World, w': World) {
    exists i: nat, l: Label :: Moves(w, i, l, w')
  }

  ghost predicate IsHistory(authorizations: seq<Authorization>, run: seq<World>) {
    && |run| > 0 && run[0] == Opening(authorizations)
    && forall k :: 0 <= k < |run| - 1 ==> NextWorld(run[k], run[k + 1])
  }

  /** The session has put at least one octet of a secret frame on the wire. */
  predicate EmittedSecret(s: Session) {
    |s.sent| > |Hello(s.a) + ClaimPart(s.a)|
  }

  // One session -------------------------------------------------------------

  /** Before its one question: nothing asked, nothing won, at most the ticket envelope sent. */
  predicate BeforeClaim(d: Daemon) {
    d.state in {New, TicketSent, ReadyReceived} || (d.state == ClaimAttempted && d.act.Claiming?)
  }

  /** Written octets never leave the order envelope, claim, secrets, and pass the envelope only when won. */
  ghost predicate SessionInv(s: Session) {
    && DaemonInv(s.a, s.d, s.sent, s.closed)
    && s.asked <= 1
    && (s.won ==> s.asked == 1)
    && (BeforeClaim(s.d) ==> s.asked == 0)
    && (s.d.state == ReadyReceived ==> s.d.act.Idle?)
    && (!s.won ==> s.sent <= Hello(s.a) && s.d.chunks == None
                   && s.d.state !in {ClaimSent, ChunksSent, WriteClosed, TerminalAckReceived, Closed})
    && (s.d.state == ClaimAttempted && !s.d.act.Claiming? ==> s.won && s.d.act.Writing?)
  }

  lemma SessionKeepsInv(s: Session, l: Label, s': Session)
    requires Verified(s.a) && SessionInv(s) && SessionMoves(s, l, s')
    ensures SessionInv(s')
  {
    hide Header, Frame, SecretFrame, SecretStream, MetaFrame, FrameProgress, Secrets, Concat, SecretCalls, Deliverable,
      Verified, MetadataCalls;
    DaemonKeepsInv(s.a, s.d, l, s'.d, s.sent, s.closed);
    if !s'.won && l.Wrote? {
      PopCall(s.sent, s.d.act.calls, Hello(s.a));
    } else if !s'.won && l.WriteBroke? {
      PartOfCall(s.sent, l.part, s.d.act.calls, Hello(s.a));
    }
  }

  /** A closed, rejected or ambiguous session never changes again and never writes again. */
  lemma TerminalIsAbsorbing(s: Session, l: Label, s': Session)
    requires SessionInv(s) && Terminal(s.d.state) && SessionMoves(s, l, s')
    ensures s' == s
  {
    hide MetaFrame, Secrets, Concat;
    assert s.d.act.Idle? && l.Refused?;
    assert s.sent + [] == s.sent;
  }

  lemma SecretsNeedTheClaim(s: Session)
    requires SessionInv(s)
    ensures |s.sent| > |Hello(s.a)| ==> s.won
    ensures EmittedSecret(s) ==> Hello(s.a) + ClaimPart(s.a) <= s.sent
  {
    hide MetaFrame, Secrets, Concat;
  }

  /** The session record that a run's labels amount to. */
  ghost function Replay(a: Authorization, ls: seq<Label>): Session
    requires RunD(a, DaemonStart, ls).Some?
    ensures Replay(a, ls).a == a && Replay(a, ls).d == RunD(a, DaemonStart, ls).value
  {
    if ls == [] then Fresh(a)
    else
      var n := |ls| - 1;
      var s := Replay(a, ls[..n]);
      Session(a, DaemonStep(a, s.d, ls[n]).value, s.sent + BytesOut(ls[n]), s.closed || Closes(ls[n]),
              s.asked + (if ls[n].Authority? then 1 else 0),
              s.won || (ls[n].Authority? && ls[n].outcome == Claimed))
  }

  /** Every run of the daemon program keeps the session invariant, whatever its labels. */
  lemma {:induction false} ReplayIsSafe(a: Authorization, ls: seq<Label>)
    requires Verified(a) && RunD(a, DaemonStart, ls).Some?
    ensures SessionInv(Replay(a, ls))
  {
    hide SessionInv, DaemonStep;
    if ls == [] {
      FreshIsSafe(a);
    } else {
      var n := |ls| - 1;
      ReplayIsSafe(a, ls[..n]);
      SessionKeepsInv(Replay(a, ls[..n]), ls[n], Replay(a, ls));
    }
  }

  lemma FreshIsSafe(a: Authorization)
    ensures SessionInv(Fresh(a))
  {
    hide MetaFrame;
  }

  // All sessions ------------------------------------------------------------

  ghost predicate WorldInv(authorizations: seq<Authorization>, w: World) {
    && |w.sessions| == |authorizations|
    && (forall i :: 0 <= i < |w.sessions| ==> w.sessions[i].a == authorizations[i] && SessionInv(w.sessions[i]))
    && (forall i :: 0 <= i < |w.sessions| && w.sessions[i].won ==>
          && w.sessions[i].a.container in w.ledger.containers
          && w.sessions[i].a.ticket in w.ledger.tickets)
    && (forall i, j :: 0 <= i < j < |w.sessions| && w.sessions[i].won && w.sessions[j].won ==>
          && w.sessions[i].a.container != w.sessions[j].a.container
          && w.sessions[i].a.ticket != w.sessions[j].a.ticket)
  }

  lemma WorldKeepsInv(authorizations: seq<Authorization>, w: World, w': World)
    requires forall i :: 0 <= i < |authorizations| ==> Verified(authorizations[i])
    requires WorldInv(authorizations, w) && NextWorld(w, w')
    ensures WorldInv(authorizations, w')
  {
    hide SessionInv, DaemonStep;
    var i: nat, l: Label :| Moves(w, i, l, w');
    SessionKeepsInv(w.sessions[i], l, w'.sessions[i]);
  }

  lemma {:induction false} HistoryKeepsInv(authorizations: seq<Authorization>, run: seq<World>, k: nat)
    requires forall i :: 0 <= i < |authorizations| ==> Verified(authorizations[i])
    requires IsHistory(authorizations, run) && k < |run|
    ensures WorldInv(authorizations, run[k])
  {
    hide NextWorld, MetaFrame;
    if k > 0 {
      HistoryKeepsInv(authorizations, run, k - 1);
      assert NextWorld(run[k - 1], run[k - 1 + 1]);
      WorldKeepsInv(authorizations, run[k - 1], run[k]);
    }
  }

  /**
   At every moment of every history: a session has asked the authority at most once; nothing past its
   ticket envelope is written before that call returned CLAIMED; a secret octet is preceded by the
   whole envelope and the whole claim frame; and of the sessions for one container, or for one
   ticket, at most one has emitted a secret octet.
   */
  lemma OneAttachPerContainer(authorizations: seq<Authorization>, run: seq<World>, k: nat, i: nat, j: nat)
    requires forall n :: 0 <= n < |authorizations| ==> Verified(authorizations[n])
    requires IsHistory(authorizations, run) && k < |run| && i < |authorizations| && j < |authorizations|
    ensures |run[k].sessions| == |authorizations|
    ensures var s := run[k].sessions[i];
            && s.a == authorizations[i] && s.asked <= 1
            && (|s.sent| > |Hello(s.a)| ==> s.won && s.asked == 1)
            && (EmittedSecret(s) ==> Hello(s.a) + ClaimPart(s.a) <= s.sent)
    ensures i != j && (authorizations[i].container == authorizations[j].container
                       || authorizations[i].ticket == authorizations[j].ticket)
            ==> !(EmittedSecret(run[k].sessions[i]) && EmittedSecret(run[k].sessions[j]))
  {
    hide MetaFrame, DaemonInv, IsHistory;
    HistoryKeepsInv(authorizations, run, k);
    SecretsNeedTheClaim(run[k].sessions[i]);
    SecretsNeedTheClaim(run[k].sessions[j]);
  }

  /** Once terminal, a session is the same at every later moment, whatever the others do. */
  lemma {:induction false} TerminalForever(
      authorizations: seq<Authorization>, run: seq<World>, k: nat, m: nat, i: nat)
    requires forall n :: 0 <= n < |authorizations| ==> Verified(authorizations[n])
    requires IsHistory(authorizations, run) && k <= m < |run| && i < |run[k].sessions|
    requires Terminal(run[k].sessions[i].d.state)
    ensures i < |run[m].sessions| && run[m].sessions[i] == run[k].sessions[i]
    decreases m
  {
    hide SessionInv, SessionMoves, AnswerAllowed, Record;
    if k < m {
      TerminalForever(authorizations, run, k, m - 1, i);
      HistoryKeepsInv(authorizations, run, m - 1);
      assert NextWorld(run[m - 1], run[m - 1 + 1]);
      var n: nat, l: Label :| Moves(run[m - 1], n, l, run[m]);
      if n == i {
        TerminalIsAbsorbing(run[m - 1].sessions[i], l, run[m].sessions[i]);
      }
    }
  }
}

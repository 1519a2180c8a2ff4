/**
 Lifecycle events, their hashes, and what makes a history of events legal.

 A digest is the value it was computed from: distinct preimages have distinct digests, and no
 preimage digests to the all-zero genesis value. Identifiers and instants are numbers.
 */
module LifecycleEvents {
  import opened Bytes

  datatype State = Initial | Created | Active | Completed | Failed

  datatype EventType = RunCreated | WorkStarted | WorkCompleted | WorkFailed

  datatype Instant = Utc(micros: int) | NotUtc(micros: int)

  datatype Hash =
    | Genesis
    | Sha(preimage: Preimage)
    | Unrelated(digits: nat)  // sixty-four hex digits that are nobody's digest

  /** The dictionaries that the canonical hash is taken of; no two kinds have the same keys. */
  datatype Preimage =
    | EventMaterial(id: nat, run: nat, sequence: int, at: Instant, kind: EventType, detail: string, prior: Hash)
    | ReplayMaterial(id: nat, run: nat, sequence: int, kind: EventType, detail: string, checksum: Hash)
    | StreamMaterial(stream: Hash, event: Event)
    | ProjectionMaterial(run: nat, state: State, last: nat, head: Hash, stream: Hash)

  datatype Event = Event(
    id: nat, run: nat, sequence: int, at: Instant, kind: EventType, detail: string, prior: Hash, hash: Hash)

  datatype Intent = Intent(run: nat, kind: EventType, detail: string)

  /** The allowed transitions. */
  function Transition(state: State, kind: EventType): Option<State> {
    match (state, kind)
    case (Initial, RunCreated) => Some(Created)
    case (Created, WorkStarted) => Some(Active)
    case (Active, WorkCompleted) => Some(Completed)
    case (Active, WorkFailed) => Some(State.Failed)
    case _ => None
  }

  predicate DetailOk(detail: string) { 1 <= |detail| <= 1000 }

  /** Schema validity of one event. */
  predicate WellFormed(e: Event) {
    e.sequence >= 1 && e.at.Utc? && DetailOk(e.detail)
  }

  /** The digest of every field but the digest itself. */
  function EventHash(e: Event): Hash {
    Sha(EventMaterial(e.id, e.run, e.sequence, e.at, e.kind, e.detail, e.prior))
  }

  function StateAfter(es: seq<Event>): Option<State> {
    if es == [] then Some(Initial)
    else match StateAfter(es[..|es| - 1])
      case None => None
      case Some(s) => Transition(s, es[|es| - 1].kind)
  }

  function Head(es: seq<Event>): Hash {
    if es == [] then Genesis else es[|es| - 1].hash
  }

  /** The events of one run, in order. */
  function OfRun(h: seq<Event>, run: nat): seq<Event> {
    if h == [] then []
    else
      var before, e := OfRun(h[..|h| - 1], run), h[|h| - 1];
      if e.run == run then before + [e] else before
  }

  function Ids(h: seq<Event>): set<nat> { set e | e in h :: e.id }

  // Legal histories ---------------------------------------------------------

  /** What the log checks before it stores e after the history h. */
  predicate Admissible(h: seq<Event>, e: Event) {
    var events := OfRun(h, e.run);
    && WellFormed(e)
    && e.hash == EventHash(e)
    && e.id !in Ids(h)
    && e.sequence == |events| + 1
    && e.prior == Head(events)
    && StateAfter(events).Some?
    && Transition(StateAfter(events).value, e.kind).Some?
  }

  predicate Legal(h: seq<Event>) {
    h == [] || (Legal(h[..|h| - 1]) && Admissible(h[..|h| - 1], h[|h| - 1]))
  }

  /** The event of that place in a run: well formed, linked to the digest before it, digested over every field. */
  ghost predicate Sealed(e: Event, run: nat, n: nat, prior: Hash) {
    && e.run == run && e.sequence == n && e.sequence >= 1 && e.at.Utc? && 1 <= |e.detail| <= 1000
    && e.prior == prior
    && e.hash == Sha(EventMaterial(e.id, run, n, e.at, e.kind, e.detail, prior))
  }

  /** One run's stream seen whole: numbered from one, linked, sealed, and along a legal path. */
  ghost predicate Chain(es: seq<Event>, run: nat) {
    && (forall i :: 0 <= i < |es| ==> Sealed(es[i], run, i + 1, Head(es[..i])))
    && StateAfter(es).Some?
  }

  lemma SealedMeans(e: Event, run: nat, n: nat, prior: Hash)
    ensures Sealed(e, run, n, prior) <==>
              WellFormed(e) && e.run == run && e.sequence == n && e.prior == prior && e.hash == EventHash(e)
  { }

  ghost predicate DistinctIds(h: seq<Event>) {
    forall i, j :: 0 <= i < j < |h| ==> h[i].id != h[j].id
  }

  lemma OfRunSnoc(h: seq<Event>, e: Event, run: nat)
    ensures OfRun(h + [e], run) == if e.run == run then OfRun(h, run) + [e] else OfRun(h, run)
    ensures Ids(h + [e]) == Ids(h) + {e.id}
    ensures Legal(h + [e]) <==> Legal(h) && Admissible(h, e)
  {
    assert (h + [e])[..|h|] == h;
  }

  lemma {:induction false} OfRunConcat(h: seq<Event>, more: seq<Event>, run: nat)
    ensures OfRun(h + more, run) == OfRun(h, run) + OfRun(more, run)
    decreases |more|
  {
    if more == [] {
      assert h + more == h;
    } else {
      var m, e := more[..|more| - 1], more[|more| - 1];
      assert more == m + [e] && h + more == (h + m) + [e];
      OfRunConcat(h, m, run);
      OfRunSnoc(h + m, e, run);
      OfRunSnoc(m, e, run);
    }
  }

  lemma {:induction false} OfRunMembers(h: seq<Event>, run: nat)
    ensures forall e :: e in OfRun(h, run) ==> e in h && e.run == run
    ensures forall e :: e in h && e.run == run ==> e in OfRun(h, run)
    decreases |h|
  {
    if h != [] {
      OfRunMembers(h[..|h| - 1], run);
      assert h == h[..|h| - 1] + [h[|h| - 1]];
    }
  }

  lemma StateSnoc(es: seq<Event>, e: Event)
    ensures StateAfter(es + [e]) == match StateAfter(es) case None => None case Some(s) => Transition(s, e.kind)
  {
    hide Transition;
    assert (es + [e])[..|es|] == es;
  }

  lemma ChainSnoc(es: seq<Event>, e: Event)
    requires Chain(es, e.run)
    requires WellFormed(e) && e.hash == EventHash(e) && e.sequence == |es| + 1 && e.prior == Head(es)
    requires Transition(StateAfter(es).value, e.kind).Some?
    ensures Chain(es + [e], e.run)
  {
    var all := es + [e];
    StateSnoc(es, e);
    SealedMeans(e, e.run, |all|, Head(es));
    hide Sealed, WellFormed, EventHash, Head, Transition, StateAfter;
    assert all[..|es|] == es && all[|es|] == e;
    forall i | 0 <= i < |es| ensures all[i] == es[i] && all[..i] == es[..i] { }
  }

  /** Checking each event as it is stored is enough for the shape of every run as a whole. */
  lemma {:induction false} LegalHistoryShape(h: seq<Event>, run: nat)
    requires Legal(h)
    ensures Chain(OfRun(h, run), run)
    decreases |h|
  {
    if h != [] {
      var g, e := h[..|h| - 1], h[|h| - 1];
      LegalHistoryShape(g, run);
      hide Chain, Legal;
      if e.run == run {
        ChainSnoc(OfRun(g, run), e);
      }
    }
  }

  lemma {:induction false} LegalHistoryIds(h: seq<Event>)
    requires Legal(h)
    ensures DistinctIds(h)
    decreases |h|
  {
    if h != [] {
      var g, e := h[..|h| - 1], h[|h| - 1];
      LegalHistoryIds(g);
      assert e.id !in Ids(g);
      forall i | 0 <= i < |g| ensures h[i].id != e.id {
        assert g[i] in g && g[i] == h[i];
      }
    }
  }

  lemma ChainPrefix(es: seq<Event>, run: nat)
    requires es != [] && Chain(es, run)
    ensures Chain(es[..|es| - 1], run)
  {
    var g := es[..|es| - 1];
    forall i | 0 <= i < |g| ensures g[..i] == es[..i] { }
  }

  /** The shape says no less than the checks did: a log can store exactly the histories of that shape. */
  lemma {:induction false} ShapeIsLegal(h: seq<Event>)
    requires DistinctIds(h) && forall run: nat :: Chain(OfRun(h, run), run)
    ensures Legal(h)
    decreases |h|
  {
    if h != [] {
      var g, e := h[..|h| - 1], h[|h| - 1];
      assert h == g + [e];
      hide Chain, OfRun, Admissible;
      forall run: nat ensures Chain(OfRun(g, run), run) {
        OfRunSnoc(g, e, run);
        if e.run == run {
          ChainPrefix(OfRun(h, run), run);
          assert OfRun(h, run)[..|OfRun(h, run)| - 1] == OfRun(g, run);
        }
      }
      ShapeIsLegal(g);
      LastIsAdmissible(g, e);
    }
  }

  lemma LastIsAdmissible(g: seq<Event>, e: Event)
    requires DistinctIds(g + [e]) && Chain(OfRun(g + [e], e.run), e.run)
    ensures Admissible(g, e)
  {
    OfRunSnoc(g, e, e.run);
    var events := OfRun(g, e.run);
    var all := events + [e];
    ChainLast(all, e.run);
    StateSnoc(events, e);
    hide Chain, OfRun, Transition, WellFormed, EventHash, Head, StateAfter;
    assert all[..|events|] == events && all[|events|] == e;
    forall x | x in g ensures x.id != e.id {
      var i :| 0 <= i < |g| && g[i] == x;
      assert (g + [e])[i] == x && (g + [e])[|g|] == e;
    }
  }

  function Rank(s: State): nat {
    match s
    case Initial => 0
    case Created => 1
    case Active => 2
    case Completed => 3
    case Failed => 3
  }

  /** A legal run's length is fixed by its state: a run is created once, started once, ended once. */
  lemma {:induction false} StateFixesLength(es: seq<Event>)
    requires StateAfter(es).Some?
    ensures |es| == Rank(StateAfter(es).value)
    ensures forall i, j :: 0 <= i < |es| && 0 <= j < |es| && es[i].kind == es[j].kind ==> i == j
    ensures forall i :: 0 <= i < |es| ==>
              (i == 0 <==> es[i].kind == RunCreated) && (i == 1 <==> es[i].kind == WorkStarted)
    decreases |es|
  {
    if es != [] {
      StateFixesLength(es[..|es| - 1]);
    }
  }

  function Kinds(es: seq<Event>): seq<EventType> {
    seq(|es|, i requires 0 <= i < |es| => es[i].kind)
  }

  /** The five legal paths, and the state each leads to; no other sequence of events has a state. */
  lemma {:induction false} LegalPaths(es: seq<Event>)
    ensures StateAfter(es) == Some(Initial) <==> Kinds(es) == []
    ensures StateAfter(es) == Some(Created) <==> Kinds(es) == [RunCreated]
    ensures StateAfter(es) == Some(Active) <==> Kinds(es) == [RunCreated, WorkStarted]
    ensures StateAfter(es) == Some(Completed) <==> Kinds(es) == [RunCreated, WorkStarted, WorkCompleted]
    ensures StateAfter(es) == Some(State.Failed) <==> Kinds(es) == [RunCreated, WorkStarted, WorkFailed]
    decreases |es|
  {
    if es != [] {
      var n := |es| - 1;
      LegalPaths(es[..n]);
      assert Kinds(es) == Kinds(es[..n]) + [es[n].kind];
      assert Kinds(es)[..n] == Kinds(es[..n]) && Kinds(es)[n] == es[n].kind;
    }
  }

  // The chain as evidence ---------------------------------------------------

  /** The head digest of a run determines the run and its whole history. */
  lemma {:induction false} HeadDeterminesHistory(a: seq<Event>, b: seq<Event>, r: nat, s: nat)
    requires Chain(a, r) && Chain(b, s)
    requires a != [] && b != [] && Head(a) == Head(b)
    ensures r == s && a == b
    decreases |a|
  {
    hide Chain;
    var x, y := a[|a| - 1], b[|b| - 1];
    ChainLast(a, r);
    ChainLast(b, s);
    assert a == a[..|a| - 1] + [x] && b == b[..|b| - 1] + [y];
    if |a| > 1 {
      ChainPrefix(a, r);
      ChainPrefix(b, s);
      HeadDeterminesHistory(a[..|a| - 1], b[..|b| - 1], r, s);
    }
  }

  lemma ChainLast(es: seq<Event>, run: nat)
    requires Chain(es, run) && es != []
    ensures var e := es[|es| - 1];
            && e.run == run && e.sequence == |es| && e.prior == Head(es[..|es| - 1])
            && WellFormed(e) && e.hash == EventHash(e) && StateAfter(es).Some?
  {
    hide StateAfter, Head, WellFormed, EventHash, Sealed;
    var n := |es| - 1;
    SealedMeans(es[n], run, n + 1, Head(es[..n]));
  }

  /** So two logs that agree on one head digest agree on that run, whatever else they hold. */
  lemma LogsAgreeBelowHead(g: seq<Event>, h: seq<Event>, r: nat, s: nat)
    requires Legal(g) && Legal(h)
    requires OfRun(g, r) != [] && OfRun(h, s) != []
    requires Head(OfRun(g, r)) == Head(OfRun(h, s))
    ensures r == s && OfRun(g, r) == OfRun(h, s)
  {
    LegalHistoryShape(g, r);
    LegalHistoryShape(h, s);
    HeadDeterminesHistory(OfRun(g, r), OfRun(h, s), r, s);
  }
}

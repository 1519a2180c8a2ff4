/**
 Reducing a stream of events to a projection, and replaying it as evidence. The reducer checks each
 event against a projection; the log checks it against the stored stream. Both accept the same runs.
 */
module Replay {
  import opened Bytes
  import opened LifecycleEvents

  datatype Projection = Projection(run: nat, state: State, last: nat, head: Hash, stream: Hash, checksum: Hash)

  function ProjectionChecksum(p: Projection): Hash {
    Sha(ProjectionMaterial(p.run, p.state, p.last, p.head, p.stream))
  }

  function AdvanceStreamHash(previous: Hash, e: Event): Hash { Sha(StreamMaterial(previous, e)) }

  function AdvanceTransitionChecksum(previous: Hash, e: Event): Hash {
    Sha(ReplayMaterial(e.id, e.run, e.sequence, e.kind, e.detail, previous))
  }

  function StreamHash(es: seq<Event>): Hash {
    if es == [] then Genesis else AdvanceStreamHash(StreamHash(es[..|es| - 1]), es[|es| - 1])
  }

  function TransitionChecksum(es: seq<Event>): Hash {
    if es == [] then Genesis else AdvanceTransitionChecksum(TransitionChecksum(es[..|es| - 1]), es[|es| - 1])
  }

  method ComputeEventStreamHash(events: seq<Event>) returns (hash: Hash)
    ensures hash == StreamHash(events)
  {
    hash := Genesis;
    for i := 0 to |events|
      invariant hash == StreamHash(events[..i])
    {
      hash := AdvanceStreamHash(hash, events[i]);
      assert events[..i + 1][..i] == events[..i];
    }
    assert events[..|events|] == events;
  }

  method ComputeTransitionChecksum(events: seq<Event>) returns (checksum: Hash)
    ensures checksum == TransitionChecksum(events)
  {
    checksum := Genesis;
    for i := 0 to |events|
      invariant checksum == TransitionChecksum(events[..i])
    {
      checksum := AdvanceTransitionChecksum(checksum, events[i]);
      assert events[..i + 1][..i] == events[..i];
    }
    assert events[..|events|] == events;
  }

  // What the two hashes bind ------------------------------------------------

  /** The stream hash fixes every field of every event. */
  lemma {:induction false} StreamHashBinds(a: seq<Event>, b: seq<Event>)
    ensures StreamHash(a) == StreamHash(b) <==> a == b
    decreases |a|
  {
    if a != [] && b != [] {
      var x, y := a[..|a| - 1], b[..|b| - 1];
      assert a == x + [a[|a| - 1]] && b == y + [b[|b| - 1]];
      StreamHashBinds(x, y);
    }
  }

  /** Everything about an event but its timestamp and its two stored hashes. */
  datatype Transitioned = Transitioned(id: nat, run: nat, sequence: int, kind: EventType, detail: string)

  function Essence(e: Event): Transitioned { Transitioned(e.id, e.run, e.sequence, e.kind, e.detail) }

  ghost predicate SameTransitions(a: seq<Event>, b: seq<Event>) {
    |a| == |b| && forall i :: 0 <= i < |a| ==> Essence(a[i]) == Essence(b[i])
  }

  /** The replay checksum sees exactly the transitions: equal iff streams differ only in times and hashes. */
  lemma {:induction false} ChecksumSeesTransitionsOnly(a: seq<Event>, b: seq<Event>)
    ensures TransitionChecksum(a) == TransitionChecksum(b) <==> SameTransitions(a, b)
    decreases |a|
  {
    if a != [] && b != [] {
      var x, y := a[..|a| - 1], b[..|b| - 1];
      ChecksumSeesTransitionsOnly(x, y);
      if SameTransitions(a, b) {
        assert SameTransitions(x, y) && Essence(a[|a| - 1]) == Essence(b[|b| - 1]);
      }
    }
  }

  // Reduction ---------------------------------------------------------------

  function EmptyProjection(run: nat): Projection {
    var p := Projection(run, Initial, 0, Genesis, Genesis, Genesis);
    p.(checksum := ProjectionChecksum(p))
  }

  predicate ValidProjection(p: Projection) {
    && p.checksum == ProjectionChecksum(p)
    && p.last == Rank(p.state)
    && (if p.state == Initial then p.head == Genesis && p.stream == Genesis
        else p.head != Genesis && p.stream != Genesis)
  }

  /** One step of reduction; None is a refusal. */
  function Reduce(p: Projection, e: Event): Option<Projection> {
    if !ValidProjection(p) || !WellFormed(e) then None
    else if p.run != e.run then None
    else if EventHash(e) != e.hash then None
    else if e.sequence != p.last + 1 then None
    else if e.prior != (if p.last != 0 then p.head else Genesis) then None
    else
      var target := Transition(p.state, e.kind);
      if target.None? then None
      else
        var updated := p.(state := target.value, last := e.sequence, head := e.hash,
                          stream := AdvanceStreamHash(p.stream, e));
        Some(updated.(checksum := ProjectionChecksum(updated)))
  }

  /** The projection a chain ought to have. */
  function ProjectionOf(es: seq<Event>, run: nat): Projection
    requires StateAfter(es).Some?
  {
    var p := Projection(run, StateAfter(es).value, |es|, Head(es), StreamHash(es), Genesis);
    p.(checksum := ProjectionChecksum(p))
  }

  /** One event more: the reducer accepts it exactly when the chain goes on. */
  lemma ReduceExtendsChain(es: seq<Event>, e: Event, run: nat)
    requires Chain(es, run)
    ensures Chain(es + [e], run) <==> Reduce(ProjectionOf(es, run), e).Some?
    ensures Chain(es + [e], run) ==> Reduce(ProjectionOf(es, run), e) == Some(ProjectionOf(es + [e], run))
  {
    var all, p := es + [e], ProjectionOf(es, run);
    assert all[..|es|] == es && all[|es|] == e;
    ChainProjectionValid(es, run);
    if Reduce(p, e).Some? {
      ChainSnoc(es, e);
    }
  }

  lemma ChainProjectionValid(es: seq<Event>, run: nat)
    requires Chain(es, run)
    ensures ValidProjection(ProjectionOf(es, run))
  {
    StateFixesLength(es);
    if es != [] {
      ChainLast(es, run);
    }
  }

  /** The projection carries the digest of its own fields. */
  ghost predicate Unaltered(p: Projection) {
    p.checksum == Sha(ProjectionMaterial(p.run, p.state, p.last, p.head, p.stream))
  }

  /** It agrees with the history in everything but what the two digests are digests of. */
  ghost predicate ShapedLike(p: Projection, es: seq<Event>) {
    && Chain(es, p.run) && StateAfter(es) == Some(p.state) && |es| == p.last
    && (p.head == Genesis <==> es == []) && (p.stream == Genesis <==> es == [])
  }

  /** What the reducer believes of a projection: it is unaltered, and some history of its run has that shape. */
  lemma ValidIffUnalteredAndShaped(p: Projection)
    ensures ValidProjection(p) <==> Unaltered(p) && exists es :: ShapedLike(p, es)
  {
    forall es | ShapedLike(p, es) ensures p.last == Rank(p.state) && (es == [] <==> p.state == Initial) {
      StateFixesLength(es);
    }
    var es := Sample(p.run, p.state);
    SampleIsChain(p.run, p.state);
    StateFixesLength(es);
    hide Chain, StateAfter, Sample;
    if ValidProjection(p) {
      assert ShapedLike(p, es);
    }
  }

  /** A history that ends in the given state. */
  function Sample(run: nat, state: State): seq<Event>
    decreases Rank(state)
  {
    match state
    case Initial => []
    case Created => Extended([], run, RunCreated)
    case Active => Extended(Sample(run, Created), run, WorkStarted)
    case Completed => Extended(Sample(run, Active), run, WorkCompleted)
    case Failed => Extended(Sample(run, Active), run, WorkFailed)
  }

  function Extended(es: seq<Event>, run: nat, kind: EventType): seq<Event> {
    var e := Event(|es|, run, |es| + 1, Utc(0), kind, "x", Head(es), Genesis);
    es + [e.(hash := EventHash(e))]
  }

  lemma ExtendedIsChain(es: seq<Event>, run: nat, kind: EventType)
    requires Chain(es, run) && Transition(StateAfter(es).value, kind).Some?
    ensures Chain(Extended(es, run, kind), run)
    ensures StateAfter(Extended(es, run, kind)) == Transition(StateAfter(es).value, kind)
  {
    assert StateAfter(es).Some?;
    hide Chain, StateAfter, Head, Transition;
    var all := Extended(es, run, kind);
    assert all == es + [all[|es|]];
    ChainSnoc(es, all[|es|]);
    StateSnoc(es, all[|es|]);
  }

  lemma {:induction false} SampleIsChain(run: nat, state: State)
    ensures Chain(Sample(run, state), run) && StateAfter(Sample(run, state)) == Some(state)
    decreases Rank(state)
  {
    hide StateAfter, Extended;
    if state == Initial {
      NothingIsChain(run);
    } else {
      var before := if state == Created then Initial else if state == Active then Created else Active;
      var kind :=
        if state == Created then RunCreated
        else if state == Active then WorkStarted else if state == Completed then WorkCompleted else WorkFailed;
      SampleIsChain(run, before);
      hide Chain;
      ExtendedIsChain(Sample(run, before), run, kind);
    }
  }

  lemma NothingIsChain(run: nat)
    ensures Chain([], run) && StateAfter([]) == Some(Initial)
  {
  }

  /** Belief is not evidence: a valid projection that no history of any run has. */
  lemma ValidWithoutHistory() returns (p: Projection)
    ensures ValidProjection(p) && forall es, run :: Chain(es, run) ==> ProjectionOf(es, run) != p
  {
    p := Projection(0, Created, 1, Unrelated(0), Unrelated(0), Genesis);
    p := p.(checksum := ProjectionChecksum(p));
  }

  /** Exactly the events that go on from a valid projection, and the projection they lead to. */
  lemma ReduceIff(p: Projection, e: Event)
    ensures Reduce(p, e).Some? <==>
              && ValidProjection(p) && Sealed(e, p.run, p.last + 1, p.head)
              && match p.state
                 case Initial => e.kind == RunCreated
                 case Created => e.kind == WorkStarted
                 case Active => e.kind == WorkCompleted || e.kind == WorkFailed
                 case Completed => false
                 case Failed => false
    ensures Reduce(p, e).Some? ==>
              var q := Reduce(p, e).value;
              && Unaltered(q) && q.run == p.run && q.last == p.last + 1 && q.head == e.hash
              && q.stream == Sha(StreamMaterial(p.stream, e))
              && q.state == match e.kind
                            case RunCreated => Created
                            case WorkStarted => Active
                            case WorkCompleted => Completed
                            case WorkFailed => State.Failed
  {
    SealedMeans(e, p.run, p.last + 1, p.head);
  }

  /** Reduces a stream from the empty projection of its first event's run; an empty stream is refused. */
  method ProjectEvents(events: seq<Event>) returns (projection: Option<Projection>)
    ensures projection.Some? <==> events != [] && Chain(events, events[0].run)
    ensures projection.Some? ==> projection.value == ProjectionOf(events, events[0].run)
  {
    if events == [] { return None; }
    var run := events[0].run;
    var p := EmptyProjection(run);
    for i := 0 to |events|
      invariant Chain(events[..i], run) && p == ProjectionOf(events[..i], run)
    {
      assert events[..i + 1] == events[..i] + [events[i]];
      ReduceExtendsChain(events[..i], events[i], run);
      var next := Reduce(p, events[i]);
      if next.None? {
        if Chain(events, run) {
          ChainPrefixes(events, run, i + 1);
        }
        return None;
      }
      p := next.value;
    }
    assert events[..|events|] == events;
    return Some(p);
  }

  lemma ChainPrefixes(es: seq<Event>, run: nat, n: nat)
    requires n <= |es| && Chain(es, run)
    ensures Chain(es[..n], run)
    decreases |es|
  {
    if n == |es| {
      assert es[..n] == es;
    } else {
      ChainPrefix(es, run);
      ChainPrefixes(es[..|es| - 1], run, n);
      assert es[..|es| - 1][..n] == es[..n];
    }
  }

  // Replay ------------------------------------------------------------------

  datatype Verdict = Verified | InputError | ArtifactError | RunMismatch | Mismatch

  /** A stream that may stand as evidence: the whole chain of one run, with no identifier twice. */
  ghost predicate Replayable(events: seq<Event>) {
    events != [] && DistinctIds(events) && Chain(events, events[0].run)
  }

  /** Checks a replay artifact against the events it claims to come from. */
  method VerifyLifecycleReplay(events: seq<Event>, artifact: Projection, checksum: Hash) returns (verdict: Verdict)
    ensures verdict == Verified <==>
              && Replayable(events) && artifact == ProjectionOf(events, events[0].run)
              && checksum == TransitionChecksum(events)
    ensures verdict == InputError <==> !Replayable(events)
    ensures verdict == ArtifactError <==> Replayable(events) && !ValidProjection(artifact)
    ensures verdict == RunMismatch <==>
              Replayable(events) && ValidProjection(artifact) && artifact.run != events[0].run
  {
    if events == [] { return InputError; }
    var seen: set<nat> := {};
    for i := 0 to |events|
      invariant forall j :: 0 <= j < i ==> WellFormed(events[j]) && events[j].id in seen
      invariant forall x :: x in seen ==> exists j :: 0 <= j < i && events[j].id == x
      invariant forall j, k :: 0 <= j < k < i ==> events[j].id != events[k].id
    {
      if !WellFormed(events[i]) || events[i].id in seen { return InputError; }
      seen := seen + {events[i].id};
    }
    var canonical := ProjectEvents(events);
    if canonical.None? { return InputError; }
    ChainProjectionValid(events, events[0].run);
    if !ValidProjection(artifact) { return ArtifactError; }
    if artifact.run != canonical.value.run { return RunMismatch; }
    if artifact != canonical.value { return Mismatch; }
    var expected := ComputeTransitionChecksum(events);
    if checksum != expected { return Mismatch; }
    return Verified;
  }

  /** Every run a log stores is one the replay verifier accepts, with the artifact of that run. */
  lemma StoredRunsReplay(h: seq<Event>, run: nat)
    requires Legal(h) && OfRun(h, run) != []
    ensures Chain(OfRun(h, run), run) && DistinctIds(OfRun(h, run)) && OfRun(h, run)[0].run == run
    decreases |h|
  {
    LegalHistoryShape(h, run);
    RunIdsDistinct(h, run);
  }

  lemma {:induction false} RunIdsDistinct(h: seq<Event>, run: nat)
    requires Legal(h)
    ensures DistinctIds(OfRun(h, run))
    decreases |h|
  {
    if h != [] {
      var g, e := h[..|h| - 1], h[|h| - 1];
      RunIdsDistinct(g, run);
      OfRunMembers(g, run);
      assert e.id !in Ids(g);
      forall i | 0 <= i < |OfRun(g, run)| ensures OfRun(g, run)[i].id != e.id {
        assert OfRun(g, run)[i] in g;
      }
    }
  }

  /** One projection is the projection of one stream: a verified artifact has one history behind it. */
  lemma ArtifactHasOneHistory(a: seq<Event>, b: seq<Event>)
    requires a != [] && b != [] && Chain(a, a[0].run) && Chain(b, b[0].run)
    requires ProjectionOf(a, a[0].run) == ProjectionOf(b, b[0].run)
    ensures a == b
  {
    StreamHashBinds(a, b);
  }
}

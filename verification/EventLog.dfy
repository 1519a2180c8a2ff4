/**
 The in-memory event log. One re-entrant lock guards it, so calls do not overlap, except that the
 callbacks of an event builder run while the log is halfway through an ingest and may call it again.
 */
module EventLog {
  import opened Bytes
  import opened LifecycleEvents

  datatype IdAnswer = IdRaised | NotAnId | Id(id: nat)
  datatype ClockAnswer = ClockRaised | NotAnInstant | At(at: Instant)

  class InMemoryEventLog {
    var eventsByRun: map<nat, seq<Event>>
    var eventIds: set<nat>
    ghost var history: seq<Event>  // every stored event, in the order of storing

    ghost predicate Valid()
      reads this
    {
      && Legal(history)
      && eventIds == Ids(history)
      && forall run :: EventsFor(run) == OfRun(history, run)
    }

    /** The stored stream of one run; a run never seen has the empty one. */
    function EventsFor(run: nat): seq<Event>
      reads this
    {
      if run in eventsByRun then eventsByRun[run] else []
    }

    constructor ()
      ensures Valid() && history == []
    {
      eventsByRun := map[];
      eventIds := {};
      history := [];
    }

    /** Folds the transition table; None is the refusal of a stream that leaves it. */
    static method CurrentState(events: seq<Event>) returns (state: Option<State>)
      ensures state == StateAfter(events)
    {
      var current := Initial;
      for i := 0 to |events|
        invariant StateAfter(events[..i]) == Some(current)
      {
        assert events[..i + 1][..i] == events[..i];
        var next := Transition(current, events[i].kind);
        if next.None? {
          StaysIllegal(events, i + 1);
          return None;
        }
        current := next.value;
      }
      assert events[..|events|] == events;
      return Some(current);
    }

    method Append(e: Event) returns (stored: bool)
      requires Valid()
      modifies this
      ensures Valid()
      ensures stored <==> Admissible(old(history), e)
      ensures history == if stored then old(history) + [e] else old(history)
      ensures !stored ==> eventsByRun == old(eventsByRun) && eventIds == old(eventIds)
    {
      hide Legal, OfRun, StateAfter, Ids, WellFormed, EventHash, Transition, Head;
      if !WellFormed(e) { return false; }
      if EventHash(e) != e.hash { return false; }
      if e.id in eventIds { return false; }
      var events := EventsFor(e.run);
      if e.sequence != |events| + 1 { return false; }
      if e.prior != Head(events) { return false; }
      var state := CurrentState(events);
      if state.None? || Transition(state.value, e.kind).None? { return false; }
      forall run ensures OfRun(history + [e], run) == if e.run == run then events + [e] else EventsFor(run) {
        OfRunSnoc(history, e, run);
      }
      OfRunSnoc(history, e, e.run);
      eventsByRun := eventsByRun[e.run := events + [e]];
      eventIds := eventIds + {e.id};
      history := history + [e];
      return true;
    }

    /**
     Builds an event from the log's own authority and stores it. Two callbacks answer `id` and `now`,
     and may call the log before they do: `nested` is what was stored on the way.
     */
    method Ingest(intent: Intent, id: IdAnswer, now: ClockAnswer, depth: nat)
      returns (result: Option<Event>, ghost nested: seq<Event>)
      requires Valid()
      modifies this
      ensures Valid()
      ensures history == old(history) + nested + (if result.Some? then [result.value] else [])
      // it is refused before any callback runs, or exactly when an answer is unusable or the event stale
      ensures Refused(old(history), intent) ==> nested == [] && result.None?
      ensures !Refused(old(history), intent) ==>
                (result.Some? <==>
                   Usable(id, now) && StillTimely(Intended(intent, id.id, now.at, old(history)), old(history), nested))
      ensures result.Some? ==> result.value == Intended(intent, id.id, now.at, old(history))
      decreases depth, 3
    {
      nested := [];
      if !DetailOk(intent.detail) { return None, nested; }
      var events := EventsFor(intent.run);
      var state := CurrentState(events);
      if state.None? || Transition(state.value, intent.kind).None? { return None, nested; }
      result, nested := Build(intent, |events| + 1, Head(events), id, now, depth);
      if result.Some? {
        assert BuiltOn(result.value, old(history), intent);
        TimelyIsAdmissible(result.value, old(history), nested, intent);
        var stored := Append(result.value);
        result := if stored then result else None;
      }
    }

    /** The builder: two callbacks, then one sealed event. It keeps nothing between calls. */
    method Build(intent: Intent, sequence: int, prior: Hash, id: IdAnswer, now: ClockAnswer, depth: nat)
      returns (event: Option<Event>, ghost nested: seq<Event>)
      requires Valid()
      modifies this
      ensures Valid() && history == old(history) + nested
      ensures !(1 <= |intent.detail| <= 1000) ==> nested == []
      ensures event.Some? <==> 1 <= |intent.detail| <= 1000 && sequence >= 1 && Usable(id, now)
      ensures event.Some? ==> event.value == Event(
                id.id, intent.run, sequence, now.at, intent.kind, intent.detail, prior,
                Sha(EventMaterial(id.id, intent.run, sequence, now.at, intent.kind, intent.detail, prior)))
      decreases depth, 2
    {
      nested := [];
      if !DetailOk(intent.detail) { return None, nested; }
      nested := Callback(depth);
      if !id.Id? { return None, nested; }
      ghost var more := Callback(depth);
      nested := nested + more;
      if !now.At? || !now.at.Utc? { return None, nested; }
      var unsigned := Event(id.id, intent.run, sequence, now.at, intent.kind, intent.detail, prior, Genesis);
      if !WellFormed(unsigned) { return None, nested; }
      return Some(unsigned.(hash := EventHash(unsigned))), nested;
    }

    /** Foreign code that may call the log any number of times, to any depth, before it answers. */
    method Callback(depth: nat) returns (ghost nested: seq<Event>)
      requires Valid()
      modifies this
      ensures Valid() && history == old(history) + nested
      decreases depth, 1
    {
      hide *;
      nested := [];
      var calls: nat :| calls >= 0;
      for i := 0 to calls
        invariant Valid() && history == old(history) + nested
      {
        ghost var more := AnyCall(depth);
        nested := nested + more;
      }
    }

    method AnyCall(depth: nat) returns (ghost nested: seq<Event>)
      requires Valid()
      modifies this
      ensures Valid() && history == old(history) + nested
      decreases depth, 0
    {
      hide *;
      nested := [];
      var appends: bool := *;
      if appends {
        var e: Event := *;
        var stored := Append(e);
        nested := if stored then [e] else [];
      } else if depth > 0 {
        var intent: Intent := *;
        var id: IdAnswer := *;
        var now: ClockAnswer := *;
        var result, inner := Ingest(intent, id, now, depth - 1);
        nested := inner + if result.Some? then [result.value] else [];
      }
    }
  }

  /** The intent is malformed, or not a transition of its run's current state. */
  predicate Refused(h: seq<Event>, intent: Intent) {
    var state := StateAfter(OfRun(h, intent.run));
    !(1 <= |intent.detail| <= 1000) || state.None? || Transition(state.value, intent.kind).None?
  }

  /** The answers of the two callbacks are an identifier and a UTC instant. */
  predicate Usable(id: IdAnswer, now: ClockAnswer) { id.Id? && now.At? && now.at.Utc? }

  /** The intent, placed on the head of its run as it stood in h and sealed there. */
  function Intended(intent: Intent, id: nat, at: Instant, h: seq<Event>): Event {
    var events := OfRun(h, intent.run);
    var (n, prior) := (|events| + 1, if events == [] then Genesis else events[|events| - 1].hash);
    Event(id, intent.run, n, at, intent.kind, intent.detail, prior,
          Sha(EventMaterial(id, intent.run, n, at, intent.kind, intent.detail, prior)))
  }

  /** The event is the intent, sealed on the head of its run as it stood in h. */
  predicate BuiltOn(e: Event, h: seq<Event>, intent: Intent) {
    e.at.Utc? && e == Intended(intent, e.id, e.at, h)
  }

  lemma IntendedIsBuilt(intent: Intent, id: nat, at: Instant, h: seq<Event>)
    requires at.Utc?
    ensures BuiltOn(Intended(intent, id, at, h), h, intent)
  {
  }

  /** No callback stored an event of the same run, and nobody has used the identifier. */
  predicate StillTimely(e: Event, h: seq<Event>, nested: seq<Event>) {
    OfRun(nested, e.run) == [] && e.id !in Ids(h + nested)
  }

  lemma TimelyIsAdmissible(e: Event, h: seq<Event>, nested: seq<Event>, intent: Intent)
    requires BuiltOn(e, h, intent) && !Refused(h, intent)
    ensures Admissible(h + nested, e) <==> StillTimely(e, h, nested)
  {
    OfRunConcat(h, nested, e.run);
    hide StateAfter, Ids;
    assert OfRun(h, e.run) + [] == OfRun(h, e.run);
  }

  lemma {:induction false} StaysIllegal(events: seq<Event>, i: nat)
    requires i <= |events| && StateAfter(events[..i]).None?
    ensures StateAfter(events).None?
    decreases |events| - i
  {
    if i == |events| {
      assert events[..i] == events;
    } else {
      assert events[..i + 1][..i] == events[..i];
      StaysIllegal(events, i + 1);
    }
  }
}

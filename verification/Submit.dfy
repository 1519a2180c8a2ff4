/**
 The delegated submit pipeline over one event log, one atomic claim authority and one dispatch port.
 Between any two of its steps other callers may submit too, and anyone may append to the log. The
 grant verifier, the claim authority's transport and the dispatch port answer as they please.
 */
module Submit {
  import opened Bytes
  import opened LifecycleEvents
  import opened EventLog
  import opened SubmitTrace

  function CreatedDetail(c: GrantClaim): string {
    "delegated claim intent for authorization " + c.grant.authorization
  }

  function StartedDetail(c: GrantClaim): string {
    "delegated grant " + c.grant.grantId + " claimed; authorization recorded"
  }

  function RunOf(c: GrantClaim): nat { c.request.pins.run }

  /** The claim, when request, grant and policy agree. */
  function ClaimFor(policy: Policy, request: Request, facts: Facts): Option<GrantClaim> {
    if request.pins != facts.pins || request.pins.model != policy.model || request.route != policy.route
    then None else Some(GrantClaim(request, facts, policy))
  }

  predicate Good(c: GrantClaim) { Granted(c.policy, c.request, c.grant) }

  /** The first entry of the claim's run is its creation for this authorization. */
  predicate HasCreated(h: seq<Event>, c: GrantClaim) {
    var es := OfRun(h, RunOf(c));
    |es| >= 1 && es[0].kind == RunCreated && es[0].detail == CreatedDetail(c)
  }

  /** And the second is its start. */
  predicate HasStarted(h: seq<Event>, c: GrantClaim) {
    var es := OfRun(h, RunOf(c));
    |es| >= 2 && es[1].kind == WorkStarted && es[1].detail == StartedDetail(c)
  }

  ghost predicate Recorded(t: seq<Effect>, h: seq<Event>) {
    forall e :: e in t ==>
      && (Succeeds(e, CreateRun) ==> HasCreated(h, e.claim))
      && (Succeeds(e, StartRun) ==> HasStarted(h, e.claim))
  }

  /** Whatever was dispatched stands in the log: created for its authorization, then started for its grant. */
  lemma DispatchIsRecorded(t: seq<Effect>, h: seq<Event>, i: nat)
    requires Disciplined(t) && Recorded(t, h) && i < |t| && t[i].stage == Dispatch
    ensures HasCreated(h, t[i].claim) && HasStarted(h, t[i].claim)
    ensures var es, g := OfRun(h, t[i].claim.request.pins.run), t[i].claim.grant;
            && |es| >= 2 && es[0].kind == RunCreated && es[1].kind == WorkStarted
            && es[0].detail == "delegated claim intent for authorization " + g.authorization
            && es[1].detail == "delegated grant " + g.grantId + " claimed; authorization recorded"
  {
    DispatchFollowsClaim(t, i);
    var created := OfCallMember(t[..i], t[i].call, 0);
    var started := OfCallMember(t[..i], t[i].call, 2);
    assert t[created] in t && t[started] in t;
  }

  lemma RunGrows(h: seq<Event>, g: seq<Event>, run: nat)
    requires h <= g
    ensures OfRun(h, run) <= OfRun(g, run)
  {
    assert g == h + g[|h|..];
    OfRunConcat(h, g[|h|..], run);
  }

  lemma RecordGrows(t: seq<Effect>, h: seq<Event>, g: seq<Event>)
    requires h <= g && Recorded(t, h)
    ensures Recorded(t, g)
  {
    forall e | e in t
      ensures (Succeeds(e, CreateRun) ==> HasCreated(g, e.claim)) && (Succeeds(e, StartRun) ==> HasStarted(g, e.claim))
    {
      RunGrows(h, g, RunOf(e.claim));
    }
  }

  /** An ingested event stands right after what its run held before. */
  lemma IngestedStands(h: seq<Event>, nested: seq<Event>, e: Event, intent: Intent)
    requires BuiltOn(e, h, intent) && !Refused(h, intent) && StillTimely(e, h, nested)
    ensures OfRun(h + nested + [e], e.run) == OfRun(h, e.run) + [e]
    ensures intent.kind == RunCreated ==> OfRun(h, e.run) == []
    ensures intent.kind == WorkStarted ==> |OfRun(h, e.run)| == 1
  {
    OfRunSnoc(h + nested, e, e.run);
    OfRunConcat(h, nested, e.run);
    StateFixesLength(OfRun(h, e.run));
  }

  /** The first k effects of a call, all of which went well. */
  function DoneSoFar(me: nat, claim: GrantClaim, k: nat): seq<Effect>
    requires k <= 4
  {
    if k == 0 then [] else DoneSoFar(me, claim, k - 1) + [Effect(me, StageAt(k - 1), claim, Done)]
  }

  /** Each submission in progress has had its effects so far, all done; the others have stopped. */
  ghost predicate InProgress(t: seq<Effect>, first: nat, claims: seq<GrantClaim>, progress: seq<Option<nat>>) {
    |progress| == |claims|
    && forall i :: 0 <= i < |progress| && progress[i].Some? ==>
         progress[i].value <= 4 && OfCall(t, first + i) == DoneSoFar(first + i, claims[i], progress[i].value)
  }

  lemma Pending(t: seq<Effect>, first: nat, claims: seq<GrantClaim>, progress: seq<Option<nat>>, i: nat)
    requires InProgress(t, first, claims, progress) && i < |progress| && progress[i].Some?
    ensures |progress| == |claims| && progress[i].value <= 4
    ensures OfCall(t, first + i) == DoneSoFar(first + i, claims[i], progress[i].value)
  {
  }

  lemma ProgressKept(t: seq<Effect>, u: seq<Effect>, first: nat, claims: seq<GrantClaim>,
                     progress: seq<Option<nat>>, i: nat, outcome: Outcome)
    requires InProgress(t, first, claims, progress) && i < |progress| && progress[i].Some? && progress[i].value < 4
    requires OneMore(t, u, first + i, Effect(first + i, StageAt(progress[i].value), claims[i], outcome))
    ensures InProgress(u, first, claims, progress[i := if outcome == Done then Some(progress[i].value + 1) else None])
    ensures t <= u
  {
    hide OfCall, DoneSoFar;
    DoneOneMore(first + i, claims[i], progress[i].value);
  }

  lemma NewCallsEmpty(t: seq<Effect>, first: nat)
    requires forall e :: e in t ==> e.call < first
    ensures forall call: nat :: first <= call ==> OfCall(t, call) == []
  {
    forall call: nat | first <= call ensures OfCall(t, call) == [] {
      FreshCallIsEmpty(t, call);
    }
  }

  lemma NothingDone()
    ensures forall me: nat, claim :: DoneSoFar(me, claim, 0) == []
  {
  }

  lemma FirstStages(me: nat, claim: GrantClaim)
    ensures DoneSoFar(me, claim, 0) == []
    ensures DoneSoFar(me, claim, 1) == [Effect(me, CreateRun, claim, Done)]
    ensures DoneSoFar(me, claim, 2) == [Effect(me, CreateRun, claim, Done), Effect(me, ClaimGrant, claim, Done)]
    ensures DoneSoFar(me, claim, 3) ==
            [Effect(me, CreateRun, claim, Done), Effect(me, ClaimGrant, claim, Done), Effect(me, StartRun, claim, Done)]
  {
    DoneOneMore(me, claim, 0);
    DoneOneMore(me, claim, 1);
    DoneOneMore(me, claim, 2);
  }

  lemma DoneOneMore(me: nat, claim: GrantClaim, k: nat)
    requires k < 4
    ensures DoneSoFar(me, claim, k + 1) == DoneSoFar(me, claim, k) + [Effect(me, StageAt(k), claim, Done)]
  {
  }

  /** Meanwhile call me had one effect more, and no older call any. */
  ghost predicate Advanced(t: seq<Effect>, u: seq<Effect>, older: nat, me: nat, e: Effect) {
    && OfCall(u, me) == OfCall(t, me) + [e]
    && forall call: nat :: call < older && call != me ==> OfCall(u, call) == OfCall(t, call)
  }

  function EntryIntent(claim: GrantClaim, start: bool): Intent {
    if start then Intent(RunOf(claim), WorkStarted, StartedDetail(claim))
    else Intent(RunOf(claim), RunCreated, CreatedDetail(claim))
  }

  function EntryEffect(me: nat, claim: GrantClaim, start: bool, stored: bool): Effect {
    Effect(me, if start then StartRun else CreateRun, claim, if stored then Done else Unknown)
  }

  lemma EntryStands(h: seq<Event>, nested: seq<Event>, e: Event, claim: GrantClaim, start: bool)
    requires var intent := EntryIntent(claim, start);
             BuiltOn(e, h, intent) && !Refused(h, intent) && StillTimely(e, h, nested)
    ensures start ==> HasStarted(h + nested + [e], claim)
    ensures !start ==> HasCreated(h + nested + [e], claim) && OfRun(h, RunOf(claim)) == []
  {
    IngestedStands(h, nested, e, EntryIntent(claim, start));
  }

  /** One effect of one call was added, and the other calls did nothing. */
  ghost predicate OneMore(t: seq<Effect>, u: seq<Effect>, me: nat, e: Effect) {
    && u == t + [e] && e.call == me
    && OfCall(u, me) == OfCall(t, me) + [e]
    && forall call: nat :: call != me ==> OfCall(u, call) == OfCall(t, call)
  }

  lemma OneMoreEffect(t: seq<Effect>, e: Effect)
    ensures OneMore(t, t + [e], e.call, e)
  {
    forall call: nat
      ensures OfCall(t + [e], call) == if call == e.call then OfCall(t, call) + [e] else OfCall(t, call)
    {
      OfCallSnoc(t, e, call);
    }
  }

  class World {
    const log: InMemoryEventLog
    var consumed: set<string>  // authorizations that the claim authority has given away
    ghost var effects: seq<Effect>
    ghost var calls: nat

    ghost predicate Valid()
      reads this, log
    {
      && log.Valid()
      && Disciplined(effects)
      && AllGranted(effects)
      && (forall e :: e in effects ==> e.call < calls)
      && (forall e :: e in effects && Succeeds(e, ClaimGrant) ==> Authorization(e) in consumed)
      && Recorded(effects, log.history)
    }

    constructor (log: InMemoryEventLog)
      requires log.Valid()
      ensures Valid() && this.log == log && effects == [] && consumed == {} && calls == 0
    {
      this.log := log;
      consumed := {};
      effects := [];
      calls := 0;
    }

    /** One entry for the claim's run, with whatever callbacks the builder runs. */
    method Enter(ghost me: nat, claim: GrantClaim, start: bool) returns (stored: bool)
      requires Valid() && me < calls && Good(claim)
      requires OfCall(effects, me) ==
               if start then [Effect(me, CreateRun, claim, Done), Effect(me, ClaimGrant, claim, Done)] else []
      modifies this`effects, log
      ensures Valid() && old(log.history) <= log.history
      ensures OneMore(old(effects), effects, me, EntryEffect(me, claim, start, stored))
    {
      hide Disciplined, Recorded, MayFollow, OneMore, OfCall, OfRun, Legal, Ids, BuiltOn, Intended, StillTimely;
      hide Refused, Granted;
      hide StateAfter;
      ghost var before := log.history;
      var intent := EntryIntent(claim, start);
      var depth: nat :| depth >= 0;
      var id: IdAnswer := *;
      var now: ClockAnswer := *;
      var result, nested := log.Ingest(intent, id, now, depth);
      stored := result.Some?;
      ghost var e := EntryEffect(me, claim, start, stored);
      if stored {
        IntendedIsBuilt(intent, id.id, now.at, before);
        EntryStands(before, nested, result.value, claim, start);
      }
      EntryMayFollow(effects, before, e);
      DisciplineKept(effects, e);
      RecordEntry(effects, before, log.history, e);
      OneMoreEffect(effects, e);
      effects := effects + [e];
    }

    /**
     The claim authority: whatever becomes of its answer on the way, it says CLAIMED at most once for
     one authorization, and it may have given the authorization away without saying so.
     */
    method Claim(ghost me: nat, claim: GrantClaim) returns (outcome: Outcome)
      requires Valid() && me < calls && Good(claim)
      requires OfCall(effects, me) == [Effect(me, CreateRun, claim, Done)]
      modifies this`effects, this`consumed
      ensures Valid() && old(consumed) <= consumed
      ensures OneMore(old(effects), effects, me, Effect(me, ClaimGrant, claim, outcome))
      ensures outcome == Done ==> claim.grant.authorization in consumed - old(consumed)
    {
      hide Disciplined, Recorded;
      var reached: bool, answered: bool := *, *;
      var free := claim.grant.authorization !in consumed;
      outcome := if !answered then Unknown else if reached && free then Done else Denied;
      ghost var e := Effect(me, ClaimGrant, claim, outcome);
      assert MayFollow(effects, e);
      DisciplineKept(effects, e);
      RecordOther(effects, log.history, e);
      if reached {
        consumed := consumed + {claim.grant.authorization};
      }
      OneMoreEffect(effects, e);
      effects := effects + [e];
    }

    method DispatchOnce(ghost me: nat, claim: GrantClaim) returns (returned: bool)
      requires Valid() && me < calls && Good(claim)
      requires OfCall(effects, me) ==
               [Effect(me, CreateRun, claim, Done), Effect(me, ClaimGrant, claim, Done),
                Effect(me, StartRun, claim, Done)]
      modifies this`effects
      ensures Valid()
      ensures OneMore(old(effects), effects, me, Effect(me, Dispatch, claim, if returned then Done else Unknown))
    {
      hide Disciplined, Recorded;
      returned := *;
      ghost var e := Effect(me, Dispatch, claim, if returned then Done else Unknown);
      assert MayFollow(effects, e);
      DisciplineKept(effects, e);
      RecordOther(effects, log.history, e);
      OneMoreEffect(effects, e);
      effects := effects + [e];
    }

    /** The next effect of a call that has had k of them, all done. */
    method Advance(ghost me: nat, claim: GrantClaim, k: nat) returns (outcome: Outcome)
      requires Valid() && me < calls && Good(claim) && k < 4 && OfCall(effects, me) == DoneSoFar(me, claim, k)
      modifies this`effects, this`consumed, log
      ensures Valid() && old(log.history) <= log.history && old(consumed) <= consumed
      ensures OneMore(old(effects), effects, me, Effect(me, StageAt(k), claim, outcome))
    {
      hide OfCall, OneMore, World.Valid;
      FirstStages(me, claim);
      if k == 1 {
        outcome := Claim(me, claim);
      } else {
        var done;
        if k == 3 {
          done := DispatchOnce(me, claim);
        } else {
          done := Enter(me, claim, k == 2);
        }
        outcome := if done then Done else Unknown;
      }
    }

    /**
     Any number of authorized submissions, and appends by anyone, interleaved one effect at a time in
     any order for any time: the discipline of the trace and the log's record of it are kept.
     */
    method Interleave(claims: seq<GrantClaim>)
      requires Valid() && forall i :: 0 <= i < |claims| ==> Good(claims[i])
      modifies this, log
      ensures Valid() && AllGranted(effects) && old(log.history) <= log.history && old(consumed) <= consumed
      ensures old(effects) <= effects
    {
      hide OfCall, DoneSoFar;
      ghost var first := calls;
      var progress: seq<Option<nat>> := seq(|claims|, i requires 0 <= i < |claims| => Some(0));
      NewCallsEmpty(effects, first);
      NothingDone();
      calls := calls + |claims|;
      assert InProgress(effects, first, claims, progress);
      hide World.Valid, InProgress, OneMore;
      var steps: nat :| steps >= 0;
      for n := 0 to steps
        invariant Valid() && old(log.history) <= log.history && old(consumed) <= consumed
        invariant old(effects) <= effects && calls == first + |claims|
        invariant InProgress(effects, first, claims, progress)
      {
        var i: int := *;
        if 0 <= i < |progress| && progress[i].Some? && progress[i].value < 4 {
          ghost var before := effects;
          Pending(before, first, claims, progress, i);
          var outcome := Advance(first + i, claims[i], progress[i].value);
          ProgressKept(before, effects, first, claims, progress, i, outcome);
          progress := progress[i := if outcome == Done then Some(progress[i].value + 1) else None];
        } else {
          OthersAppend();
        }
      }
    }

    /** Whatever the rest of the world does meanwhile. */
    method Others(depth: nat)
      requires Valid()
      modifies this, log
      ensures Valid() && old(log.history) <= log.history && old(consumed) <= consumed && old(calls) <= calls
      ensures forall call: nat :: call < old(calls) ==> OfCall(effects, call) == OfCall(old(effects), call)
      decreases depth, 0, 0
    {
      hide *;
      var count: nat :| count >= 0;
      for i := 0 to count
        invariant Valid() && old(log.history) <= log.history && old(consumed) <= consumed && old(calls) <= calls
        invariant forall call: nat :: call < old(calls) ==> OfCall(effects, call) == OfCall(old(effects), call)
      {
        var submits: bool := *;
        if submits {
          if depth > 0 {
            var policy: Policy, request: Option<Request>, facts: Option<Facts> := *, *, *;
            var ingress := new DelegatedRequestIngress(policy, this);
            var state := ingress.Submit(request, facts, depth - 1);
          }
        } else {
          OthersAppend();
        }
      }
    }

    method OthersAppend()
      requires Valid()
      modifies log
      ensures Valid() && old(log.history) <= log.history
    {
      hide Disciplined, Recorded;
      var depth: nat :| depth >= 0;
      ghost var before := log.history;
      ghost var more := log.Callback(depth);
      RecordGrows(effects, before, log.history);
    }
  }

  lemma EntryMayFollow(t: seq<Effect>, h: seq<Event>, e: Effect)
    requires Recorded(t, h) && (Succeeds(e, CreateRun) ==> OfRun(h, Run(e)) == [])
    requires e.stage == CreateRun || e.stage == StartRun
    requires e.stage == CreateRun ==> OfCall(t, e.call) == []
    requires e.stage == StartRun ==>
               OfCall(t, e.call) ==
               [Effect(e.call, CreateRun, e.claim, Done), Effect(e.call, ClaimGrant, e.claim, Done)]
    ensures MayFollow(t, e)
  {
    if Succeeds(e, CreateRun) {
      forall x | x in t && Succeeds(x, CreateRun) ensures Run(x) != Run(e) {
        assert HasCreated(h, x.claim);
      }
    }
  }

  lemma RecordEntry(t: seq<Effect>, h: seq<Event>, g: seq<Event>, e: Effect)
    requires Recorded(t, h) && h <= g
    requires Succeeds(e, CreateRun) ==> HasCreated(g, e.claim)
    requires Succeeds(e, StartRun) ==> HasStarted(g, e.claim)
    ensures Recorded(t + [e], g)
  {
    RecordGrows(t, h, g);
  }

  lemma RecordOther(t: seq<Effect>, h: seq<Event>, e: Effect)
    requires Recorded(t, h) && (e.stage == ClaimGrant || e.stage == Dispatch)
    ensures Recorded(t + [e], h)
  {
  }

  /** What a call has done, told by the state it returned: always a prefix of the four effects. */
  function EffectsOf(me: nat, c: GrantClaim, state: SubmissionState): seq<Effect> {
    var created, claimed := [Effect(me, CreateRun, c, Done)], [Effect(me, ClaimGrant, c, Done)];
    var started := [Effect(me, StartRun, c, Done)];
    match state
    case RejectedNotClaimed => []
    case PreclaimPersistenceFailed => [Effect(me, CreateRun, c, Unknown)]
    case ClaimUncertain => created + [Effect(me, ClaimGrant, c, Unknown)]
    case NotClaimed => created + [Effect(me, ClaimGrant, c, Denied)]
    case ClaimedPersistenceUncertain => created + claimed + [Effect(me, StartRun, c, Unknown)]
    case DispatchUncertain => created + claimed + started + [Effect(me, Dispatch, c, Unknown)]
    case Succeeded => created + claimed + started + [Effect(me, Dispatch, c, Done)]
  }

  class DelegatedRequestIngress {
    const policy: Policy
    const world: World

    constructor (policy: Policy, world: World)
      ensures this.policy == policy && this.world == world
    {
      this.policy := policy;
      this.world := world;
    }

    /**
     Submits once. `request` is None when it does not validate, `facts` None when the verifier raises
     or returns something else than facts.
     */
    method Submit(request: Option<Request>, facts: Option<Facts>, depth: nat) returns (state: SubmissionState)
      requires world.Valid()
      modifies world, world.log
      ensures world.Valid() && old(world.log.history) <= world.log.history
      ensures old(world.consumed) <= world.consumed && old(world.calls) < world.calls
      ensures forall call: nat :: call < old(world.calls) ==>
                OfCall(world.effects, call) == OfCall(old(world.effects), call)
      ensures AllGranted(world.effects)
      ensures state != RejectedNotClaimed <==>
                request.Some? && facts.Some? && Granted(policy, request.value, facts.value)
      ensures OfCall(world.effects, old(world.calls)) ==
                if state == RejectedNotClaimed then []
                else EffectsOf(old(world.calls), GrantClaim(request.value, facts.value, policy), state)
      decreases depth, 2, 0
    {
      hide Disciplined, Recorded, InOrder;
      ghost var me := world.calls;
      FreshCallIsEmpty(world.effects, me);
      world.calls := world.calls + 1;
      if !policy.executeEnabled { return RejectedNotClaimed; }
      if request.None? || facts.None? { return RejectedNotClaimed; }
      var authorized := ClaimFor(policy, request.value, facts.value);
      if authorized.None? { return RejectedNotClaimed; }
      var claim := authorized.value;
      state := Pursue(me, claim, depth);
    }

    /** The effects of an authorized submission, with the others' doings in between. */
    method Pursue(ghost me: nat, claim: GrantClaim, depth: nat) returns (state: SubmissionState)
      requires world.Valid() && me < world.calls && Good(claim) && OfCall(world.effects, me) == []
      modifies world, world.log
      ensures world.Valid() && old(world.log.history) <= world.log.history
      ensures old(world.consumed) <= world.consumed && old(world.calls) <= world.calls
      ensures forall call: nat :: call < old(world.calls) && call != me ==>
                OfCall(world.effects, call) == OfCall(old(world.effects), call)
      ensures state != RejectedNotClaimed
      ensures OfCall(world.effects, me) == EffectsOf(me, claim, state)
      decreases depth, 1, 0
    {
      hide OfCall, World.Valid;
      var stored := EnterLater(me, claim, false, depth);
      if !stored {
        return PreclaimPersistenceFailed;
      }
      var outcome := ClaimLater(me, claim, depth);
      if outcome != Done {
        state := if outcome == Unknown then ClaimUncertain else NotClaimed;
        return state;
      }
      stored := EnterLater(me, claim, true, depth);
      if !stored {
        return ClaimedPersistenceUncertain;
      }
      var returned := DispatchLater(me, claim, depth);
      state := if returned then Succeeded else DispatchUncertain;
    }

    method EnterLater(ghost me: nat, claim: GrantClaim, start: bool, depth: nat) returns (stored: bool)
      requires world.Valid() && me < world.calls && Good(claim)
      requires OfCall(world.effects, me) ==
               if start then [Effect(me, CreateRun, claim, Done), Effect(me, ClaimGrant, claim, Done)] else []
      modifies world, world.log
      ensures world.Valid() && old(world.log.history) <= world.log.history
      ensures old(world.consumed) <= world.consumed && old(world.calls) <= world.calls
      ensures Advanced(old(world.effects), world.effects, old(world.calls), me, EntryEffect(me, claim, start, stored))
      decreases depth, 0, 1
    {
      hide Disciplined, Recorded, OfCall, EntryEffect;
      world.Others(depth);
      stored := world.Enter(me, claim, start);
    }

    method ClaimLater(ghost me: nat, claim: GrantClaim, depth: nat) returns (outcome: Outcome)
      requires world.Valid() && me < world.calls && Good(claim)
      requires OfCall(world.effects, me) == [Effect(me, CreateRun, claim, Done)]
      modifies world, world.log
      ensures world.Valid() && old(world.log.history) <= world.log.history
      ensures old(world.consumed) <= world.consumed && old(world.calls) <= world.calls
      ensures Advanced(old(world.effects), world.effects, old(world.calls), me, Effect(me, ClaimGrant, claim, outcome))
      decreases depth, 0, 1
    {
      hide Disciplined, Recorded, OfCall;
      world.Others(depth);
      outcome := world.Claim(me, claim);
    }

    method DispatchLater(ghost me: nat, claim: GrantClaim, depth: nat) returns (returned: bool)
      requires world.Valid() && me < world.calls && Good(claim)
      requires OfCall(world.effects, me) ==
               [Effect(me, CreateRun, claim, Done), Effect(me, ClaimGrant, claim, Done),
                Effect(me, StartRun, claim, Done)]
      modifies world, world.log
      ensures world.Valid() && old(world.log.history) <= world.log.history
      ensures old(world.consumed) <= world.consumed && old(world.calls) <= world.calls
      ensures Advanced(old(world.effects), world.effects, old(world.calls), me,
                Effect(me, Dispatch, claim, if returned then Done else Unknown))
      decreases depth, 0, 1
    {
      hide Disciplined, Recorded, OfCall;
      world.Others(depth);
      returned := world.DispatchOnce(me, claim);
    }
  }

  lemma {:induction false} FreshCallIsEmpty(t: seq<Effect>, call: nat)
    requires forall e :: e in t ==> e.call < call
    ensures OfCall(t, call) == []
    decreases |t|
  {
    if t != [] {
      FreshCallIsEmpty(t[..|t| - 1], call);
    }
  }
}

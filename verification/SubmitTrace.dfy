/**
 What the submit pipeline may do, as a trace of effects of many calls: each call creates the run,
 claims the authorization, starts the run and dispatches, in that order, stopping at the first effect
 that does not go well.
 */
module SubmitTrace {
  import opened Bytes

  /** The facts that a request and a verified grant both state. */
  datatype Pins = Pins(
    run: nat, requestHash: nat, artifactHash: nat, contractHash: nat, tenant: nat, backend: nat, model: nat,
    topic: nat, eventClass: nat, eventIndex: nat)

  datatype Request = Request(pins: Pins, route: nat)
  datatype Facts = Facts(authorization: string, grantId: string, pins: Pins)
  datatype Policy = Policy(executeEnabled: bool, model: nat, route: nat)
  datatype GrantClaim = GrantClaim(request: Request, grant: Facts, policy: Policy)

  /** Request and grant state the same, fact by fact. */
  predicate SameFacts(p: Pins, q: Pins) {
    && p.run == q.run && p.requestHash == q.requestHash && p.artifactHash == q.artifactHash
    && p.contractHash == q.contractHash && p.tenant == q.tenant && p.backend == q.backend && p.model == q.model
    && p.topic == q.topic && p.eventClass == q.eventClass && p.eventIndex == q.eventIndex
  }

  /** Execution is enabled, the grant is for this very request, and model and route are the policy's. */
  predicate Granted(policy: Policy, request: Request, facts: Facts) {
    && policy.executeEnabled && SameFacts(request.pins, facts.pins)
    && request.pins.model == policy.model && request.route == policy.route
  }

  /** Nothing was done but for claims whose grant is for their request. */
  ghost predicate AllGranted(t: seq<Effect>) {
    forall i :: 0 <= i < |t| ==> Granted(t[i].claim.policy, t[i].claim.request, t[i].claim.grant)
  }

  datatype Stage = CreateRun | ClaimGrant | StartRun | Dispatch
  datatype Outcome = Done | Denied | Unknown
  datatype Effect = Effect(call: nat, stage: Stage, claim: GrantClaim, outcome: Outcome)

  datatype SubmissionState =
    | RejectedNotClaimed
    | PreclaimPersistenceFailed
    | ClaimUncertain
    | NotClaimed
    | ClaimedPersistenceUncertain
    | DispatchUncertain
    | Succeeded

  function StageAt(i: nat): Stage
    requires i < 4
  {
    if i == 0 then CreateRun else if i == 1 then ClaimGrant else if i == 2 then StartRun else Dispatch
  }

  function OfCall(t: seq<Effect>, call: nat): seq<Effect> {
    if t == [] then []
    else
      var before, e := OfCall(t[..|t| - 1], call), t[|t| - 1];
      if e.call == call then before + [e] else before
  }

  /** One call's effects so far: the stages in order, for one claim, nothing after a bad outcome. */
  ghost predicate InOrder(own: seq<Effect>) {
    && |own| <= 4
    && (forall i :: 0 <= i < |own| ==> own[i].stage == StageAt(i) && own[i].claim == own[0].claim)
    && forall i :: 0 <= i < |own| - 1 ==> own[i].outcome == Done
  }

  ghost predicate Succeeds(e: Effect, stage: Stage) { e.stage == stage && e.outcome == Done }

  /** Every call in order, no run created twice, no authorization claimed twice. */
  ghost predicate Disciplined(t: seq<Effect>) {
    && (forall call: nat :: InOrder(OfCall(t, call)))
    && (forall i, j :: 0 <= i < j < |t| && Succeeds(t[i], CreateRun) && Succeeds(t[j], CreateRun)
          ==> Run(t[i]) != Run(t[j]))
    && (forall i, j :: 0 <= i < j < |t| && Succeeds(t[i], ClaimGrant) && Succeeds(t[j], ClaimGrant)
          ==> Authorization(t[i]) != Authorization(t[j]))
  }

  function Run(e: Effect): nat { e.claim.request.pins.run }
  function Authorization(e: Effect): string { e.claim.grant.authorization }

  lemma OfCallSnoc(t: seq<Effect>, e: Effect, call: nat)
    ensures OfCall(t + [e], call) == if e.call == call then OfCall(t, call) + [e] else OfCall(t, call)
  {
    assert (t + [e])[..|t|] == t;
  }

  lemma {:induction false} OfCallMember(t: seq<Effect>, call: nat, i: nat) returns (at: nat)
    requires i < |OfCall(t, call)|
    ensures at < |t| && t[at] == OfCall(t, call)[i] && t[at].call == call
    decreases |t|
  {
    if t[|t| - 1].call == call && i == |OfCall(t, call)| - 1 {
      at := |t| - 1;
    } else {
      at := OfCallMember(t[..|t| - 1], call, i);
    }
  }

  /** The effects of a call before position i are the first of its effects, and the one at i is next. */
  lemma {:induction false} OfCallBefore(t: seq<Effect>, i: nat)
    requires i < |t|
    ensures var all, before := OfCall(t, t[i].call), OfCall(t[..i], t[i].call);
            |before| < |all| && all[..|before|] == before && all[|before|] == t[i]
    decreases |t|
  {
    var s := t[..|t| - 1];
    if i < |s| {
      OfCallBefore(s, i);
      assert s[..i] == t[..i];
    }
  }

  lemma EffectsAccumulate(t: seq<Effect>, i: nat, j: nat)
    requires i < j < |t|
    ensures |OfCall(t[..i], t[i].call)| < |OfCall(t[..j], t[i].call)|
  {
    OfCallBefore(t[..j], i);
    assert t[..j][..i] == t[..i];
  }

  // What discipline means ---------------------------------------------------

  /** Every dispatch comes after its own call created the run, claimed the grant and started the run. */
  lemma DispatchFollowsClaim(t: seq<Effect>, i: nat)
    requires Disciplined(t) && i < |t| && t[i].stage == Dispatch
    ensures var c, e := t[i].call, t[i].claim;
            OfCall(t[..i], c) ==
            [Effect(c, CreateRun, e, Done), Effect(c, ClaimGrant, e, Done), Effect(c, StartRun, e, Done)]
  {
    OfCallBefore(t, i);
    var all, before := OfCall(t, t[i].call), OfCall(t[..i], t[i].call);
    assert InOrder(all);
    assert |before| == 3;
    forall k | 0 <= k < 3 ensures before[k].call == t[i].call {
      var at := OfCallMember(t[..i], t[i].call, k);
    }
    assert all[0] == before[0] && all[1] == before[1] && all[2] == before[2];
  }

  /** No authorization and no run is ever dispatched twice, whoever the callers are. */
  lemma DispatchedOnce(t: seq<Effect>, i: nat, j: nat)
    requires Disciplined(t) && i < j < |t| && t[i].stage == Dispatch && t[j].stage == Dispatch
    ensures Authorization(t[i]) != Authorization(t[j]) && Run(t[i]) != Run(t[j])
  {
    DispatchFollowsClaim(t, i);
    DispatchFollowsClaim(t, j);
    if t[i].call == t[j].call {
      DispatchOncePerCall(t, i, j);
    } else {
      var a := OfCallMember(t[..i], t[i].call, 0);
      var b := OfCallMember(t[..j], t[j].call, 0);
      assert t[a].call != t[b].call;
      var x := OfCallMember(t[..i], t[i].call, 1);
      var y := OfCallMember(t[..j], t[j].call, 1);
      assert t[x].call != t[y].call;
    }
  }

  lemma DispatchOncePerCall(t: seq<Effect>, i: nat, j: nat)
    requires Disciplined(t) && i < j < |t| && t[i].stage == Dispatch && t[j].stage == Dispatch
    ensures t[i].call != t[j].call
  {
    if t[i].call == t[j].call {
      DispatchFollowsClaim(t, i);
      DispatchFollowsClaim(t, j);
      EffectsAccumulate(t, i, j);
    }
  }

  /** One run asks the claim authority at most once in its life, however often it is submitted. */
  lemma ClaimedOncePerRun(t: seq<Effect>, i: nat, j: nat)
    requires Disciplined(t) && i < j < |t| && t[i].stage == ClaimGrant && t[j].stage == ClaimGrant
    ensures Run(t[i]) != Run(t[j])
  {
    var a := ClaimFollowsCreate(t, i);
    var b := ClaimFollowsCreate(t, j);
    if t[i].call == t[j].call {
      EffectsAccumulate(t, i, j);
    }
  }

  lemma ClaimFollowsCreate(t: seq<Effect>, i: nat) returns (at: nat)
    requires Disciplined(t) && i < |t| && t[i].stage == ClaimGrant
    ensures at < i && Succeeds(t[at], CreateRun) && t[at].claim == t[i].claim && t[at].call == t[i].call
    ensures |OfCall(t[..i], t[i].call)| == 1
  {
    OfCallBefore(t, i);
    var all, before := OfCall(t, t[i].call), OfCall(t[..i], t[i].call);
    assert InOrder(all);
    assert |before| == 1 && before[0] == all[0];
    at := OfCallMember(t[..i], t[i].call, 0);
  }

  // Keeping it --------------------------------------------------------------

  /** The next effect of a call is in order and repeats no creation and no claim. */
  ghost predicate MayFollow(t: seq<Effect>, e: Effect) {
    && InOrder(OfCall(t, e.call) + [e])
    && (Succeeds(e, CreateRun) ==> forall x :: x in t && Succeeds(x, CreateRun) ==> Run(x) != Run(e))
    && (Succeeds(e, ClaimGrant) ==>
          forall x :: x in t && Succeeds(x, ClaimGrant) ==> Authorization(x) != Authorization(e))
  }

  lemma DisciplineKept(t: seq<Effect>, e: Effect)
    requires Disciplined(t) && MayFollow(t, e)
    ensures Disciplined(t + [e])
  {
    var u := t + [e];
    forall call: nat ensures InOrder(OfCall(u, call)) {
      OfCallSnoc(t, e, call);
    }
    hide InOrder;
    forall i, j | 0 <= i < j < |u| && Succeeds(u[i], CreateRun) && Succeeds(u[j], CreateRun)
      ensures Run(u[i]) != Run(u[j])
    {
      assert u[i] == t[i] && t[i] in t;
    }
    forall i, j | 0 <= i < j < |u| && Succeeds(u[i], ClaimGrant) && Succeeds(u[j], ClaimGrant)
      ensures Authorization(u[i]) != Authorization(u[j])
    {
      assert u[i] == t[i] && t[i] in t;
    }
  }
}

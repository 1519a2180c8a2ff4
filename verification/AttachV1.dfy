/** The V1 daemon's secret step: claim the nonce, stream the chunks, and scrub the input come what may. */
module AttachV1 {
  import opened Bytes
  import opened Scrub

  datatype V1State =
    | New | RequestSent | ReadyReceived | ClaimSent | ClaimAttempted | ChunksSent | TerminalAckReceived
    | Closed | Rejected | Ambiguous

  /** How a nonce authority can answer: garbage and exceptions alike are Unclear. */
  datatype NonceAnswer = Claimed | Replayed | Unavailable | Unclear

  datatype V1Outcome = Delivered | Malformed | Unscrubbed | NoDeadline | Replay | NoNonce | Broken

  predicate BeforeClaim(s: V1State) {
    s in {V1State.New, RequestSent, ReadyReceived, V1State.ClaimSent}
  }

  function Lengths(chunks: seq<bytes>): (s: seq<nat>)
    ensures |s| == |chunks|
  {
    seq(|chunks|, i requires 0 <= i < |chunks| => |chunks[i]|)
  }

  class SessionV1 {
    const counts: seq<nat>  // the signed octet count of each field
    var state: V1State
    var asked: nat          // how often the nonce authority was called
    var won: bool           // whether it answered CLAIMED
    var frames: seq<bytes>  // the secret frames handed to the writer, in order

    ghost predicate Valid()
      reads this
    {
      && asked <= 1
      && (BeforeClaim(state) ==> asked == 0)
      && (won ==> asked == 1)
      && (frames != [] ==> won)
      && |frames| <= |counts|
    }

    constructor (counts: seq<nat>)
      ensures Valid() && this.counts == counts && state == V1State.New && frames == [] && !won
    {
      this.counts := counts;
      state := V1State.New;
      asked := 0;
      won := false;
      frames := [];
    }

    /** The chunks are byte arrays of the signed lengths, one for each field. */
    function Shaped(items: seq<Ref>): bool
      reads set r | r in items && r.Buffer? :: r.a
    {
      Contents(items).Some? && |Contents(items).value| == |counts|
      && forall i :: 0 <= i < |counts| ==> |Contents(items).value[i]| == counts[i]
    }

    /**
     Writes one frame after another; write call number `fails`, if there are that many, fails and ends it,
     and its frame may have gone out in part.
     */
    method Stream(payloads: seq<bytes>, fails: nat) returns (ok: bool)
      requires Valid() && won && frames == [] && |payloads| == |counts| && !BeforeClaim(state)
      modifies this`frames
      ensures Valid() && (ok <==> |payloads| <= fails)
      ensures frames == if ok then payloads else payloads[..fails + 1]
    {
      for k := 0 to |payloads|
        invariant Valid() && frames == payloads[..k] && k <= fails
      {
        frames := frames + [payloads[k]];
        if k == fails { return false; }
      }
      return true;
    }

    method ScrubAll(chunks: Ref, limit: nat, ghost universe: set<Ref>)
      returns (done: bool, ghost nest: seq<Container>)
      requires Covers(Snapshot(universe), universe) && chunks in universe
      modifies Arrays(universe)
      ensures done ==>
                forall b, i :: b in Arrays(universe) && 0 <= i < b.Length ==>
                  b[i] == if Exposed(universe, chunks, false, b, i) then 0 else old(b[i])
      ensures !done ==> |nest| >= limit && Nested(Snapshot(universe), chunks, nest)
    {
      hide Exposed, Covered, Found, Nested, Levelled, Fits, Roomy;
      done, nest := ZeroizeDiscoverableBuffers(false, chunks, limit, universe);
    }

    /**
     Streams the chunks once, in signed order. On every exit, whatever the argument is and whatever
     the authority, the clock and the writer did, exactly the discoverable octets have been zeroed;
     only a graph with containers nested `limit` deep may end the scrubber first.
     */
    method WriteSecretChunks(
        chunks: Ref, inTime: bool, answer: NonceAnswer, fails: nat, limit: nat, ghost universe: set<Ref>)
      returns (outcome: V1Outcome, ghost nest: seq<Container>)
      requires Valid() && Covers(Snapshot(universe), universe) && chunks in universe && limit >= 2
      modifies this, Arrays(universe)
      ensures Valid()
      ensures outcome != Unscrubbed ==>
                forall b, i :: b in Arrays(universe) && 0 <= i < b.Length ==>
                  b[i] == if Exposed(universe, chunks, false, b, i) then 0 else old(b[i])
      ensures outcome == Unscrubbed ==> |nest| >= limit && Nested(Snapshot(universe), chunks, nest)
      ensures outcome == Malformed || outcome == Unscrubbed <==>
                !(chunks.Node? && chunks.n.kind == Tuple && old(state) == V1State.ClaimSent
                  && old(Contents(chunks.n.items)).Some? && Lengths(old(Contents(chunks.n.items)).value) == counts)
      ensures outcome == Malformed || outcome == Unscrubbed ==> state == old(state)
      ensures outcome != Malformed && outcome != Unscrubbed ==> (outcome == NoDeadline <==> !inTime)
      ensures outcome == NoDeadline || outcome == NoNonce || outcome == Broken ==> state == V1State.Ambiguous
      ensures outcome == Replay ==> state == V1State.Rejected
      ensures outcome == Delivered ==> state == V1State.ChunksSent && frames == old(Contents(chunks.n.items)).value
      ensures outcome != Malformed && outcome != Unscrubbed && inTime ==>
                && (outcome == NoNonce <==> answer == Unavailable || answer == Unclear)
                && (outcome == Replay <==> answer == Replayed)
                && (outcome == Delivered <==> answer == Claimed && |counts| <= fails)
                && (outcome == Broken <==> answer == Claimed && fails < |counts|)
      ensures asked == old(asked) + (if outcome in {Malformed, Unscrubbed, NoDeadline} then 0 else 1)
      ensures outcome == Delivered || outcome == Broken || frames == old(frames)
      ensures outcome == Broken ==> frames == old(Contents(chunks.n.items)).value[..fails + 1]
    {
      hide Exposed, Covered, Found, Contents, Nested, Covers, SessionV1.Valid;
      var done;
      if !IsTuple(chunks) || state != V1State.ClaimSent || !Shaped(chunks.n.items) {
        done, nest := ScrubAll(chunks, limit, universe);
        return if done then Malformed else Unscrubbed, nest;
      }
      outcome := ClaimAndStream(Contents(chunks.n.items).value, inTime, answer, fails);
      done, nest := ScrubAll(chunks, limit, universe);
      if !done {
        FlatTuple(universe, chunks.n, nest);
      }
      if outcome == Broken {
        GiveUp();
      }
    }

    method GiveUp()
      requires Valid() && !BeforeClaim(state)
      modifies this`state
      ensures Valid() && state == V1State.Ambiguous
    {
      state := V1State.Ambiguous;
    }

    method ClaimAndStream(payloads: seq<bytes>, inTime: bool, answer: NonceAnswer, fails: nat)
      returns (outcome: V1Outcome)
      requires Valid() && state == V1State.ClaimSent && |payloads| == |counts|
      modifies this
      ensures Valid() && !BeforeClaim(state) && outcome != Malformed && outcome != Unscrubbed
      ensures outcome == NoDeadline <==> !inTime
      ensures outcome == NoDeadline || outcome == NoNonce ==> state == V1State.Ambiguous
      ensures outcome == Replay ==> state == V1State.Rejected
      ensures outcome == Replay <==> inTime && answer == Replayed
      ensures outcome == NoNonce <==> inTime && (answer == Unavailable || answer == Unclear)
      ensures outcome == Delivered <==> inTime && answer == Claimed && |payloads| <= fails
      ensures outcome == Broken <==> inTime && answer == Claimed && fails < |payloads|
      ensures outcome == Delivered ==> state == V1State.ChunksSent && frames == payloads
      ensures outcome == Broken ==> frames == payloads[..fails + 1]
      ensures outcome == Delivered || outcome == Broken || frames == old(frames)
      ensures asked == old(asked) + if inTime then 1 else 0
    {
      if !inTime {
        state := V1State.Ambiguous;
        return NoDeadline;
      }
      state := ClaimAttempted;
      asked := asked + 1;
      match answer
      case Unclear => state, outcome := V1State.Ambiguous, NoNonce;
      case Unavailable => state, outcome := V1State.Ambiguous, NoNonce;
      case Replayed => state, outcome := V1State.Rejected, Replay;
      case Claimed =>
        won := true;
        state := V1State.ChunksSent;
        var ok := Stream(payloads, fails);
        outcome := if ok then Delivered else Broken;
    }
  }
}

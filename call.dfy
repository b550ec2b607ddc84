/** The per-call state machine (`PhoneCall` in src/call.ts): a ranked state
    that only moves forward, with HUNGUP final, and the events the call
    emits while its state changes. */
module Call {

  datatype CallState = CREATED | INVITED | ACCEPTED | FAILED | HUNGUP

  /** The numeric value of each enum member. */
  function Rank(s: CallState): nat {
    match s
    case CREATED => 0
    case INVITED => 1
    case ACCEPTED => 2
    case FAILED => 3
    case HUNGUP => 4
  }

  /** The events a call emits, in emission order. */
  datatype CallEvent =
    | SendInvite(sdp: string)
    | SendCandidates(candidates: seq<string>)
    | SendAccept(sdp: string)
    | SendHangup
    | StateChange(newState: CallState, oldState: CallState)
    | Ended

  /** Whether the state setter applies an assignment of `requested`. The
      comparison is strict, so re-assigning the current state is applied. */
  predicate Applies(current: CallState, requested: CallState) {
    !(Rank(current) > Rank(requested) || current == HUNGUP)
  }

  /** The state after the setter is given `requested`. */
  function Next(current: CallState, requested: CallState): CallState {
    if Applies(current, requested) then requested else current
  }

  /** The events one assignment emits: `statechange(new, old)` when it is
      applied, followed by `ended` from the constructor's own `statechange`
      listener when the new state is FAILED or HUNGUP. */
  function Transition(current: CallState, requested: CallState): seq<CallEvent> {
    if !Applies(current, requested) then []
    else [StateChange(requested, current)]
         + (if requested == FAILED || requested == HUNGUP then [Ended] else [])
  }

  /** One assignment: the state never decreases, the new state is the request
      exactly when it is applied, HUNGUP absorbs every request, and an applied
      assignment emits exactly one `statechange`, followed by `ended` exactly
      when the new state is FAILED or HUNGUP. */
  lemma AssignmentRule(current: CallState, requested: CallState)
    ensures Rank(Next(current, requested)) >= Rank(current)
    ensures Next(current, requested) == requested
            <==> (Rank(requested) >= Rank(current) && current != HUNGUP) || requested == current
    ensures current == HUNGUP ==> Next(current, requested) == HUNGUP && Transition(current, requested) == []
    ensures Applies(current, requested)
            ==> Transition(current, requested)[0] == StateChange(requested, current)
    ensures Ended in Transition(current, requested)
            <==> Applies(current, requested) && (requested == FAILED || requested == HUNGUP)
    ensures |Transition(current, requested)| <= 2
  {
  }

  /** A sequence of assignments, from `current`. */
  function Run(current: CallState, requests: seq<CallState>): CallState
    decreases |requests|
  {
    if requests == [] then current else Run(Next(current, requests[0]), requests[1..])
  }

  /** The events a sequence of assignments emits. */
  function Trace(current: CallState, requests: seq<CallState>): seq<CallEvent>
    decreases |requests|
  {
    if requests == [] then []
    else Transition(current, requests[0]) + Trace(Next(current, requests[0]), requests[1..])
  }

  /** Over any sequence of assignments the state never decreases. */
  lemma {:induction false} RunMonotone(current: CallState, requests: seq<CallState>)
    ensures Rank(Run(current, requests)) >= Rank(current)
    decreases |requests|
  {
    if requests != [] {
      RunMonotone(Next(current, requests[0]), requests[1..]);
    }
  }

  /** Once HUNGUP, no assignment changes the state or emits anything. */
  lemma {:induction false} HungupIsFinal(requests: seq<CallState>)
    ensures Run(HUNGUP, requests) == HUNGUP
    ensures Trace(HUNGUP, requests) == []
    decreases |requests|
  {
    if requests != [] {
      HungupIsFinal(requests[1..]);
    }
  }

  /** Every `statechange(new, old)` in a trace moves forward, never out of
      HUNGUP, and each `ended` directly follows a `statechange` into FAILED
      or HUNGUP. */
  lemma {:induction false} TraceIsOrdered(current: CallState, requests: seq<CallState>)
    ensures forall i | 0 <= i < |Trace(current, requests)| && Trace(current, requests)[i].StateChange? ::
              Rank(Trace(current, requests)[i].newState) >= Rank(Trace(current, requests)[i].oldState)
              && Trace(current, requests)[i].oldState != HUNGUP
    ensures forall i | 0 <= i < |Trace(current, requests)| && Trace(current, requests)[i] == Ended ::
              i > 0 && Trace(current, requests)[i - 1].StateChange?
              && Trace(current, requests)[i - 1].newState in {FAILED, HUNGUP}
    decreases |requests|
  {
    if requests != [] {
      var t := Transition(current, requests[0]);
      var next := Next(current, requests[0]);
      TraceIsOrdered(next, requests[1..]);
      var rest := Trace(next, requests[1..]);
      assert Trace(current, requests) == t + rest;
      if rest != [] && rest[0] == Ended {
        // the rest of the trace cannot start with `ended`
        assert false;
      }
      forall i | 0 <= i < |t + rest| && (t + rest)[i] == Ended
        ensures i > 0 && (t + rest)[i - 1].StateChange? && (t + rest)[i - 1].newState in {FAILED, HUNGUP}
      {
        if i >= |t| {
          assert (t + rest)[i] == rest[i - |t|];
        }
      }
    }
  }

  /** After a `statechange` into HUNGUP only its `ended` can follow. */
  lemma {:induction false} NothingAfterHangup(current: CallState, requests: seq<CallState>, i: nat)
    requires i < |Trace(current, requests)|
    requires Trace(current, requests)[i].StateChange? && Trace(current, requests)[i].newState == HUNGUP
    ensures Trace(current, requests)[i + 1..] == [Ended]
    ensures Run(current, requests) == HUNGUP
    decreases |requests|
  {
    var t := Transition(current, requests[0]);
    var next := Next(current, requests[0]);
    var rest := Trace(next, requests[1..]);
    assert Trace(current, requests) == t + rest;
    if i < |t| {
      assert requests[0] == HUNGUP && next == HUNGUP && t == [StateChange(HUNGUP, current), Ended] && i == 0;
      HungupIsFinal(requests[1..]);
      assert (t + rest)[1..] == [Ended];
    } else {
      assert (t + rest)[i] == rest[i - |t|];
      NothingAfterHangup(next, requests[1..], i - |t|);
      assert (t + rest)[i + 1..] == rest[i - |t| + 1..];
    }
  }

  class PhoneCall {
    const local: string
    const remote: string
    const fromMatrix: bool
    /** The call identifier; the source draws 64 random characters by default,
        so here it is whatever string the creator supplies. */
    const matrixId: string
    var matrixCallVersion: int
    var state: CallState
    /** Every event emitted on this call so far, in order. */
    ghost var events: seq<CallEvent>

    constructor (local: string, remote: string, fromMatrix: bool, matrixId: string)
      ensures this.local == local && this.remote == remote
      ensures this.fromMatrix == fromMatrix && this.matrixId == matrixId
      ensures state == CREATED && matrixCallVersion == 0 && events == []
    {
      this.local := local;
      this.remote := remote;
      this.fromMatrix := fromMatrix;
      this.matrixId := matrixId;
      matrixCallVersion := 0;
      state := CREATED;
      events := [];
    }

    /** The `state` setter: refuses to go backwards and does nothing once
        HUNGUP; otherwise stores the state and emits `statechange`, whose
        constructor-registered listener emits `ended` for FAILED and HUNGUP. */
    method SetState(requested: CallState)
      modifies this`state, this`events
      ensures state == Next(old(state), requested)
      ensures events == old(events) + Transition(old(state), requested)
    {
      if Rank(state) > Rank(requested) || state == HUNGUP {
        return;
      }
      var oldState := state;
      state := requested;
      events := events + [StateChange(requested, oldState)];
      if requested == HUNGUP || requested == FAILED {
        events := events + [Ended];
      }
    }

    /** `emit('send_invite', sdp)`: the constructor's listener requests INVITED. */
    method EmitSendInvite(sdp: string)
      modifies this`state, this`events
      ensures state == Next(old(state), INVITED)
      ensures events == old(events) + [SendInvite(sdp)] + Transition(old(state), INVITED)
    {
      events := events + [SendInvite(sdp)];
      SetState(INVITED);
    }

    /** `emit('send_candidates', candidates)`: no listener of the call itself
        reacts, so the state is untouched. */
    method EmitSendCandidates(candidates: seq<string>)
      modifies this`events
      ensures events == old(events) + [SendCandidates(candidates)]
    {
      events := events + [SendCandidates(candidates)];
    }

    /** `emit('send_accept', sdp)`: the constructor's listener requests ACCEPTED. */
    method EmitSendAccept(sdp: string)
      modifies this`state, this`events
      ensures state == Next(old(state), ACCEPTED)
      ensures events == old(events) + [SendAccept(sdp)] + Transition(old(state), ACCEPTED)
    {
      events := events + [SendAccept(sdp)];
      SetState(ACCEPTED);
    }

    /** `emit('send_hangup')`: the constructor's listener requests HUNGUP. */
    method EmitSendHangup()
      modifies this`state, this`events
      ensures state == Next(old(state), HUNGUP)
      ensures events == old(events) + [SendHangup] + Transition(old(state), HUNGUP)
    {
      events := events + [SendHangup];
      SetState(HUNGUP);
    }

    predicate CanInvite()
      reads this
    {
      state == CREATED
    }

    predicate CanAnswer()
      reads this
    {
      state == INVITED
    }

    predicate CanSendCandidates()
      reads this
    {
      Rank(state) >= Rank(INVITED) && Rank(state) < Rank(FAILED)
    }

    predicate CanReject()
      reads this
    {
      Rank(state) < Rank(ACCEPTED)
    }
  }

  /** The four guards over the five states. */
  lemma GuardsExact(c: PhoneCall)
    ensures c.CanInvite() <==> c.state == CREATED
    ensures c.CanAnswer() <==> c.state == INVITED
    ensures c.CanSendCandidates() <==> c.state == INVITED || c.state == ACCEPTED
    ensures c.CanReject() <==> c.state == CREATED || c.state == INVITED
    ensures c.state in {FAILED, HUNGUP}
            ==> !c.CanInvite() && !c.CanAnswer() && !c.CanSendCandidates() && !c.CanReject()
  {
  }

  /** A call created by the chat side, invited, answered, hung up twice:
      the second hang-up changes nothing and emits only its `send_hangup`. */
  method CallLifecycle(local: string, remote: string, id: string)
  {
    var c := new PhoneCall(local, remote, true, id);
    c.EmitSendInvite("offer-sdp");
    assert c.state == INVITED && c.CanAnswer();
    c.EmitSendAccept("answer-sdp");
    assert c.state == ACCEPTED && !c.CanReject() && c.CanSendCandidates();
    c.SetState(FAILED);
    assert c.state == FAILED && c.events[|c.events| - 1] == Ended;
    c.EmitSendHangup();
    assert c.state == HUNGUP && c.events[|c.events| - 1] == Ended;
    var before := c.events;
    c.EmitSendHangup();
    assert c.state == HUNGUP && c.events == before + [SendHangup];
    assert c.local == local && c.remote == remote && c.matrixId == id;
  }
}

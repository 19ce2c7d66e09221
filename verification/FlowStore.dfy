/** Pending sign-in flows: stored under their OAuth state, consumed once, purged when they expire. */
module FlowStore {
  import opened Prelude

  datatype Flow = Flow(nonce: string, codeVerifier: string, organization: string)

  datatype Entry = Entry(flow: Flow, expiresAt: real)

  type Store = map<string, Entry>

  datatype Refusal = UnknownState | FlowExpired

  const FLOW_TTL := 600.0

  function Purged(pending: Store, now: real): Store {
    map k | k in pending && now <= pending[k].expiresAt :: pending[k]
  }

  function Answer(pending: Store, state: string, now: real): Result<Flow, Refusal> {
    if state !in pending then Err(UnknownState)
    else if now > pending[state].expiresAt then Err(FlowExpired)
    else Ok(pending[state].flow)
  }

  /** The clock is read once for the expiry of a stored flow and again for the purge that follows. */
  datatype Op = Put(state: string, flow: Flow, now: real, later: real) | Consume(state: string, now: real)

  function Apply(pending: Store, op: Op): Store {
    match op
    case Put(state, flow, now, later) => Purged(pending[state := Entry(flow, now + FLOW_TTL)], later)
    case Consume(state, _) => pending - {state}
  }

  class PendingFlows {
    var pending: Store

    constructor ()
      ensures pending == map[]
    {
      pending := map[];
    }

    method StoreFlow(state: string, flow: Flow, now: real, later: real)
      modifies this
      ensures pending == Apply(old(pending), Put(state, flow, now, later))
    {
      pending := pending[state := Entry(flow, now + FLOW_TTL)];
      PurgeExpiredFlows(later);
    }

    method ConsumeFlow(state: string, now: real) returns (answer: Result<Flow, Refusal>)
      modifies this
      ensures answer == Answer(old(pending), state, now)
      ensures pending == Apply(old(pending), Consume(state, now))
    {
      if state !in pending {
        assert pending - {state} == pending;
        return Err(UnknownState);
      }
      var entry := pending[state];
      pending := pending - {state};
      if now > entry.expiresAt {
        return Err(FlowExpired);
      }
      answer := Ok(entry.flow);
    }

    method PurgeExpiredFlows(now: real)
      modifies this
      ensures pending == Purged(old(pending), now)
    {
      var expired := set k | k in pending && now > pending[k].expiresAt;
      while expired != {}
        invariant expired <= pending.Keys <= old(pending).Keys
        invariant forall k :: k in pending ==> pending[k] == old(pending)[k]
        invariant forall k :: k in old(pending) ==>
          (k in pending <==> k in expired || now <= old(pending)[k].expiresAt)
        invariant forall k :: k in expired ==> now > old(pending)[k].expiresAt
        decreases expired
      {
        var k :| k in expired;
        expired := expired - {k};
        pending := pending - {k};
      }
      assert pending == Purged(old(pending), now);
    }
  }

  // ---------------------------------------------------------------------
  // Runs
  // ---------------------------------------------------------------------

  function Finish(op: Op): real {
    if op.Put? then op.later else op.now
  }

  ghost predicate OneClock(ops: seq<Op>) {
    && (forall i :: 0 <= i < |ops| ==> ops[i].now <= Finish(ops[i]))
    && (forall i, j :: 0 <= i < j < |ops| ==> Finish(ops[i]) <= ops[j].now)
  }

  ghost predicate After(ops: seq<Op>, now: real) {
    forall i :: 0 <= i < |ops| ==> Finish(ops[i]) <= now
  }

  function Run(ops: seq<Op>): Store {
    if ops == [] then map[] else Apply(Run(ops[..|ops| - 1]), ops[|ops| - 1])
  }

  /** The same run on a store that is never purged. */
  function RunUnpurged(ops: seq<Op>): Store {
    if ops == [] then map[] else
      var before := RunUnpurged(ops[..|ops| - 1]);
      match ops[|ops| - 1]
      case Put(state, flow, now, _) => before[state := Entry(flow, now + FLOW_TTL)]
      case Consume(state, _) => before - {state}
  }

  /** The last operation on `state`, if there was one. */
  function LastTouch(ops: seq<Op>, state: string): (touch: Option<nat>)
    ensures touch.Some? ==> touch.value < |ops| && ops[touch.value].state == state
    ensures touch.Some? ==> forall j :: touch.value < j < |ops| ==> ops[j].state != state
    ensures touch.None? ==> forall j :: 0 <= j < |ops| ==> ops[j].state != state
  {
    if ops == [] then None
    else if ops[|ops| - 1].state == state then Some(|ops| - 1)
    else LastTouch(ops[..|ops| - 1], state)
  }

  lemma {:induction false} UnpurgedHoldsLastPut(ops: seq<Op>, state: string)
    ensures var touch := LastTouch(ops, state);
            if touch.Some? && ops[touch.value].Put? then
              state in RunUnpurged(ops)
              && RunUnpurged(ops)[state] == Entry(ops[touch.value].flow, ops[touch.value].now + FLOW_TTL)
            else state !in RunUnpurged(ops)
  {
    if ops == [] {
    } else {
      UnpurgedHoldsLastPut(ops[..|ops| - 1], state);
    }
  }

  /** Some later call of store_flow, the storing one included, purged entries that expire at `expiry`. */
  ghost predicate PurgedSince(ops: seq<Op>, put: nat, expiry: real) {
    exists j :: put <= j < |ops| && ops[j].Put? && ops[j].later > expiry
  }

  /** The flow last stored under `state`, not consumed since, has been swept away. */
  ghost predicate SweptAway(ops: seq<Op>, state: string) {
    var touch := LastTouch(ops, state);
    touch.Some? && ops[touch.value].Put? && PurgedSince(ops, touch.value, ops[touch.value].now + 600.0)
  }

  lemma PurgedSinceNext(ops: seq<Op>, put: nat, expiry: real)
    requires ops != [] && put < |ops| - 1
    ensures PurgedSince(ops, put, expiry) <==>
              || PurgedSince(ops[..|ops| - 1], put, expiry)
              || (ops[|ops| - 1].Put? && ops[|ops| - 1].later > expiry)
  {
    assert forall j :: 0 <= j < |ops| - 1 ==> ops[..|ops| - 1][j] == ops[j];
  }

  /** What the store holds under `state`: the flow last put there unless it was swept away. */
  ghost predicate HoldsLastPut(ops: seq<Op>, state: string) {
    var touch := LastTouch(ops, state);
    if touch.Some? && ops[touch.value].Put? && !SweptAway(ops, state) then
      state in Run(ops) && Run(ops)[state] == Entry(ops[touch.value].flow, ops[touch.value].now + FLOW_TTL)
    else state !in Run(ops)
  }

  lemma TouchedHolds(ops: seq<Op>, state: string)
    requires ops != [] && ops[|ops| - 1].state == state
    ensures HoldsLastPut(ops, state)
  {
    var last := ops[|ops| - 1];
    assert last.Put? ==> (SweptAway(ops, state) <==> last.later > last.now + FLOW_TTL);
  }

  lemma UntouchedHolds(ops: seq<Op>, state: string)
    requires ops != [] && ops[|ops| - 1].state != state && HoldsLastPut(ops[..|ops| - 1], state)
    ensures HoldsLastPut(ops, state)
  {
    var touch := LastTouch(ops, state);
    if touch.Some? && ops[touch.value].Put? {
      PurgedSinceNext(ops, touch.value, ops[touch.value].now + FLOW_TTL);
    }
  }

  lemma {:induction false} StoreHolds(ops: seq<Op>, state: string)
    ensures HoldsLastPut(ops, state)
  {
    if ops == [] {
    } else if ops[|ops| - 1].state == state {
      TouchedHolds(ops, state);
    } else {
      StoreHolds(ops[..|ops| - 1], state);
      UntouchedHolds(ops, state);
    }
  }

  /**
   The answer to a consumer, in every run and whatever the clock did: unknown unless the last operation on
   the state stored a flow that no purge has found expired, and then that flow or its expiry.
   */
  lemma AnswerExactly(ops: seq<Op>, state: string, now: real)
    ensures var touch := LastTouch(ops, state);
            Answer(Run(ops), state, now) ==
              if touch.None? || ops[touch.value].Consume? || SweptAway(ops, state) then Err(UnknownState)
              else if now > ops[touch.value].now + 600.0 then Err(FlowExpired)
              else Ok(ops[touch.value].flow)
  {
    StoreHolds(ops, state);
  }

  /** Purging only ever loses entries that have expired. */
  lemma {:induction false} PurgedLosesOnlyExpired(ops: seq<Op>, state: string, now: real)
    requires OneClock(ops) && After(ops, now)
    ensures state in Run(ops) ==> state in RunUnpurged(ops) && Run(ops)[state] == RunUnpurged(ops)[state]
    ensures state in RunUnpurged(ops) && state !in Run(ops) ==> now > RunUnpurged(ops)[state].expiresAt
  {
    if ops == [] {
    } else {
      var last := ops[|ops| - 1];
      assert OneClock(ops[..|ops| - 1]);
      assert After(ops[..|ops| - 1], last.now);
      PurgedLosesOnlyExpired(ops[..|ops| - 1], state, last.now);
    }
  }

  /** A consumer cannot tell whether the store was purged, except that an expired flow swept away is called unknown. */
  lemma PurgeIsUnobservable(ops: seq<Op>, state: string, now: real)
    requires OneClock(ops) && After(ops, now)
    ensures var purged, kept := Answer(Run(ops), state, now), Answer(RunUnpurged(ops), state, now);
            if SweptAway(ops, state) then purged == Err(UnknownState) && kept == Err(FlowExpired) else purged == kept
  {
    PurgedLosesOnlyExpired(ops, state, now);
    StoreHolds(ops, state);
    UnpurgedHoldsLastPut(ops, state);
  }

  /** A flow is handed out exactly when it was the last thing stored under its state and is at most ten minutes old. */
  lemma {:induction false} ConsumeMeaning(ops: seq<Op>, state: string, now: real)
    requires OneClock(ops) && After(ops, now)
    ensures var touch := LastTouch(ops, state);
            var live := touch.Some? && ops[touch.value].Put? && now <= ops[touch.value].now + 600.0;
            && (Answer(Run(ops), state, now).Ok? <==> live)
            && (live ==> Answer(Run(ops), state, now) == Ok(ops[touch.value].flow))
  {
    UnpurgedHoldsLastPut(ops, state);
    PurgedLosesOnlyExpired(ops, state, now);
  }

  ghost predicate Succeeds(ops: seq<Op>, i: nat) {
    i < |ops| && ops[i].Consume? && Answer(Run(ops[..i]), ops[i].state, ops[i].now).Ok?
  }

  lemma PrefixBefore(ops: seq<Op>, i: nat)
    requires OneClock(ops) && i < |ops|
    ensures OneClock(ops[..i]) && After(ops[..i], ops[i].now)
  {
  }

  /** Every successful consumer has a stored flow of its own: no flow is handed out twice. */
  lemma {:induction false} EachFlowConsumedOnce(ops: seq<Op>, i: nat, j: nat)
    requires OneClock(ops) && i < j && Succeeds(ops, i) && Succeeds(ops, j)
    ensures var p, q := LastTouch(ops[..i], ops[i].state), LastTouch(ops[..j], ops[j].state);
            && p.Some? && q.Some? && ops[p.value].Put? && ops[q.value].Put? && p != q
            && Answer(Run(ops[..i]), ops[i].state, ops[i].now) == Ok(ops[p.value].flow)
            && Answer(Run(ops[..j]), ops[j].state, ops[j].now) == Ok(ops[q.value].flow)
  {
    PrefixBefore(ops, i);
    PrefixBefore(ops, j);
    ConsumeMeaning(ops[..i], ops[i].state, ops[i].now);
    ConsumeMeaning(ops[..j], ops[j].state, ops[j].now);
    var p, q := LastTouch(ops[..i], ops[i].state).value, LastTouch(ops[..j], ops[j].state).value;
    assert ops[..i][p] == ops[p] && ops[..j][q] == ops[q] && ops[..j][i] == ops[i];
  }
}

/**
 The Shared Signals event emitter: a registry of receivers, a queue of pending
 events for each polling receiver, filtered fan-out, and bounded push retry.
 */
module SharedSignals {
  import opened Prelude

  type ReceiverId = string

  datatype EventType = SessionRevoked | CredentialChange | AgentDeprovisioned | AgentStatusChange | Custom(urn: string)

  /** Reasons are free text; the first two are the approval gate's own. */
  datatype Reason = ApprovalGranted | ProvisioningRejected | OtherReason(text: string)

  datatype AgentStatus = PendingApproval | Active | OtherStatus(text: string)

  datatype Claims =
    | SessionRevokedClaims(subject: string, session: string, reason: Reason)
    | DeprovisionedClaims(agent: string, did: string, organization: string, reason: Reason)
    | StatusChangeClaims(agent: string, did: string, previous: AgentStatus, current: AgentStatus, reason: Reason)

  /** A security event token; `aud` is filled in for each receiver on delivery. */
  datatype Token = Token(jti: string, claims: Claims, aud: seq<ReceiverId>)

  datatype Receiver = Receiver(endpoint: string, eventTypes: seq<EventType>, deliveryMode: string, pending: seq<Token>)

  type Registry = map<ReceiverId, Receiver>

  function TypeOf(claims: Claims): EventType {
    match claims
    case SessionRevokedClaims(_, _, _) => SessionRevoked
    case DeprovisionedClaims(_, _, _, _) => AgentDeprovisioned
    case StatusChangeClaims(_, _, _, _, _) => AgentStatusChange
  }

  // ---------------------------------------------------------------------
  // Step functions
  // ---------------------------------------------------------------------

  /** What one fan-out does to one receiver. */
  function Offer(receiver: Receiver, id: ReceiverId, token: Token): Receiver {
    if TypeOf(token.claims) in receiver.eventTypes && receiver.deliveryMode == "poll" then
      receiver.(pending := receiver.pending + [token.(aud := [id])])
    else
      receiver
  }

  function Broadcast(receivers: Registry, token: Token): Registry {
    map id | id in receivers :: Offer(receivers[id], id, token)
  }

  /** A POST to be made, retries included. */
  datatype Push = Push(endpoint: string, token: Token)

  /** The pushes one fan-out starts, all at the same time. */
  function PushTasks(receivers: Registry, token: Token): map<ReceiverId, Push> {
    map id | id in receivers && TypeOf(token.claims) in receivers[id].eventTypes && receivers[id].deliveryMode != "poll"
      :: Push(receivers[id].endpoint, token.(aud := [id]))
  }

  datatype Op =
    | Register(id: ReceiverId, endpoint: string, eventTypes: seq<EventType>, deliveryMode: string)
    | Deregister(id: ReceiverId)
    | Poll(id: ReceiverId)
    | Emit(token: Token)

  function Apply(receivers: Registry, op: Op): Registry {
    match op
    case Register(id, endpoint, types, mode) => receivers[id := Receiver(endpoint, types, mode, [])]
    case Deregister(id) => receivers - {id}
    case Poll(id) => if id in receivers then receivers[id := receivers[id].(pending := [])] else receivers
    case Emit(token) => Broadcast(receivers, token)
  }

  /**
   The fan-out of a token reached exactly the receivers that take its type: those that poll have it in their
   queue, addressed to them, and the others are sent it.
   */
  ghost predicate FansOut(
    before: Registry, after: Registry, tasks: map<ReceiverId, Push>, jti: string, claims: Claims, eventType: EventType)
  {
    && after.Keys == before.Keys
    && (forall id :: id in before ==>
          var queue := before[id].pending;
          after[id] == if eventType in before[id].eventTypes && before[id].deliveryMode == "poll"
                       then before[id].(pending := queue + [Token(jti, claims, [id])]) else before[id])
    && (forall id :: id in tasks <==>
          id in before && eventType in before[id].eventTypes && before[id].deliveryMode != "poll")
    && (forall id :: id in tasks ==> tasks[id] == Push(before[id].endpoint, Token(jti, claims, [id])))
  }

  lemma FanOutByType(receivers: Registry, token: Token)
    ensures var after, tasks := Broadcast(receivers, token), PushTasks(receivers, token);
            FansOut(receivers, after, tasks, token.jti, token.claims,
                    if token.claims.SessionRevokedClaims? then SessionRevoked
                    else if token.claims.DeprovisionedClaims? then AgentDeprovisioned else AgentStatusChange)
  {
  }

  // ---------------------------------------------------------------------
  // The emitter itself
  // ---------------------------------------------------------------------

  class Emitter {
    var receivers: Registry

    constructor ()
      ensures receivers == map[]
    {
      receivers := map[];
    }

    /** Receiver ids are fresh UUIDs. */
    method RegisterReceiver(id: ReceiverId, endpoint: string, eventTypes: seq<EventType>, deliveryMode: string)
      requires id !in receivers
      modifies this
      ensures receivers == Apply(old(receivers), Register(id, endpoint, eventTypes, deliveryMode))
    {
      receivers := receivers[id := Receiver(endpoint, eventTypes, deliveryMode, [])];
    }

    method DeregisterReceiver(id: ReceiverId) returns (found: bool)
      modifies this
      ensures found <==> id in old(receivers)
      ensures receivers == Apply(old(receivers), Deregister(id))
    {
      found := id in receivers;
      if found {
        receivers := receivers - {id};
      }
    }

    /** Returns and clears the queue; an unknown receiver is an error. */
    method PollEvents(id: ReceiverId) returns (batch: Option<seq<Token>>)
      modifies this
      ensures batch == if id in old(receivers) then Some(old(receivers[id].pending)) else None
      ensures receivers == Apply(old(receivers), Poll(id))
    {
      if id !in receivers {
        return None;
      }
      batch := Some(receivers[id].pending);
      receivers := receivers[id := receivers[id].(pending := [])];
    }

    method DeliverToAllReceivers(token: Token) returns (tasks: map<ReceiverId, Push>)
      modifies this
      ensures receivers == Apply(old(receivers), Emit(token))
      ensures tasks == PushTasks(old(receivers), token)
      ensures token.claims.SessionRevokedClaims? ==>
                FansOut(old(receivers), receivers, tasks, token.jti, token.claims, SessionRevoked)
      ensures token.claims.DeprovisionedClaims? ==>
                FansOut(old(receivers), receivers, tasks, token.jti, token.claims, AgentDeprovisioned)
      ensures token.claims.StatusChangeClaims? ==>
                FansOut(old(receivers), receivers, tasks, token.jti, token.claims, AgentStatusChange)
    {
      var todo := receivers.Keys;
      tasks := map[];
      while todo != {}
        invariant todo <= receivers.Keys == old(receivers).Keys
        invariant forall id :: id in receivers ==>
          receivers[id] == if id in todo then old(receivers)[id] else Offer(old(receivers)[id], id, token)
        invariant tasks == PushTasks(old(receivers), token) - todo
        decreases todo
      {
        var id :| id in todo;
        var receiver := receivers[id];
        todo := todo - {id};
        if TypeOf(token.claims) !in receiver.eventTypes {
          continue;
        }
        if receiver.deliveryMode == "poll" {
          receivers := receivers[id := receiver.(pending := receiver.pending + [token.(aud := [id])])];
        } else {
          tasks := tasks[id := Push(receiver.endpoint, token.(aud := [id]))];
        }
      }
      assert receivers == Broadcast(old(receivers), token);
      FanOutByType(old(receivers), token);
    }

    method EmitAgentDeprovisioned(jti: string, agent: string, did: string, organization: string, reason: Reason)
      returns (tasks: map<ReceiverId, Push>)
      modifies this
      ensures var token := Token(jti, DeprovisionedClaims(agent, did, organization, reason), []);
              && receivers == Apply(old(receivers), Emit(token))
              && tasks == PushTasks(old(receivers), token)
              && FansOut(old(receivers), receivers, tasks, jti, token.claims, AgentDeprovisioned)
    {
      tasks := DeliverToAllReceivers(Token(jti, DeprovisionedClaims(agent, did, organization, reason), []));
    }

    method EmitSessionRevoked(jti: string, subject: string, session: string, reason: Reason)
      returns (tasks: map<ReceiverId, Push>)
      modifies this
      ensures var token := Token(jti, SessionRevokedClaims(subject, session, reason), []);
              && receivers == Apply(old(receivers), Emit(token))
              && tasks == PushTasks(old(receivers), token)
              && FansOut(old(receivers), receivers, tasks, jti, token.claims, SessionRevoked)
    {
      tasks := DeliverToAllReceivers(Token(jti, SessionRevokedClaims(subject, session, reason), []));
    }

    method EmitAgentStatusChange(
      jti: string, agent: string, did: string, previous: AgentStatus, current: AgentStatus, reason: Reason)
      returns (tasks: map<ReceiverId, Push>)
      modifies this
      ensures var token := Token(jti, StatusChangeClaims(agent, did, previous, current, reason), []);
              && receivers == Apply(old(receivers), Emit(token))
              && tasks == PushTasks(old(receivers), token)
              && FansOut(old(receivers), receivers, tasks, jti, token.claims, AgentStatusChange)
    {
      tasks := DeliverToAllReceivers(
        Token(jti, StatusChangeClaims(agent, did, previous, current, reason), []));
    }
  }

  // ---------------------------------------------------------------------
  // Push with retry
  // ---------------------------------------------------------------------

  /** What one HTTP POST came to. */
  datatype Attempt = Replied(status: int) | Raised

  predicate Succeeded(attempt: Attempt) {
    attempt.Replied? && attempt.status < 400
  }

  /** Stops at the first success; gives up after three failures, having slept after each one. */
  method PushEvent(outcomes: seq<Attempt>) returns (delivered: bool, attempts: nat, slept: nat)
    requires |outcomes| == 3
    ensures delivered <==> exists i :: 0 <= i < 3 && outcomes[i].Replied? && outcomes[i].status < 400
    ensures delivered ==>
              && 1 <= attempts <= 3 && outcomes[attempts - 1].Replied? && outcomes[attempts - 1].status < 400
              && forall i :: 0 <= i < attempts - 1 ==> outcomes[i].Raised? || outcomes[i].status >= 400
    ensures !delivered ==> attempts == 3
    ensures slept == [0, 1, 3, 7][if delivered then attempts - 1 else 3]
  {
    attempts, slept := 0, 0;
    var backoff := 1;
    while attempts < 3
      invariant attempts <= 3
      invariant forall i :: 0 <= i < attempts ==> !Succeeded(outcomes[i])
      invariant backoff == [1, 2, 4, 8][attempts] && slept == backoff - 1
    {
      attempts := attempts + 1;
      if Succeeded(outcomes[attempts - 1]) {
        return true, attempts, slept;
      }
      slept, backoff := slept + backoff, backoff * 2;
    }
    delivered := false;
  }

  // ---------------------------------------------------------------------
  // Exactly-once delivery over whole runs
  // ---------------------------------------------------------------------

  function Run(ops: seq<Op>): Registry {
    if ops == [] then map[] else Apply(Run(ops[..|ops| - 1]), ops[|ops| - 1])
  }

  /** The registration in force for `id`, read off the run alone. */
  function Registration(ops: seq<Op>, id: ReceiverId): Option<Op> {
    if ops == [] then None else
      var last := ops[|ops| - 1];
      if last.Register? && last.id == id then Some(last)
      else if last.Deregister? && last.id == id then None
      else Registration(ops[..|ops| - 1], id)
  }

  /** Everything `id` has been handed by polls since it was registered. */
  function Delivered(ops: seq<Op>, id: ReceiverId): seq<Token> {
    if ops == [] then [] else
      var before := ops[..|ops| - 1];
      var last := ops[|ops| - 1];
      if last.Register? && last.id == id then []
      else if last.Poll? && last.id == id && id in Run(before) then Delivered(before, id) + Run(before)[id].pending
      else Delivered(before, id)
  }

  /** A receiver of these types is to have the event. */
  predicate Wanted(claims: Claims, types: seq<EventType>) {
    || (claims.SessionRevokedClaims? && SessionRevoked in types)
    || (claims.DeprovisionedClaims? && AgentDeprovisioned in types)
    || (claims.StatusChangeClaims? && AgentStatusChange in types)
  }

  /** Everything emitted since `id` was registered whose type is in `types`, addressed to `id` alone. */
  function Expected(ops: seq<Op>, id: ReceiverId, types: seq<EventType>): seq<Token> {
    if ops == [] then [] else
      var before := ops[..|ops| - 1];
      var last := ops[|ops| - 1];
      if last.Register? && last.id == id then []
      else if last.Emit? && Wanted(last.token.claims, types) then
        Expected(before, id, types) + [last.token.(aud := [id])]
      else Expected(before, id, types)
  }

  /** The registry holds exactly the receivers with a registration in force, unchanged since. */
  lemma {:induction false} RegistryFollowsRegistrations(ops: seq<Op>, id: ReceiverId)
    ensures id in Run(ops) <==> Registration(ops, id).Some?
    ensures id in Run(ops) ==>
              var receiver := Run(ops)[id];
              Registration(ops, id).value == Register(id, receiver.endpoint, receiver.eventTypes, receiver.deliveryMode)
  {
    if ops == [] {
    } else {
      RegistryFollowsRegistrations(ops[..|ops| - 1], id);
    }
  }

  /**
   For a live polling receiver, what it has been handed followed by what it still has queued is,
   in order and without loss or repetition, every subscribed event emitted since it registered.
   */
  lemma {:induction false} ExactlyOnceDelivery(ops: seq<Op>, id: ReceiverId)
    requires id in Run(ops) && Run(ops)[id].deliveryMode == "poll"
    ensures Delivered(ops, id) + Run(ops)[id].pending == Expected(ops, id, Run(ops)[id].eventTypes)
  {
    var before := ops[..|ops| - 1];
    var last := ops[|ops| - 1];
    if last.Register? && last.id == id {
    } else {
      ExactlyOnceDelivery(before, id);
      var done, queued := Delivered(before, id), Run(before)[id].pending;
      if last.Emit? {
        assert done + (queued + [last.token.(aud := [id])]) == (done + queued) + [last.token.(aud := [id])];
      }
    }
  }

  /** A receiver that is pushed to never has anything to poll. */
  lemma {:induction false} PushReceiversQueueNothing(ops: seq<Op>, id: ReceiverId)
    requires id in Run(ops) && Run(ops)[id].deliveryMode != "poll"
    ensures Run(ops)[id].pending == [] && Delivered(ops, id) == []
  {
    var last := ops[|ops| - 1];
    if last.Register? && last.id == id {
    } else {
      PushReceiversQueueNothing(ops[..|ops| - 1], id);
    }
  }

  /** Every push started for `id` since it was registered. */
  function Pushed(ops: seq<Op>, id: ReceiverId): seq<Push> {
    if ops == [] then [] else
      var before := ops[..|ops| - 1];
      var last := ops[|ops| - 1];
      if last.Register? && last.id == id then []
      else if last.Emit? && id in PushTasks(Run(before), last.token) then
        Pushed(before, id) + [PushTasks(Run(before), last.token)[id]]
      else Pushed(before, id)
  }

  function Pushes(endpoint: string, tokens: seq<Token>): (pushes: seq<Push>)
    ensures |pushes| == |tokens|
  {
    if tokens == [] then [] else Pushes(endpoint, tokens[..|tokens| - 1]) + [Push(endpoint, tokens[|tokens| - 1])]
  }

  lemma PushesAppend(endpoint: string, tokens: seq<Token>, token: Token)
    ensures Pushes(endpoint, tokens + [token]) == Pushes(endpoint, tokens) + [Push(endpoint, token)]
  {
    assert (tokens + [token])[..|tokens|] == tokens;
  }

  /** One emission: what it pushes to a receiver, whose registration it leaves alone. */
  lemma EmissionPushes(receivers: Registry, token: Token, id: ReceiverId)
    requires id in receivers
    ensures var receiver, after := receivers[id], Apply(receivers, Emit(token));
            && id in after && after[id].(pending := receiver.pending) == receiver
            && (id in PushTasks(receivers, token) <==>
                  Wanted(token.claims, receiver.eventTypes) && receiver.deliveryMode != "poll")
            && (id in PushTasks(receivers, token) ==>
                  PushTasks(receivers, token)[id] == Push(receiver.endpoint, token.(aud := [id])))
  {
  }

  /**
   For a live receiver that does not poll, the pushes started are, in order and without loss or repetition,
   one to its endpoint for every subscribed event emitted since it registered; for one that polls, none.
   */
  lemma {:induction false} ExactlyOncePush(ops: seq<Op>, id: ReceiverId)
    requires id in Run(ops)
    ensures var receiver := Run(ops)[id];
            Pushed(ops, id) ==
              if receiver.deliveryMode == "poll" then []
              else Pushes(receiver.endpoint, Expected(ops, id, receiver.eventTypes))
  {
    var last := ops[|ops| - 1];
    if last.Register? && last.id == id {
    } else {
      var before := ops[..|ops| - 1];
      ExactlyOncePush(before, id);
      if last.Emit? {
        var receiver := Run(before)[id];
        EmissionPushes(Run(before), last.token, id);
        PushesAppend(receiver.endpoint, Expected(before, id, receiver.eventTypes), last.token.(aud := [id]));
      }
    }
  }
}

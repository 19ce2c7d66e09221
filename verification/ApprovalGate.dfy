/**
 The M-of-N approval gate with its steps taken atomically: requests in a dict,
 votes appended, the threshold tallied, expiry noticed lazily, and each outcome
 announced through the Shared Signals emitter.
 */
module ApprovalGate {
  import opened Prelude
  import Ssf = SharedSignals

  type RequestId = string

  datatype State = Pending | Approved | Rejected | Expired

  /** A vote is free text; only these two texts mean anything to the gate. */
  datatype Ballot = Approve | Reject | Other(text: string)

  /** The policy decision point's answer; a denial whose reason ends in "fail_open" is let through. */
  datatype Pdp = Pdp(allowed: bool, failOpen: bool)

  predicate Passes(pdp: Pdp) {
    pdp.allowed || pdp.failOpen
  }

  datatype Vote = Vote(approver: string, ballot: Ballot, at: real, authz: Pdp)

  /** `mirrored` tells whether CAAS took the request up and gave it a decision id. */
  datatype Request = Request(
    agent: string, did: string, organization: string,
    required: int, mirrored: bool, approvals: seq<Vote>, state: State, expiresAt: real)

  datatype Error = NotFound | Gone | AlreadyDecided(state: State) | DuplicateVote | Forbidden

  /** What a caller is shown of a request. */
  datatype Status = Status(state: State, required: int, received: nat, approvals: seq<Vote>)

  datatype Outcome = Open | Granted | Refused

  function ApproveCount(votes: seq<Vote>): (count: nat)
    ensures count <= |votes|
  {
    if votes == [] then 0 else
      ApproveCount(votes[..|votes| - 1]) + if votes[|votes| - 1].ballot == Approve then 1 else 0
  }

  predicate HasVoted(votes: seq<Vote>, approver: string) {
    exists i :: 0 <= i < |votes| && votes[i].approver == approver
  }

  predicate HasReject(votes: seq<Vote>) {
    exists i :: 0 <= i < |votes| && votes[i].ballot == Reject
  }

  /** Which of the votes approve. */
  function Approving(votes: seq<Vote>): set<nat> {
    set i | 0 <= i < |votes| && votes[i].ballot == Approve
  }

  lemma {:induction false} CountIsSize(votes: seq<Vote>)
    ensures ApproveCount(votes) == |Approving(votes)|
  {
    if votes == [] {
    } else {
      var n := |votes| - 1;
      CountIsSize(votes[..n]);
      assert Approving(votes) == Approving(votes[..n]) + if votes[n].ballot == Approve then {n} else {};
    }
  }

  /** The caller sees the request as it is, with the number of its approving votes. */
  ghost predicate Shows(status: Status, request: Request) {
    && status.state == request.state && status.required == request.required
    && status.approvals == request.approvals && status.received == |Approving(request.approvals)|
  }

  function StatusOf(request: Request): (status: Status)
    ensures Shows(status, request)
  {
    CountIsSize(request.approvals);
    Status(request.state, request.required, ApproveCount(request.approvals), request.approvals)
  }

  /** The event announced for an outcome. */
  function ClaimsFor(request: Request, outcome: Outcome): Ssf.Claims {
    if outcome == Refused then
      Ssf.DeprovisionedClaims(request.agent, request.did, request.organization, Ssf.ProvisioningRejected)
    else
      Ssf.StatusChangeClaims(request.agent, request.did, Ssf.PendingApproval, Ssf.Active, Ssf.ApprovalGranted)
  }

  // ---------------------------------------------------------------------
  // Step functions
  // ---------------------------------------------------------------------

  function Tally(votes: seq<Vote>, required: int, ballot: Ballot): Outcome {
    if ballot == Reject then Refused
    else if ApproveCount(votes) >= required then Granted
    else Open
  }

  function Settle(state: State, outcome: Outcome): State {
    match outcome
    case Open => state
    case Granted => Approved
    case Refused => Rejected
  }

  /** One whole submission against one request: the request afterwards, the answer, the outcome it announced. */
  function Submitted(request: Request, approver: string, ballot: Ballot, pdp: Pdp, now: real, votedAt: real)
    : (Request, Result<Status, Error>, Outcome)
  {
    if now > request.expiresAt then (request.(state := Expired), Err(Gone), Open)
    else if request.state != Pending then (request, Err(AlreadyDecided(request.state)), Open)
    else if HasVoted(request.approvals, approver) then (request, Err(DuplicateVote), Open)
    else if !Passes(pdp) then (request, Err(Forbidden), Open)
    else
      var votes := request.approvals + [Vote(approver, ballot, votedAt, pdp)];
      var outcome := Tally(votes, request.required, ballot);
      var after := request.(approvals := votes, state := Settle(Pending, outcome));
      (after, Ok(StatusOf(after)), outcome)
  }

  function Read(request: Request, now: real): Request {
    if now > request.expiresAt && request.state == Pending then request.(state := Expired) else request
  }

  /** One announced outcome, as the gate's history records it. */
  datatype Announcement = Announcement(id: RequestId, outcome: Outcome, token: Ssf.Token)

  datatype World = World(requests: map<RequestId, Request>, receivers: Ssf.Registry, announced: seq<Announcement>)

  datatype Op =
    | Create(id: RequestId, agent: string, did: string, organization: string, required: int, pdp: Pdp,
             mirrored: bool, expiresAt: real)
    | Submit(id: RequestId, approver: string, ballot: Ballot, pdp: Pdp, jti: string, now: real, votedAt: real)
    | Get(id: RequestId, now: real)
    | Signal(op: Ssf.Op)

  function Apply(w: World, op: Op): World {
    match op
    case Create(id, agent, did, organization, required, pdp, mirrored, expiresAt) =>
      if Passes(pdp) then
        w.(requests := w.requests[id := Request(agent, did, organization, required, mirrored, [], Pending, expiresAt)])
      else w
    case Submit(id, approver, ballot, pdp, jti, now, votedAt) =>
      if id !in w.requests then w else
        var (after, _, outcome) := Submitted(w.requests[id], approver, ballot, pdp, now, votedAt);
        var settled := w.(requests := w.requests[id := after]);
        if outcome == Open then settled else Announce(settled, id, outcome, jti)
    case Get(id, now) =>
      if id !in w.requests then w else w.(requests := w.requests[id := Read(w.requests[id], now)])
    case Signal(signal) => w.(receivers := Ssf.Apply(w.receivers, signal))
  }

  function Announce(w: World, id: RequestId, outcome: Outcome, jti: string): World
    requires id in w.requests
  {
    var token := Ssf.Token(jti, ClaimsFor(w.requests[id], outcome), []);
    w.(receivers := Ssf.Apply(w.receivers, Ssf.Emit(token)),
       announced := w.announced + [Announcement(id, outcome, token)])
  }

  // ---------------------------------------------------------------------
  // The gate itself
  // ---------------------------------------------------------------------

  class Gate {
    const emitter: Ssf.Emitter
    var requests: map<RequestId, Request>
    ghost var announced: seq<Announcement>

    constructor (emitter: Ssf.Emitter)
      ensures this.emitter == emitter && requests == map[] && announced == []
    {
      this.emitter, requests, announced := emitter, map[], [];
    }

    ghost function View(): World
      reads this, emitter
    {
      World(requests, emitter.receivers, announced)
    }

    /** Request ids are fresh UUIDs. */
    method CreateApprovalRequest(id: RequestId, agent: string, did: string, organization: string,
                                 required: int, pdp: Pdp, mirrored: bool, expiresAt: real)
      returns (answer: Result<RequestId, Error>)
      requires id !in requests
      modifies this
      ensures View() == Apply(old(View()), Create(id, agent, did, organization, required, pdp, mirrored, expiresAt))
      ensures pdp.allowed || pdp.failOpen ==> answer == Ok(id)
      ensures !pdp.allowed && !pdp.failOpen ==> answer == Err(Forbidden) && requests == old(requests)
    {
      if !Passes(pdp) {
        return Err(Forbidden);
      }
      requests := requests[id := Request(agent, did, organization, required, mirrored, [], Pending, expiresAt)];
      answer := Ok(id);
    }

    method SubmitApprovalDecision(id: RequestId, approver: string, ballot: Ballot, pdp: Pdp, jti: string,
                                  now: real, votedAt: real)
      returns (answer: Result<Status, Error>)
      modifies this, emitter
      ensures View() == Apply(old(View()), Submit(id, approver, ballot, pdp, jti, now, votedAt))
      ensures answer == if id !in old(requests) then Err(NotFound)
                        else Submitted(old(requests[id]), approver, ballot, pdp, now, votedAt).1
      ensures answer.Ok? ==> id in requests && Shows(answer.value, requests[id])
    {
      if id !in requests {
        return Err(NotFound);
      }
      var request := requests[id];
      if now > request.expiresAt {
        requests := requests[id := request.(state := Expired)];
        return Err(Gone);
      }
      assert requests == requests[id := request];
      if request.state != Pending {
        return Err(AlreadyDecided(request.state));
      }
      var existing := set i | 0 <= i < |request.approvals| :: request.approvals[i].approver;
      if approver in existing {
        return Err(DuplicateVote);
      }
      if !Passes(pdp) {
        return Err(Forbidden);
      }
      answer := CastVote(id, Vote(approver, ballot, votedAt, pdp), jti);
    }

    /** The part of a submission after its checks: append, tally, announce. */
    method CastVote(id: RequestId, vote: Vote, jti: string) returns (answer: Result<Status, Error>)
      requires id in requests && requests[id].state == Pending
      modifies this, emitter
      ensures var votes := old(requests[id]).approvals + [vote];
              var outcome := Tally(votes, old(requests[id]).required, vote.ballot);
              var after := old(requests[id]).(approvals := votes, state := Settle(Pending, outcome));
              var settled := old(View()).(requests := old(requests)[id := after]);
              && View() == (if outcome == Open then settled else Announce(settled, id, outcome, jti))
              && answer == Ok(StatusOf(after))
    {
      var request := requests[id];
      request := request.(approvals := request.approvals + [vote]);
      var approveCount := CountApproves(request.approvals);
      if vote.ballot == Reject {
        request := request.(state := Rejected);
        requests := requests[id := request];
        OnRejected(id, jti);
      } else if approveCount >= request.required {
        request := request.(state := Approved);
        requests := requests[id := request];
        OnApproved(id, jti);
      } else {
        requests := requests[id := request];
      }
      answer := Ok(Status(request.state, request.required, approveCount, request.approvals));
    }

    method GetApprovalStatus(id: RequestId, now: real) returns (answer: Result<Status, Error>)
      modifies this
      ensures View() == Apply(old(View()), Get(id, now))
      ensures answer == if id !in old(requests) then Err(NotFound) else Ok(StatusOf(Read(old(requests[id]), now)))
      ensures answer.Ok? ==> id in requests && Shows(answer.value, requests[id])
    {
      if id !in requests {
        return Err(NotFound);
      }
      if now > requests[id].expiresAt && requests[id].state == Pending {
        requests := requests[id := requests[id].(state := Expired)];
      }
      var received := CountApproves(requests[id].approvals);
      answer := Ok(Status(requests[id].state, requests[id].required, received, requests[id].approvals));
    }

    method OnApproved(id: RequestId, jti: string)
      requires id in requests
      modifies this`announced, emitter
      ensures View() == Announce(old(View()), id, Granted, jti)
    {
      var r := requests[id];
      var _ := emitter.EmitAgentStatusChange(jti, r.agent, r.did, Ssf.PendingApproval, Ssf.Active, Ssf.ApprovalGranted);
      announced := announced + [Announcement(id, Granted, Ssf.Token(jti, ClaimsFor(r, Granted), []))];
    }

    method OnRejected(id: RequestId, jti: string)
      requires id in requests
      modifies this`announced, emitter
      ensures View() == Announce(old(View()), id, Refused, jti)
    {
      var r := requests[id];
      var _ := emitter.EmitAgentDeprovisioned(jti, r.agent, r.did, r.organization, Ssf.ProvisioningRejected);
      announced := announced + [Announcement(id, Refused, Ssf.Token(jti, ClaimsFor(r, Refused), []))];
    }
  }

  method CountApproves(votes: seq<Vote>) returns (count: nat)
    ensures count == ApproveCount(votes)
  {
    count := 0;
    for i := 0 to |votes|
      invariant count == ApproveCount(votes[..i])
    {
      assert votes[..i + 1][..i] == votes[..i];
      if votes[i].ballot == Approve {
        count := count + 1;
      }
    }
    assert votes[..|votes|] == votes;
  }

  // ---------------------------------------------------------------------
  // Runs
  // ---------------------------------------------------------------------

  function Run(ops: seq<Op>): World {
    if ops == [] then World(map[], map[], []) else Apply(Run(ops[..|ops| - 1]), ops[|ops| - 1])
  }

  /** Request ids are UUIDs: no request is created under an id in use. */
  ghost predicate FreshIds(ops: seq<Op>) {
    forall i :: 0 <= i < |ops| && ops[i].Create? ==> ops[i].id !in Run(ops[..i]).requests
  }

  /** What a list of votes amounts to, whoever cast them and in whatever order. */
  function Verdict(votes: seq<Vote>, required: int): Outcome {
    if HasReject(votes) then Refused else if ApproveCount(votes) >= required then Granted else Open
  }

  ghost predicate DistinctApprovers(votes: seq<Vote>) {
    forall i, j :: 0 <= i < j < |votes| ==> votes[i].approver != votes[j].approver
  }

  ghost predicate AllAuthorized(votes: seq<Vote>) {
    forall i :: 0 <= i < |votes| ==> votes[i].authz.allowed || votes[i].authz.failOpen
  }

  /** The votes of a request that sat open until the last of them. */
  ghost predicate OpenUntilLast(votes: seq<Vote>, required: int) {
    votes != [] ==> Verdict(votes[..|votes| - 1], required) == Open
  }

  ghost predicate Exact(request: Request) {
    && DistinctApprovers(request.approvals)
    && AllAuthorized(request.approvals)
    && OpenUntilLast(request.approvals, request.required)
    && var verdict := Verdict(request.approvals, request.required);
       match request.state
       case Pending => verdict == Open
       case Approved => verdict == Granted
       case Rejected => verdict == Refused
       case Expired => true
  }

  function AnnouncedFor(announced: seq<Announcement>, id: RequestId): seq<Announcement> {
    if announced == [] then [] else
      var last := announced[|announced| - 1];
      AnnouncedFor(announced[..|announced| - 1], id) + if last.id == id then [last] else []
  }

  /** The announcement tells of its outcome, with the data of the request, to no receiver in particular. */
  predicate TellsOf(a: Announcement, request: Request) {
    a.outcome != Open && a.token.claims == ClaimsFor(request, a.outcome) && a.token.aud == []
  }

  /** The one announcement a request's votes call for, or none. */
  ghost predicate HistoryExact(request: Request, history: seq<Announcement>) {
    var verdict := Verdict(request.approvals, request.required);
    if verdict == Open then history == []
    else |history| == 1 && history[0].outcome == verdict && TellsOf(history[0], request)
  }

  ghost predicate AnnouncedExactly(w: World, id: RequestId) {
    var history := AnnouncedFor(w.announced, id);
    if id in w.requests then HistoryExact(w.requests[id], history) else history == []
  }

  /** Every request with a threshold of at least one is exact, and announced exactly once when decided. */
  lemma {:induction false} SequentialExactness(ops: seq<Op>, id: RequestId)
    requires FreshIds(ops)
    requires forall i :: 0 <= i < |ops| && ops[i].Create? && ops[i].id == id ==> ops[i].required >= 1
    ensures id in Run(ops).requests ==> Exact(Run(ops).requests[id]) && Run(ops).requests[id].required >= 1
    ensures AnnouncedExactly(Run(ops), id)
  {
    if ops == [] {
    } else {
      var n := |ops| - 1;
      FreshIdsPrefix(ops);
      SequentialExactness(ops[..n], id);
      StepKeepsExactness(Run(ops[..n]), ops[n], id);
    }
  }

  lemma FreshIdsPrefix(ops: seq<Op>)
    requires FreshIds(ops) && ops != []
    ensures FreshIds(ops[..|ops| - 1])
  {
    var before := ops[..|ops| - 1];
    forall i | 0 <= i < |before| && before[i].Create?
      ensures before[i].id !in Run(before[..i]).requests
    {
      assert before[..i] == ops[..i];
    }
  }

  lemma StepKeepsExactness(w: World, op: Op, id: RequestId)
    requires op.Create? ==> op.id !in w.requests && (op.id == id ==> op.required >= 1)
    requires id in w.requests ==> Exact(w.requests[id]) && w.requests[id].required >= 1
    requires AnnouncedExactly(w, id)
    ensures var after := Apply(w, op);
            && (id in after.requests ==> Exact(after.requests[id]) && after.requests[id].required >= 1)
            && AnnouncedExactly(after, id)
  {
    if op.Submit? && op.id in w.requests {
      SubmitKeepsExactness(w, op, id);
    } else {
      var after := Apply(w, op);
      assert after.announced == w.announced;
      assert id in w.requests ==> after.requests[id].approvals == w.requests[id].approvals;
    }
  }

  lemma SubmitKeepsExactness(w: World, op: Op, id: RequestId)
    requires op.Submit? && op.id in w.requests
    requires id in w.requests ==> Exact(w.requests[id]) && w.requests[id].required >= 1
    requires AnnouncedExactly(w, id)
    ensures var after := Apply(w, op);
            && (id in after.requests ==> Exact(after.requests[id]) && after.requests[id].required >= 1)
            && AnnouncedExactly(after, id)
  {
    var after := Apply(w, op);
    if after.announced != w.announced {
      assert after.announced[..|w.announced|] == w.announced;
    }
    if op.id == id {
      SubmissionKeepsExactness(w.requests[id], op.approver, op.ballot, op.pdp, op.now, op.votedAt);
    }
  }

  lemma AppendVote(votes: seq<Vote>, vote: Vote)
    ensures ApproveCount(votes + [vote]) == ApproveCount(votes) + if vote.ballot == Approve then 1 else 0
    ensures HasReject(votes + [vote]) <==> HasReject(votes) || vote.ballot == Reject
  {
    var longer := votes + [vote];
    assert longer[..|votes|] == votes && longer[|votes|] == vote;
    assert forall i :: 0 <= i < |votes| ==> longer[i] == votes[i];
  }

  /** One more vote of a new, authorized approver on an open request. */
  lemma VoteOnOpenRequest(votes: seq<Vote>, required: int, vote: Vote)
    requires DistinctApprovers(votes) && AllAuthorized(votes) && Verdict(votes, required) == Open
    requires !HasVoted(votes, vote.approver) && Passes(vote.authz)
    ensures var longer := votes + [vote];
            && DistinctApprovers(longer) && AllAuthorized(longer) && OpenUntilLast(longer, required)
            && Tally(longer, required, vote.ballot) == Verdict(longer, required)
  {
    AppendVote(votes, vote);
    assert (votes + [vote])[..|votes|] == votes;
  }

  /** A vote that counts found the request open, and announces what the votes now amount to. */
  lemma CountedSubmission(request: Request, vote: Vote, now: real)
    requires Exact(request) && request.state == Pending && now <= request.expiresAt
    requires !HasVoted(request.approvals, vote.approver) && Passes(vote.authz)
    ensures var (after, answer, outcome) := Submitted(request, vote.approver, vote.ballot, vote.authz, now, vote.at);
            && after.approvals == request.approvals + [vote] && after.required == request.required
            && Exact(after)
            && Verdict(request.approvals, request.required) == Open
            && outcome == Verdict(after.approvals, request.required)
  {
    VoteOnOpenRequest(request.approvals, request.required, vote);
  }

  lemma SubmissionKeepsExactness(
    request: Request, approver: string, ballot: Ballot, pdp: Pdp, now: real, votedAt: real)
    requires Exact(request) && request.required >= 1
    ensures var (after, answer, outcome) := Submitted(request, approver, ballot, pdp, now, votedAt);
            && Exact(after) && after.required == request.required
            && (after.approvals == request.approvals ==> outcome == Open)
            && (after.approvals != request.approvals ==>
                  && Verdict(request.approvals, request.required) == Open
                  && outcome == Verdict(after.approvals, request.required))
  {
    var after := Submitted(request, approver, ballot, pdp, now, votedAt).0;
    if after.approvals != request.approvals {
      CountedSubmission(request, Vote(approver, ballot, votedAt, pdp), now);
    } else {
      assert after.state == request.state || after.state == Expired;
    }
  }

  /** Every check of a submission in its place, what each answers, and all that a vote let through changes. */
  lemma SubmissionExactly(request: Request, approver: string, ballot: Ballot, pdp: Pdp, now: real, votedAt: real)
    ensures var (after, answer, outcome) := Submitted(request, approver, ballot, pdp, now, votedAt);
            var late, pending := now > request.expiresAt, request.state == Pending;
            var voted := exists vote :: vote in request.approvals && vote.approver == approver;
            var votes := request.approvals + [Vote(approver, ballot, votedAt, pdp)];
            && (answer == Err(Gone) <==> late)
            && (answer == Err(AlreadyDecided(request.state)) <==> !late && !pending)
            && (answer == Err(DuplicateVote) <==> !late && pending && voted)
            && (answer == Err(Forbidden) <==> !late && pending && !voted && !pdp.allowed && !pdp.failOpen)
            && (answer.Ok? <==> !late && pending && !voted && (pdp.allowed || pdp.failOpen))
            && (answer.Err? ==>
                  outcome == Open && after == request.(state := if late then Expired else request.state))
            && (answer.Ok? ==>
                  && outcome == (if ballot == Reject then Refused
                                 else if |Approving(votes)| >= request.required then Granted else Open)
                  && after == request.(approvals := votes,
                                       state := match outcome
                                                case Open => Pending case Granted => Approved case Refused => Rejected)
                  && Shows(answer.value, after))
  {
    CountIsSize(request.approvals + [Vote(approver, ballot, votedAt, pdp)]);
    assert HasVoted(request.approvals, approver)
           <==> exists vote :: vote in request.approvals && vote.approver == approver;
  }

  /** A read shows the request; it changes one that is pending past its deadline, and only by marking it expired. */
  lemma ReadExactly(request: Request, now: real)
    ensures Shows(StatusOf(Read(request, now)), Read(request, now))
    ensures Read(request, now) == request.(state := Read(request, now).state)
    ensures Read(request, now).state != request.state <==> request.state == Pending && now > request.expiresAt
    ensures Read(request, now).state in {request.state, Expired}
  {
  }

  /** A new request is exact if and only if its threshold is positive; otherwise any vote but a reject approves it. */
  lemma ThresholdMustBePositive(request: Request, approver: string, ballot: Ballot, pdp: Pdp, now: real, votedAt: real)
    requires request.approvals == [] && request.state == Pending
    ensures Exact(request) <==> request.required >= 1
    ensures request.required < 1 && now <= request.expiresAt && Passes(pdp) && ballot != Reject ==>
              Submitted(request, approver, ballot, pdp, now, votedAt).0.state == Approved
  {
  }

  // ---------------------------------------------------------------------
  // What exactness means, spelled out
  // ---------------------------------------------------------------------

  /** A decided request was decided by its last vote, and only just. */
  lemma {:induction false} DecidedByTheLastVote(request: Request)
    requires Exact(request) && request.required >= 1
    ensures var votes := request.approvals;
            && (request.state == Pending ==> !HasReject(votes) && ApproveCount(votes) < request.required)
            && (request.state == Approved ==>
                  && !HasReject(votes) && ApproveCount(votes) == request.required
                  && votes[|votes| - 1].ballot == Approve)
            && (request.state == Rejected ==>
                  && votes != [] && votes[|votes| - 1].ballot == Reject
                  && forall i :: 0 <= i < |votes| - 1 ==> votes[i].ballot != Reject)
  {
    var votes := request.approvals;
    if votes == [] {
    } else {
      var before := votes[..|votes| - 1];
      assert forall i :: 0 <= i < |before| ==> votes[i] == before[i];
    }
  }

  /** Some submission to `id` comes after the deadline. */
  predicate LateVote(ops: seq<Op>, id: RequestId, deadline: real) {
    if ops == [] then false else
      var last := ops[|ops| - 1];
      LateVote(ops[..|ops| - 1], id, deadline) || (last.Submit? && last.id == id && last.now > deadline)
  }

  lemma DecidedStep(w: World, op: Op, id: RequestId)
    requires id in w.requests && w.requests[id].state != Pending
    requires op.Create? ==> op.id !in w.requests
    ensures id in Apply(w, op).requests
    ensures var before, after := w.requests[id], Apply(w, op).requests[id];
            && after.approvals == before.approvals && after.expiresAt == before.expiresAt
            && after.state == if op.Submit? && op.id == id && op.now > before.expiresAt then Expired else before.state
  {
  }

  /** Once decided, a request keeps its state until someone votes after the deadline, which marks it expired. */
  lemma {:induction false} DecisionStandsUntilALateVote(ops: seq<Op>, more: seq<Op>, id: RequestId)
    requires FreshIds(ops + more) && id in Run(ops).requests
    requires Run(ops).requests[id].state != Pending
    ensures id in Run(ops + more).requests
    ensures var before, after := Run(ops).requests[id], Run(ops + more).requests[id];
            && after.approvals == before.approvals && after.expiresAt == before.expiresAt
            && after.state == if LateVote(more, id, before.expiresAt) then Expired else before.state
  {
    var all := ops + more;
    if more == [] {
      assert all == ops;
    } else {
      var before, last := all[..|all| - 1], all[|all| - 1];
      assert before == ops + more[..|more| - 1] && last == more[|more| - 1];
      FreshIdsPrefix(all);
      DecisionStandsUntilALateVote(ops, more[..|more| - 1], id);
      DecidedStep(Run(before), last, id);
    }
  }

  predicate EverIn(ops: seq<Op>, id: RequestId, state: State) {
    if ops == [] then false else
      EverIn(ops[..|ops| - 1], id, state)
      || (id in Run(ops).requests && Run(ops).requests[id].state == state)
  }

  /** What the votes of `id` amount to in a world, Open if there is no such request. */
  function VerdictIn(w: World, id: RequestId): Outcome {
    if id in w.requests then Verdict(w.requests[id].approvals, w.requests[id].required) else Open
  }

  /** A step can turn an open verdict into another one, and then the state shows it; no verdict is ever lost. */
  lemma VerdictStep(w: World, op: Op, id: RequestId)
    requires op.Create? ==> op.id !in w.requests && (op.id == id ==> op.required >= 1)
    requires id in w.requests ==> Exact(w.requests[id]) && w.requests[id].required >= 1
    ensures VerdictIn(w, id) != Open ==> VerdictIn(Apply(w, op), id) == VerdictIn(w, id)
    ensures VerdictIn(w, id) == Open && VerdictIn(Apply(w, op), id) != Open ==>
              Apply(w, op).requests[id].state == Settle(Pending, VerdictIn(Apply(w, op), id))
  {
    if op.Submit? && op.id == id && id in w.requests {
      SubmissionKeepsExactness(w.requests[id], op.approver, op.ballot, op.pdp, op.now, op.votedAt);
    }
  }

  /** A request's votes remember whether it was ever approved or rejected, even after it expires. */
  lemma {:induction false} VerdictRemembers(ops: seq<Op>, id: RequestId)
    requires FreshIds(ops)
    requires forall i :: 0 <= i < |ops| && ops[i].Create? && ops[i].id == id ==> ops[i].required >= 1
    ensures EverIn(ops, id, Approved) <==> VerdictIn(Run(ops), id) == Granted
    ensures EverIn(ops, id, Rejected) <==> VerdictIn(Run(ops), id) == Refused
  {
    if ops == [] {
    } else {
      var before, last := ops[..|ops| - 1], ops[|ops| - 1];
      FreshIdsPrefix(ops);
      VerdictRemembers(before, id);
      SequentialExactness(ops, id);
      SequentialExactness(before, id);
      VerdictStep(Run(before), last, id);
    }
  }

  /** Some vote on the request came after its deadline. */
  predicate VotedLate(ops: seq<Op>, id: RequestId) {
    if ops == [] then false else
      var requests, last := Run(ops[..|ops| - 1]).requests, ops[|ops| - 1];
      VotedLate(ops[..|ops| - 1], id)
      || (last.Submit? && last.id == id && id in requests && last.now > requests[id].expiresAt)
  }

  /** Some read of the request came after its deadline. */
  predicate ReadLate(ops: seq<Op>, id: RequestId) {
    if ops == [] then false else
      var requests, last := Run(ops[..|ops| - 1]).requests, ops[|ops| - 1];
      ReadLate(ops[..|ops| - 1], id)
      || (last.Get? && last.id == id && id in requests && last.now > requests[id].expiresAt)
  }

  /** The state that votes and lateness call for. */
  function StateFor(verdict: Outcome, votedLate: bool, readLate: bool): State {
    if votedLate then Expired
    else match verdict
      case Granted => Approved
      case Refused => Rejected
      case Open => if readLate then Expired else Pending
  }

  lemma SubmittedState(request: Request, approver: string, ballot: Ballot, pdp: Pdp, now: real, votedAt: real,
                       votedLate: bool, readLate: bool)
    requires Exact(request) && request.required >= 1
    requires request.state == StateFor(Verdict(request.approvals, request.required), votedLate, readLate)
    ensures var after := Submitted(request, approver, ballot, pdp, now, votedAt).0;
            && after.required == request.required
            && after.state == StateFor(Verdict(after.approvals, request.required),
                                       votedLate || now > request.expiresAt, readLate)
  {
    SubmissionKeepsExactness(request, approver, ballot, pdp, now, votedAt);
  }

  lemma StateStep(w: World, op: Op, id: RequestId, votedLate: bool, readLate: bool)
    requires id in w.requests && Exact(w.requests[id]) && w.requests[id].required >= 1
    requires op.Create? ==> op.id != id
    requires w.requests[id].state == StateFor(VerdictIn(w, id), votedLate, readLate)
    ensures id in Apply(w, op).requests
    ensures var deadline := w.requests[id].expiresAt;
            Apply(w, op).requests[id].state ==
              StateFor(VerdictIn(Apply(w, op), id),
                       votedLate || (op.Submit? && op.id == id && op.now > deadline),
                       readLate || (op.Get? && op.id == id && op.now > deadline))
  {
    if op.Submit? && op.id == id {
      SubmittedState(w.requests[id], op.approver, op.ballot, op.pdp, op.now, op.votedAt, votedLate, readLate);
    }
  }

  /** At every moment a request's state is determined by what its votes amount to and by who came late. */
  lemma {:induction false} StateFollowsHistory(ops: seq<Op>, id: RequestId)
    requires FreshIds(ops)
    requires forall i :: 0 <= i < |ops| && ops[i].Create? && ops[i].id == id ==> ops[i].required >= 1
    ensures id !in Run(ops).requests ==> !VotedLate(ops, id) && !ReadLate(ops, id)
    ensures id in Run(ops).requests ==>
              Run(ops).requests[id].state == StateFor(VerdictIn(Run(ops), id), VotedLate(ops, id), ReadLate(ops, id))
  {
    if ops == [] {
    } else {
      var before, last := ops[..|ops| - 1], ops[|ops| - 1];
      FreshIdsPrefix(ops);
      StateFollowsHistory(before, id);
      SequentialExactness(before, id);
      if id in Run(before).requests {
        StateStep(Run(before), last, id, VotedLate(before, id), ReadLate(before, id));
      }
    }
  }

  /** The operation that created `id`, if it was let through. */
  function CreationOf(ops: seq<Op>, id: RequestId): Option<Op> {
    if ops == [] then None else
      var last := ops[|ops| - 1];
      if last.Create? && last.id == id && (last.pdp.allowed || last.pdp.failOpen) then Some(last)
      else CreationOf(ops[..|ops| - 1], id)
  }

  lemma StepKeepsCreation(w: World, op: Op, id: RequestId)
    ensures var after := Apply(w, op);
            if op.Create? && op.id == id && (op.pdp.allowed || op.pdp.failOpen) then
              && id in after.requests
              && after.requests[id] == Request(op.agent, op.did, op.organization, op.required, op.mirrored,
                                               [], Pending, op.expiresAt)
            else
              && (id in after.requests <==> id in w.requests)
              && (id in w.requests ==>
                    after.requests[id] == w.requests[id].(approvals := after.requests[id].approvals,
                                                          state := after.requests[id].state))
  {
  }

  /** A request exists if and only if its creation was let through, and keeps what it was created with. */
  lemma {:induction false} RequestMatchesCreation(ops: seq<Op>, id: RequestId)
    requires FreshIds(ops)
    ensures id in Run(ops).requests <==> CreationOf(ops, id).Some?
    ensures id in Run(ops).requests ==>
              var request, creation := Run(ops).requests[id], CreationOf(ops, id).value;
              && creation.Create? && (creation.pdp.allowed || creation.pdp.failOpen)
              && request.agent == creation.agent && request.did == creation.did
              && request.organization == creation.organization && request.mirrored == creation.mirrored
              && request.required == creation.required && request.expiresAt == creation.expiresAt
  {
    if ops == [] {
    } else {
      FreshIdsPrefix(ops);
      RequestMatchesCreation(ops[..|ops| - 1], id);
      StepKeepsCreation(Run(ops[..|ops| - 1]), ops[|ops| - 1], id);
    }
  }

  // ---------------------------------------------------------------------
  // From the gate to the receivers
  // ---------------------------------------------------------------------

  /** The emitter operations of a step: its own, or the emission of the announcement it makes. */
  function StepSignals(w: World, op: Op): seq<Ssf.Op> {
    if op.Signal? then [op.op]
    else if |Apply(w, op).announced| > |w.announced| then [Ssf.Emit(Apply(w, op).announced[|w.announced|].token)]
    else []
  }

  /** The emitter operations a run of the whole system performs. */
  function SignalOps(ops: seq<Op>): seq<Ssf.Op> {
    if ops == [] then [] else
      var before := ops[..|ops| - 1];
      SignalOps(before) + StepSignals(Run(before), ops[|ops| - 1])
  }

  lemma NextSignal(signals: seq<Ssf.Op>, step: seq<Ssf.Op>)
    requires |step| <= 1
    ensures Ssf.Run(signals + step) == if step == [] then Ssf.Run(signals) else Ssf.Apply(Ssf.Run(signals), step[0])
  {
    if step == [] {
      assert signals + step == signals;
    } else {
      assert (signals + step)[..|signals|] == signals;
    }
  }

  /** The gate's own events carry its own reasons; no other caller of the emitter uses them. */
  predicate IsGateEvent(token: Ssf.Token) {
    match token.claims
    case StatusChangeClaims(_, _, _, _, reason) => reason == Ssf.ApprovalGranted
    case DeprovisionedClaims(_, _, _, reason) => reason == Ssf.ProvisioningRejected
    case SessionRevokedClaims(_, _, _) => false
  }

  /** A step does to the receivers what its emitter operation does, and announces that if it is its own. */
  lemma StepSignalsDo(w: World, op: Op)
    ensures var after, step := Apply(w, op), StepSignals(w, op);
            && |step| <= 1
            && after.receivers == (if step == [] then w.receivers else Ssf.Apply(w.receivers, step[0]))
            && w.announced <= after.announced
            && (op.Signal? || step == [] ==> after.announced == w.announced)
            && (!op.Signal? && step != [] ==>
                  && |after.announced| == |w.announced| + 1
                  && step[0] == Ssf.Emit(after.announced[|w.announced|].token)
                  && IsGateEvent(after.announced[|w.announced|].token))
  {
  }

  lemma {:induction false} ReceiversFollowSignalOps(ops: seq<Op>)
    ensures Run(ops).receivers == Ssf.Run(SignalOps(ops))
  {
    if ops == [] {
    } else {
      var before, last := ops[..|ops| - 1], ops[|ops| - 1];
      ReceiversFollowSignalOps(before);
      StepSignalsDo(Run(before), last);
      NextSignal(SignalOps(before), StepSignals(Run(before), last));
    }
  }

  function GateEvents(tokens: seq<Ssf.Token>): seq<Ssf.Token> {
    if tokens == [] then [] else
      var last := tokens[|tokens| - 1];
      GateEvents(tokens[..|tokens| - 1]) + if IsGateEvent(last) then [last] else []
  }

  function Addressed(announced: seq<Announcement>, receiver: Ssf.ReceiverId): seq<Ssf.Token> {
    seq(|announced|, i requires 0 <= i < |announced| => announced[i].token.(aud := [receiver]))
  }

  /** A polling receiver that took both event types before the gate was first used, and kept them. */
  ghost predicate SubscribedThroughout(setup: seq<Op>, rest: seq<Op>, receiver: Ssf.ReceiverId) {
    && (forall i :: 0 <= i < |setup| ==> setup[i].Signal?)
    && receiver in Run(setup).receivers
    && Run(setup).receivers[receiver].deliveryMode == "poll"
    && Ssf.AgentStatusChange in Run(setup).receivers[receiver].eventTypes
    && Ssf.AgentDeprovisioned in Run(setup).receivers[receiver].eventTypes
    && (forall i :: 0 <= i < |rest| && rest[i].Signal? ==>
          && rest[i].op != Ssf.Deregister(receiver)
          && !(rest[i].op.Register? && rest[i].op.id == receiver))
  }

  /** Only the gate emits gate events. */
  ghost predicate NoForeignGateEvents(ops: seq<Op>) {
    forall i :: 0 <= i < |ops| && ops[i].Signal? && ops[i].op.Emit? ==> !IsGateEvent(ops[i].op.token)
  }

  lemma GateEventsAppend(tokens: seq<Ssf.Token>, token: Ssf.Token)
    ensures GateEvents(tokens + [token]) == GateEvents(tokens) + if IsGateEvent(token) then [token] else []
  {
    assert (tokens + [token])[..|tokens|] == tokens;
  }

  lemma OneMoreSignal(
    signals: seq<Ssf.Op>, signal: Ssf.Op, receiver: Ssf.ReceiverId, types: seq<Ssf.EventType>)
    requires !(signal.Register? && signal.id == receiver)
    ensures GateEvents(Ssf.Expected(signals + [signal], receiver, types))
            == GateEvents(Ssf.Expected(signals, receiver, types))
               + if signal.Emit? && Ssf.Wanted(signal.token.claims, types) && IsGateEvent(signal.token)
                 then [signal.token.(aud := [receiver])] else []
  {
    assert (signals + [signal])[..|signals|] == signals;
    if signal.Emit? {
      GateEventsAppend(Ssf.Expected(signals, receiver, types), signal.token.(aud := [receiver]));
    }
  }

  lemma {:induction false} SetupAnnouncesNothing(
    setup: seq<Op>, receiver: Ssf.ReceiverId, types: seq<Ssf.EventType>)
    requires forall i :: 0 <= i < |setup| ==> setup[i].Signal?
    requires NoForeignGateEvents(setup)
    ensures Run(setup).announced == []
    ensures GateEvents(Ssf.Expected(SignalOps(setup), receiver, types)) == []
  {
    if setup == [] {
    } else {
      var before, last := setup[..|setup| - 1], setup[|setup| - 1];
      SetupAnnouncesNothing(before, receiver, types);
      StepSignalsDo(Run(before), last);
      if last.op.Register? && last.op.id == receiver {
        assert Ssf.Expected(SignalOps(before) + [last.op], receiver, types) == [];
      } else {
        OneMoreSignal(SignalOps(before), last.op, receiver, types);
      }
    }
  }

  lemma ReceiverKept(receivers: Ssf.Registry, op: Ssf.Op, receiver: Ssf.ReceiverId)
    requires receiver in receivers
    requires op != Ssf.Deregister(receiver) && !(op.Register? && op.id == receiver)
    ensures var after := Ssf.Apply(receivers, op);
            && receiver in after
            && after[receiver].deliveryMode == receivers[receiver].deliveryMode
            && after[receiver].eventTypes == receivers[receiver].eventTypes
  {
  }

  /** The step neither registers nor deregisters the receiver, nor forges a gate event. */
  predicate Harmless(op: Op, receiver: Ssf.ReceiverId) {
    op.Signal? ==>
      && op.op != Ssf.Deregister(receiver)
      && !(op.op.Register? && op.op.id == receiver)
      && !(op.op.Emit? && IsGateEvent(op.op.token))
  }

  lemma StepKeepsReceiver(before: seq<Op>, op: Op, receiver: Ssf.ReceiverId)
    requires receiver in Run(before).receivers && Harmless(op, receiver)
    ensures var start, end := Run(before).receivers, Run(before + [op]).receivers;
            && receiver in end
            && end[receiver].deliveryMode == start[receiver].deliveryMode
            && end[receiver].eventTypes == start[receiver].eventTypes
  {
    assert (before + [op])[..|before|] == before;
    StepSignalsDo(Run(before), op);
    var step := StepSignals(Run(before), op);
    if step != [] {
      ReceiverKept(Run(before).receivers, step[0], receiver);
    }
  }

  lemma AddressedNext(had: seq<Announcement>, made: seq<Announcement>, receiver: Ssf.ReceiverId)
    requires |made| == |had| + 1 && had <= made
    ensures Addressed(made, receiver) == Addressed(had, receiver) + [made[|had|].token.(aud := [receiver])]
  {
  }

  lemma StepExpectsAnnouncements(
    before: seq<Op>, op: Op, receiver: Ssf.ReceiverId, types: seq<Ssf.EventType>)
    requires Harmless(op, receiver) && Ssf.AgentStatusChange in types && Ssf.AgentDeprovisioned in types
    requires GateEvents(Ssf.Expected(SignalOps(before), receiver, types)) == Addressed(Run(before).announced, receiver)
    ensures GateEvents(Ssf.Expected(SignalOps(before + [op]), receiver, types))
            == Addressed(Run(before + [op]).announced, receiver)
  {
    assert (before + [op])[..|before|] == before;
    var w := Run(before);
    var step := StepSignals(w, op);
    StepSignalsDo(w, op);
    if step == [] {
      assert SignalOps(before) + step == SignalOps(before);
    } else {
      assert step == [step[0]];
      OneMoreSignal(SignalOps(before), step[0], receiver, types);
      if !op.Signal? {
        AddressedNext(w.announced, Apply(w, op).announced, receiver);
      }
    }
  }

  lemma {:induction false} ExpectedGateEvents(
    setup: seq<Op>, rest: seq<Op>, receiver: Ssf.ReceiverId, types: seq<Ssf.EventType>)
    requires SubscribedThroughout(setup, rest, receiver) && NoForeignGateEvents(setup + rest)
    requires types == Run(setup).receivers[receiver].eventTypes
    ensures var end := Run(setup + rest).receivers;
            && receiver in end && end[receiver].deliveryMode == "poll" && end[receiver].eventTypes == types
    ensures GateEvents(Ssf.Expected(SignalOps(setup + rest), receiver, types))
            == Addressed(Run(setup + rest).announced, receiver)
  {
    if rest == [] {
      assert setup + rest == setup;
      SetupAnnouncesNothing(setup, receiver, types);
    } else {
      var n := |rest| - 1;
      var before := setup + rest[..n];
      assert setup + rest == before + [rest[n]];
      assert forall i :: 0 <= i < |before| ==> before[i] == (setup + rest)[i];
      ExpectedGateEvents(setup, rest[..n], receiver, types);
      assert Harmless(rest[n], receiver) by { assert (setup + rest)[|setup| + n] == rest[n]; }
      StepKeepsReceiver(before, rest[n], receiver);
      StepExpectsAnnouncements(before, rest[n], receiver, types);
    }
  }

  /**
   The gate's part of what a subscribed polling receiver has been handed and still has queued
   is exactly the gate's announcements, in order, each addressed to that receiver alone.
   */
  lemma AnnouncementsReachReceivers(setup: seq<Op>, rest: seq<Op>, receiver: Ssf.ReceiverId)
    requires SubscribedThroughout(setup, rest, receiver) && NoForeignGateEvents(setup + rest)
    ensures var ops := setup + rest;
            && receiver in Run(ops).receivers
            && GateEvents(Ssf.Delivered(SignalOps(ops), receiver) + Run(ops).receivers[receiver].pending)
               == Addressed(Run(ops).announced, receiver)
  {
    var ops := setup + rest;
    ExpectedGateEvents(setup, rest, receiver, Run(setup).receivers[receiver].eventTypes);
    ReceiversFollowSignalOps(ops);
    Ssf.ExactlyOnceDelivery(SignalOps(ops), receiver);
  }

  /**
   Conservation from gate to signal: in the announcements that reach such a receiver, a request
   that was ever approved has exactly one Active status change, one that was ever rejected has
   exactly one deprovisioned event, and any other request has none.
   */
  lemma OneEventPerDecision(setup: seq<Op>, rest: seq<Op>, receiver: Ssf.ReceiverId, id: RequestId)
    requires SubscribedThroughout(setup, rest, receiver) && NoForeignGateEvents(setup + rest)
    requires FreshIds(setup + rest)
    requires forall op :: op in setup + rest && op.Create? && op.id == id ==> op.required >= 1
    ensures var ops := setup + rest;
            var w := Run(ops);
            var history := AnnouncedFor(w.announced, id);
            && receiver in w.receivers
            && GateEvents(Ssf.Delivered(SignalOps(ops), receiver) + w.receivers[receiver].pending)
               == Addressed(w.announced, receiver)
            && |history| == (if EverIn(ops, id, Approved) || EverIn(ops, id, Rejected) then 1 else 0)
            && (|history| == 1 ==> CreationOf(ops, id).Some? && CreationOf(ops, id).value.Create?)
            && (EverIn(ops, id, Approved) ==>
                  var c := CreationOf(ops, id).value;
                  history[0].token.claims
                  == Ssf.StatusChangeClaims(c.agent, c.did, Ssf.PendingApproval, Ssf.Active, Ssf.ApprovalGranted))
            && (EverIn(ops, id, Rejected) ==>
                  var c := CreationOf(ops, id).value;
                  history[0].token.claims
                  == Ssf.DeprovisionedClaims(c.agent, c.did, c.organization, Ssf.ProvisioningRejected))
            && !(EverIn(ops, id, Approved) && EverIn(ops, id, Rejected))
  {
    var ops := setup + rest;
    AnnouncementsReachReceivers(setup, rest, receiver);
    forall i | 0 <= i < |ops| && ops[i].Create? && ops[i].id == id ensures ops[i].required >= 1 {
      assert ops[i] in ops;
    }
    SequentialExactness(ops, id);
    VerdictRemembers(ops, id);
    RequestMatchesCreation(ops, id);
  }
}

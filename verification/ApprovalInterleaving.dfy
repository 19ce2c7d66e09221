/**
 The approval gate as coroutines: a submission suspends while the policy decision
 point answers, while its vote is mirrored to CAAS if CAAS has taken the request up,
 and while its event is pushed, and any other submission or status read may run in
 between. Where no decision point is configured nobody is asked: a submission then
 suspends for a push at most, and its runs are those in which each `Begin` is
 followed at once by its reply.
 */
module ApprovalInterleaving {
  import opened Prelude
  import opened ApprovalGate
  import Ssf = SharedSignals

  type TaskId = nat

  /** Where a submission is suspended. `received` is the tally it took before announcing. */
  datatype Task =
    | AwaitingPdp(id: RequestId, approver: string, ballot: Ballot)
    | AwaitingSync(id: RequestId, ballot: Ballot)
    | Announcing(id: RequestId, received: nat)
    | Finished(answer: Result<Status, Error>)

  datatype System = System(requests: map<RequestId, Request>, tasks: map<TaskId, Task>, announced: seq<Announcement>)

  datatype Step =
    | CreateRequest(id: RequestId, agent: string, did: string, organization: string, required: int,
                    mirrored: bool, expiresAt: real)
    | Begin(task: TaskId, id: RequestId, approver: string, ballot: Ballot, now: real)
    | PdpReplies(task: TaskId, pdp: Pdp, at: real, jti: string)
    | SyncReturns(task: TaskId, jti: string)
    | PushReturns(task: TaskId)
    | Get(id: RequestId, now: real)

  /** The checks made before the first suspension. */
  function Admitted(request: Request, id: RequestId, approver: string, ballot: Ballot, now: real): (Request, Task) {
    if now > request.expiresAt then (request.(state := Expired), Finished(Err(Gone)))
    else if request.state != Pending then (request, Finished(Err(AlreadyDecided(request.state))))
    else if HasVoted(request.approvals, approver) then (request, Finished(Err(DuplicateVote)))
    else (request, AwaitingPdp(id, approver, ballot))
  }

  /** A step that is not enabled leaves the system alone; request and task ids are never reused. */
  function Next(s: System, step: Step): System {
    match step
    case CreateRequest(id, agent, did, organization, required, mirrored, expiresAt) =>
      if id in s.requests then s else
        s.(requests := s.requests[id := Request(agent, did, organization, required, mirrored, [], Pending, expiresAt)])
    case Begin(task, id, approver, ballot, now) =>
      if task in s.tasks then s
      else if id !in s.requests then s.(tasks := s.tasks[task := Finished(Err(NotFound))])
      else
        var (request, suspended) := Admitted(s.requests[id], id, approver, ballot, now);
        s.(requests := s.requests[id := request], tasks := s.tasks[task := suspended])
    case PdpReplies(task, pdp, at, jti) =>
      if task in s.tasks && s.tasks[task].AwaitingPdp? && s.tasks[task].id in s.requests then
        Answered(s, task, pdp, at, jti)
      else s
    case SyncReturns(task, jti) =>
      if task in s.tasks && s.tasks[task].AwaitingSync? && s.tasks[task].id in s.requests then
        TallyVotes(s, task, jti)
      else s
    case PushReturns(task) =>
      if task in s.tasks && s.tasks[task].Announcing? && s.tasks[task].id in s.requests then
        var t := s.tasks[task];
        s.(tasks := s.tasks[task := Finished(Ok(StatusOf(s.requests[t.id]).(received := t.received)))])
      else s
    case Get(id, now) =>
      if id !in s.requests then s else s.(requests := s.requests[id := Read(s.requests[id], now)])
  }

  function RecordVote(s: System, task: TaskId, pdp: Pdp, at: real): System
    requires task in s.tasks && s.tasks[task].AwaitingPdp? && s.tasks[task].id in s.requests
  {
    var t := s.tasks[task];
    if !Passes(pdp) then s.(tasks := s.tasks[task := Finished(Err(Forbidden))])
    else
      var request := s.requests[t.id];
      var votes := request.approvals + [Vote(t.approver, t.ballot, at, pdp)];
      s.(requests := s.requests[t.id := request.(approvals := votes)],
         tasks := s.tasks[task := AwaitingSync(t.id, t.ballot)])
  }

  function TallyVotes(s: System, task: TaskId, jti: string): System
    requires task in s.tasks && s.tasks[task].AwaitingSync? && s.tasks[task].id in s.requests
  {
    var t := s.tasks[task];
    var request := s.requests[t.id];
    var outcome := Tally(request.approvals, request.required, t.ballot);
    if outcome == Open then s.(tasks := s.tasks[task := Finished(Ok(StatusOf(request)))])
    else
      System(s.requests[t.id := request.(state := Settle(request.state, outcome))],
             s.tasks[task := Announcing(t.id, ApproveCount(request.approvals))],
             s.announced + [Announcement(t.id, outcome, Ssf.Token(jti, ClaimsFor(request, outcome), []))])
  }

  /** Without a mirror to wait for, the vote is tallied as soon as it is recorded. */
  function Answered(s: System, task: TaskId, pdp: Pdp, at: real, jti: string): System
    requires task in s.tasks && s.tasks[task].AwaitingPdp? && s.tasks[task].id in s.requests
  {
    var recorded := RecordVote(s, task, pdp, at);
    if Passes(pdp) && !s.requests[s.tasks[task].id].mirrored then TallyVotes(recorded, task, jti) else recorded
  }

  const IDLE := System(map[], map[], [])

  function Run(steps: seq<Step>): System {
    if steps == [] then IDLE else Next(Run(steps[..|steps| - 1]), steps[|steps| - 1])
  }

  // ---------------------------------------------------------------------
  // What survives any interleaving
  // ---------------------------------------------------------------------

  ghost predicate Justified(request: Request) {
    && AllAuthorized(request.approvals)
    && (request.state == Approved ==> ApproveCount(request.approvals) >= request.required)
    && (request.state == Rejected ==> HasReject(request.approvals))
  }

  ghost predicate BallotRecorded(s: System, task: Task)
    requires task.AwaitingSync? && task.id in s.requests
  {
    task.ballot == Reject ==> HasReject(s.requests[task.id].approvals)
  }

  ghost predicate TaskSound(s: System, task: Task) {
    match task
    case AwaitingPdp(id, _, _) => id in s.requests
    case AwaitingSync(id, ballot) => id in s.requests && s.requests[id].mirrored && BallotRecorded(s, task)
    case Announcing(id, received) => id in s.requests && received <= ApproveCount(s.requests[id].approvals)
    case Finished(_) => true
  }

  ghost predicate AnnouncementSound(s: System, a: Announcement) {
    && a.id in s.requests && s.requests[a.id].state != Pending && TellsOf(a, s.requests[a.id])
    && (a.outcome == Granted ==> ApproveCount(s.requests[a.id].approvals) >= s.requests[a.id].required)
    && (a.outcome == Refused ==> HasReject(s.requests[a.id].approvals))
  }

  ghost predicate Sound(s: System) {
    && (forall id :: id in s.requests ==> Justified(s.requests[id]))
    && (forall t :: t in s.tasks ==> TaskSound(s, s.tasks[t]))
    && (forall i :: 0 <= i < |s.announced| ==> AnnouncementSound(s, s.announced[i]))
  }

  /** Votes are only ever added, a request never becomes pending again, announcements are never withdrawn. */
  ghost predicate Grows(before: Request, after: Request) {
    && before.approvals <= after.approvals
    && after == before.(approvals := after.approvals, state := after.state)
    && (after.state == Pending ==> before.state == Pending)
    && (before.state == Expired ==> after.state != Pending)
  }

  ghost predicate Evolves(before: System, after: System) {
    && before.announced <= after.announced
    && forall id :: id in before.requests ==> id in after.requests && Grows(before.requests[id], after.requests[id])
  }

  lemma {:induction false} MoreVotesKeepFacts(votes: seq<Vote>, more: seq<Vote>)
    requires votes <= more
    ensures ApproveCount(votes) <= ApproveCount(more)
    ensures HasReject(votes) ==> HasReject(more)
  {
    if |votes| == |more| {
      assert votes == more;
    } else {
      var shorter := more[..|more| - 1];
      MoreVotesKeepFacts(votes, shorter);
      assert more == shorter + [more[|more| - 1]];
      AppendVote(shorter, more[|more| - 1]);
    }
  }

  /** Tasks and announcements that were sound stay sound while requests grow. */
  lemma GrowthKeepsTaskSound(before: System, after: System, task: Task)
    requires Evolves(before, after) && TaskSound(before, task)
    ensures TaskSound(after, task)
  {
    if !task.Finished? {
      MoreVotesKeepFacts(before.requests[task.id].approvals, after.requests[task.id].approvals);
    }
  }

  lemma GrowthKeepsAnnouncementSound(before: System, after: System, a: Announcement)
    requires Evolves(before, after) && AnnouncementSound(before, a)
    ensures AnnouncementSound(after, a)
  {
    MoreVotesKeepFacts(before.requests[a.id].approvals, after.requests[a.id].approvals);
  }

  lemma EvolvesTransitive(a: System, b: System, c: System)
    requires Evolves(a, b) && Evolves(b, c)
    ensures Evolves(a, c)
  {
  }

  lemma RecordingEvolves(s: System, task: TaskId, pdp: Pdp, at: real)
    requires task in s.tasks && s.tasks[task].AwaitingPdp? && s.tasks[task].id in s.requests
    ensures Evolves(s, RecordVote(s, task, pdp, at))
  {
  }

  lemma TallyingEvolves(s: System, task: TaskId, jti: string)
    requires task in s.tasks && s.tasks[task].AwaitingSync? && s.tasks[task].id in s.requests
    ensures Evolves(s, TallyVotes(s, task, jti))
  {
  }

  lemma StepEvolves(s: System, step: Step)
    ensures Evolves(s, Next(s, step))
  {
    if Next(s, step) != s {
      match step {
        case PdpReplies(task, pdp, at, jti) =>
          RecordingEvolves(s, task, pdp, at);
          if Passes(pdp) {
            TallyingEvolves(RecordVote(s, task, pdp, at), task, jti);
            EvolvesTransitive(s, RecordVote(s, task, pdp, at), TallyVotes(RecordVote(s, task, pdp, at), task, jti));
          }
        case SyncReturns(task, jti) => TallyingEvolves(s, task, jti);
        case _ =>
      }
    }
  }

  lemma RecordingKeepsJustified(s: System, task: TaskId, pdp: Pdp, at: real, id: RequestId)
    requires task in s.tasks && s.tasks[task].AwaitingPdp? && s.tasks[task].id in s.requests
    requires id in s.requests && Justified(s.requests[id])
    ensures Justified(RecordVote(s, task, pdp, at).requests[id])
    ensures Passes(pdp) ==> BallotRecorded(RecordVote(s, task, pdp, at), RecordVote(s, task, pdp, at).tasks[task])
  {
    var t := s.tasks[task];
    AppendVote(s.requests[t.id].approvals, Vote(t.approver, t.ballot, at, pdp));
  }

  lemma TallyingKeepsJustified(s: System, task: TaskId, jti: string, id: RequestId)
    requires task in s.tasks && s.tasks[task].AwaitingSync? && s.tasks[task].id in s.requests
    requires BallotRecorded(s, s.tasks[task])
    requires id in s.requests && Justified(s.requests[id])
    ensures Justified(TallyVotes(s, task, jti).requests[id])
  {
  }

  lemma StepKeepsRequestsJustified(s: System, step: Step, id: RequestId)
    requires Sound(s) && id in Next(s, step).requests
    ensures Justified(Next(s, step).requests[id])
  {
    if Next(s, step) != s {
      match step {
        case PdpReplies(task, pdp, at, jti) =>
          RecordingKeepsJustified(s, task, pdp, at, id);
          if Passes(pdp) {
            TallyingKeepsJustified(RecordVote(s, task, pdp, at), task, jti, id);
          }
        case SyncReturns(task, jti) =>
          assert TaskSound(s, s.tasks[task]);
          TallyingKeepsJustified(s, task, jti, id);
        case _ =>
      }
    }
  }

  lemma MovedTaskIsSound(s: System, step: Step, t: TaskId)
    requires t in s.tasks ==> TaskSound(s, s.tasks[t])
    requires t in Next(s, step).tasks && (t in s.tasks ==> Next(s, step).tasks[t] != s.tasks[t])
    ensures TaskSound(Next(s, step), Next(s, step).tasks[t])
  {
    if step.PdpReplies? {
      var task := s.tasks[t];
      assert t == step.task;
      AppendVote(s.requests[task.id].approvals, Vote(task.approver, task.ballot, step.at, step.pdp));
    }
  }

  lemma StepKeepsTasksSound(s: System, step: Step, t: TaskId)
    requires Sound(s) && t in Next(s, step).tasks
    ensures TaskSound(Next(s, step), Next(s, step).tasks[t])
  {
    var after := Next(s, step);
    StepEvolves(s, step);
    if t in s.tasks && after.tasks[t] == s.tasks[t] {
      GrowthKeepsTaskSound(s, after, s.tasks[t]);
    } else {
      MovedTaskIsSound(s, step, t);
    }
  }

  lemma TallyAnnouncesSoundly(s: System, task: TaskId, jti: string)
    requires task in s.tasks && s.tasks[task].AwaitingSync? && s.tasks[task].id in s.requests
    requires BallotRecorded(s, s.tasks[task])
    ensures var after := TallyVotes(s, task, jti);
            || after.announced == s.announced
            || (|after.announced| == |s.announced| + 1 && AnnouncementSound(after, after.announced[|s.announced|]))
  {
  }

  lemma StepAnnouncesSoundly(s: System, step: Step)
    requires Sound(s)
    ensures var after := Next(s, step);
            || after.announced == s.announced
            || (|after.announced| == |s.announced| + 1 && AnnouncementSound(after, after.announced[|s.announced|]))
  {
    if Next(s, step) != s {
      match step {
        case PdpReplies(task, pdp, at, jti) =>
          if Passes(pdp) {
            RecordingKeepsJustified(s, task, pdp, at, s.tasks[task].id);
            TallyAnnouncesSoundly(RecordVote(s, task, pdp, at), task, jti);
          }
        case SyncReturns(task, jti) =>
          assert TaskSound(s, s.tasks[task]);
          TallyAnnouncesSoundly(s, task, jti);
        case _ =>
      }
    }
  }

  lemma StepKeepsAnnouncementsSound(s: System, step: Step)
    requires Sound(s)
    ensures var after := Next(s, step);
            forall i :: 0 <= i < |after.announced| ==> AnnouncementSound(after, after.announced[i])
  {
    var after := Next(s, step);
    StepEvolves(s, step);
    StepAnnouncesSoundly(s, step);
    forall i | 0 <= i < |after.announced| ensures AnnouncementSound(after, after.announced[i]) {
      if i < |s.announced| {
        assert after.announced[i] == s.announced[i];
        GrowthKeepsAnnouncementSound(s, after, s.announced[i]);
      }
    }
  }

  lemma StepKeepsSound(s: System, step: Step)
    requires Sound(s)
    ensures Sound(Next(s, step))
  {
    forall id | id in Next(s, step).requests ensures Justified(Next(s, step).requests[id]) {
      StepKeepsRequestsJustified(s, step, id);
    }
    forall t | t in Next(s, step).tasks ensures TaskSound(Next(s, step), Next(s, step).tasks[t]) {
      StepKeepsTasksSound(s, step, t);
    }
    StepKeepsAnnouncementsSound(s, step);
  }

  /**
   However submissions and reads interleave: every recorded vote passed its authorization test,
   an approved request has its quorum, a rejected one has a reject vote, and so has every announcement.
   */
  lemma {:induction false} EveryRunIsSound(steps: seq<Step>)
    ensures Sound(Run(steps))
  {
    if steps == [] {
    } else {
      EveryRunIsSound(steps[..|steps| - 1]);
      StepKeepsSound(Run(steps[..|steps| - 1]), steps[|steps| - 1]);
    }
  }

  /** Between any two moments of a run votes only accumulate and no request returns to pending. */
  lemma {:induction false} RunsEvolve(steps: seq<Step>, more: seq<Step>)
    ensures Evolves(Run(steps), Run(steps + more))
  {
    if more == [] {
      assert steps + more == steps;
    } else {
      var all := steps + more;
      var middle := steps + more[..|more| - 1];
      assert all[..|all| - 1] == middle;
      RunsEvolve(steps, more[..|more| - 1]);
      StepEvolves(Run(middle), all[|all| - 1]);
      EvolvesTransitive(Run(steps), Run(middle), Run(all));
    }
  }

  // ---------------------------------------------------------------------
  // Continuations
  // ---------------------------------------------------------------------

  /** The submission is still deciding whether and how its vote counts. */
  predicate InFlight(task: Task, id: RequestId) {
    (task.AwaitingPdp? || task.AwaitingSync?) && task.id == id
  }

  ghost predicate Busy(s: System, id: RequestId) {
    exists t :: t in s.tasks && InFlight(s.tasks[t], id)
  }

  /** One task moved: the others are where they were. */
  ghost predicate OnlyTaskMoved(s: System, after: System, task: TaskId) {
    forall t :: t != task ==> ((t in s.tasks <==> t in after.tasks) && (t in s.tasks ==> s.tasks[t] == after.tasks[t]))
  }

  lemma RunAppend(steps: seq<Step>, step: Step)
    ensures Run(steps + [step]) == Next(Run(steps), step)
  {
    assert (steps + [step])[..|steps|] == steps;
  }

  function After(s: System, more: seq<Step>): System
    decreases |more|
  {
    if more == [] then s else After(Next(s, more[0]), more[1..])
  }

  lemma AfterOne(s: System, step: Step)
    ensures After(s, [step]) == Next(s, step)
  {
    assert [step][1..] == [];
  }

  lemma AfterFirst(s: System, step: Step, more: seq<Step>)
    ensures After(s, [step] + more) == After(Next(s, step), more)
  {
    assert ([step] + more)[1..] == more;
  }

  lemma {:induction false} RunThenAfter(steps: seq<Step>, more: seq<Step>)
    ensures Run(steps + more) == After(Run(steps), more)
    decreases |more|
  {
    if more == [] {
      assert steps + more == steps;
    } else {
      var longer := steps + [more[0]];
      assert longer[..|steps|] == steps;
      assert steps + more == longer + more[1..];
      RunThenAfter(longer, more[1..]);
    }
  }

  const YES := Pdp(true, false)

  /** A reply that lets the vote through records it, and moves nothing but its own task and request. */
  lemma Recorded(s: System, task: TaskId, at: real, jti: string)
    requires task in s.tasks && s.tasks[task].AwaitingPdp? && s.tasks[task].id in s.requests
    ensures var t, after := s.tasks[task], Next(s, PdpReplies(task, YES, at, jti));
            var request := s.requests[t.id];
            && t.id in after.requests && OnlyTaskMoved(s, after, task)
            && after.requests == s.requests[t.id := after.requests[t.id]]
            && after.requests[t.id]
               == request.(approvals := request.approvals + [Vote(t.approver, t.ballot, at, YES)],
                           state := after.requests[t.id].state)
  {
  }

  // ---------------------------------------------------------------------
  // What distinct approvers need
  // ---------------------------------------------------------------------

  /** The task has passed the duplicate test for this approver and has not recorded the vote yet. */
  predicate Asking(task: Task, id: RequestId, approver: string) {
    task.AwaitingPdp? && task.id == id && task.approver == approver
  }

  ghost predicate SomeoneAsking(s: System, id: RequestId, approver: string) {
    exists t :: t in s.tasks && Asking(s.tasks[t], id, approver)
  }

  /** The submission passes the checks made before the decision point is asked. */
  predicate StartsAsking(s: System, step: Step, id: RequestId) {
    && step.Begin? && step.id == id && step.task !in s.tasks && id in s.requests
    && Admitted(s.requests[id], id, step.approver, step.ballot, step.now).1.AwaitingPdp?
  }

  /** No submission to `id` gets past its checks while the decision point is asked about one of the same approver. */
  ghost predicate OneAtATime(steps: seq<Step>, id: RequestId) {
    forall i :: 0 <= i < |steps| && StartsAsking(Run(steps[..i]), steps[i], id)
                ==> !SomeoneAsking(Run(steps[..i]), id, steps[i].approver)
  }

  /** A continuation in which no further submission to `id` gets past its checks. */
  predicate NoneJoins(s: System, more: seq<Step>, id: RequestId)
    decreases |more|
  {
    more == [] || (!StartsAsking(s, more[0], id) && NoneJoins(Next(s, more[0]), more[1..], id))
  }

  lemma NoneJoinsOne(s: System, step: Step, id: RequestId)
    requires !step.Begin?
    ensures NoneJoins(s, [step], id)
  {
    assert [step][1..] == [];
  }

  lemma NoneJoinsFirst(s: System, step: Step, more: seq<Step>, id: RequestId)
    requires !StartsAsking(s, step, id) && NoneJoins(Next(s, step), more, id)
    ensures NoneJoins(s, [step] + more, id)
  {
    assert ([step] + more)[1..] == more;
  }

  ghost predicate DistinctAt(s: System, id: RequestId) {
    id in s.requests ==> DistinctApprovers(s.requests[id].approvals)
  }

  /** Whatever becomes of the submissions under way, no approver is counted twice. */
  ghost predicate StaysDistinct(s: System, id: RequestId) {
    forall more :: NoneJoins(s, more, id) ==> DistinctAt(After(s, more), id)
  }

  ghost predicate VotersApart(s: System, id: RequestId) {
    && DistinctAt(s, id)
    && (forall t :: t in s.tasks && s.tasks[t].AwaitingPdp? && s.tasks[t].id == id ==>
          id in s.requests && !HasVoted(s.requests[id].approvals, s.tasks[t].approver))
    && (forall t, u :: t in s.tasks && u in s.tasks && t != u && s.tasks[t].AwaitingPdp? && s.tasks[t].id == id ==>
          !Asking(s.tasks[u], id, s.tasks[t].approver))
  }

  lemma RecordingKeepsVotersApart(s: System, task: TaskId, pdp: Pdp, at: real, id: RequestId)
    requires VotersApart(s, id) && task in s.tasks && s.tasks[task].AwaitingPdp? && s.tasks[task].id in s.requests
    ensures VotersApart(RecordVote(s, task, pdp, at), id)
  {
    var after := RecordVote(s, task, pdp, at);
    if s.tasks[task].id == id && Passes(pdp) {
      var votes, longer := s.requests[id].approvals, after.requests[id].approvals;
      assert forall i :: 0 <= i < |votes| ==> longer[i] == votes[i];
      forall t | t in after.tasks && after.tasks[t].AwaitingPdp? && after.tasks[t].id == id
        ensures !HasVoted(longer, after.tasks[t].approver)
      {
        assert t in s.tasks && t != task && s.tasks[t] == after.tasks[t];
        assert !Asking(s.tasks[t], id, s.tasks[task].approver);
      }
    }
  }

  lemma TallyingKeepsVotersApart(s: System, task: TaskId, jti: string, id: RequestId)
    requires VotersApart(s, id) && task in s.tasks && s.tasks[task].AwaitingSync? && s.tasks[task].id in s.requests
    ensures VotersApart(TallyVotes(s, task, jti), id)
  {
    var after := TallyVotes(s, task, jti);
    assert forall t :: t in after.tasks && after.tasks[t].AwaitingPdp? ==>
      t in s.tasks && s.tasks[t] == after.tasks[t];
  }

  lemma BeginKeepsVotersApart(s: System, step: Step, id: RequestId)
    requires VotersApart(s, id) && step.Begin? && step.task !in s.tasks
    requires StartsAsking(s, step, id) ==> !SomeoneAsking(s, id, step.approver)
    ensures VotersApart(Next(s, step), id)
  {
    var after := Next(s, step);
    if StartsAsking(s, step, id) {
      assert after.requests == s.requests[id := s.requests[id]];
      forall t | t in s.tasks ensures !Asking(s.tasks[t], id, step.approver) && after.tasks[t] == s.tasks[t] {
      }
    } else {
      assert !(after.tasks[step.task].AwaitingPdp? && after.tasks[step.task].id == id);
      assert DistinctAt(after, id);
    }
  }

  lemma StepKeepsVotersApart(s: System, step: Step, id: RequestId)
    requires VotersApart(s, id)
    requires StartsAsking(s, step, id) ==> !SomeoneAsking(s, id, step.approver)
    ensures VotersApart(Next(s, step), id)
  {
    var after := Next(s, step);
    if after != s {
      if step.PdpReplies? {
        RecordingKeepsVotersApart(s, step.task, step.pdp, step.at, id);
        if Passes(step.pdp) {
          TallyingKeepsVotersApart(RecordVote(s, step.task, step.pdp, step.at), step.task, step.jti, id);
        }
      } else if step.SyncReturns? {
        TallyingKeepsVotersApart(s, step.task, step.jti, id);
      } else if step.Begin? {
        BeginKeepsVotersApart(s, step, id);
      } else {
        assert forall t :: t in after.tasks && after.tasks[t].AwaitingPdp? ==>
          t in s.tasks && s.tasks[t] == after.tasks[t];
      }
    }
  }

  lemma {:induction false} ApartStaysDistinct(s: System, more: seq<Step>, id: RequestId)
    requires VotersApart(s, id) && NoneJoins(s, more, id)
    ensures DistinctAt(After(s, more), id)
    decreases |more|
  {
    if more == [] {
    } else {
      StepKeepsVotersApart(s, more[0], id);
      ApartStaysDistinct(Next(s, more[0]), more[1..], id);
    }
  }

  lemma VotedTwice(votes: seq<Vote>, longer: seq<Vote>)
    requires |longer| == |votes| + 1 && longer[..|votes|] == votes && HasVoted(votes, longer[|votes|].approver)
    ensures !DistinctApprovers(longer)
  {
    var i :| 0 <= i < |votes| && votes[i].approver == longer[|votes|].approver;
    assert longer[i] == votes[i];
  }

  lemma NotDistinctNext(s: System, step: Step, id: RequestId)
    requires !StartsAsking(s, step, id) && !StaysDistinct(Next(s, step), id)
    ensures !StaysDistinct(s, id)
  {
    var more :| NoneJoins(Next(s, step), more, id) && !DistinctAt(After(Next(s, step), more), id);
    AfterFirst(s, step, more);
    NoneJoinsFirst(s, step, more, id);
    assert !DistinctAt(After(s, [step] + more), id);
  }

  /** An approver who has voted and is answered now is counted twice. */
  lemma VoterCountsTwice(s: System, t: TaskId, id: RequestId)
    requires id in s.requests && t in s.tasks && s.tasks[t].AwaitingPdp? && s.tasks[t].id == id
    requires HasVoted(s.requests[id].approvals, s.tasks[t].approver)
    ensures !StaysDistinct(s, id)
  {
    var step := PdpReplies(t, YES, 0.0, "");
    Recorded(s, t, 0.0, "");
    VotedTwice(s.requests[id].approvals, Next(s, step).requests[id].approvals);
    AfterOne(s, step);
    NoneJoinsOne(s, step, id);
    assert !DistinctAt(After(s, [step]), id);
  }

  /** And so is one whom another submission asks about. */
  lemma RepliesCountTwice(s: System, t: TaskId, u: TaskId, id: RequestId)
    requires id in s.requests && t in s.tasks && s.tasks[t].AwaitingPdp? && s.tasks[t].id == id
    requires || HasVoted(s.requests[id].approvals, s.tasks[t].approver)
             || (t != u && u in s.tasks && Asking(s.tasks[u], id, s.tasks[t].approver))
    ensures !StaysDistinct(s, id)
  {
    if HasVoted(s.requests[id].approvals, s.tasks[t].approver) {
      VoterCountsTwice(s, t, id);
    } else {
      var votes, step := s.requests[id].approvals, PdpReplies(t, YES, 0.0, "");
      Recorded(s, t, 0.0, "");
      assert Next(s, step).requests[id].approvals[|votes|].approver == s.tasks[t].approver;
      VoterCountsTwice(Next(s, step), u, id);
      NotDistinctNext(s, step, id);
    }
  }

  /** A request and its submissions under way are safe from double counting exactly when they are apart. */
  lemma StaysDistinctExactly(s: System, id: RequestId)
    requires Sound(s)
    ensures StaysDistinct(s, id) <==> VotersApart(s, id)
  {
    if VotersApart(s, id) {
      forall more | NoneJoins(s, more, id) ensures DistinctAt(After(s, more), id) {
        ApartStaysDistinct(s, more, id);
      }
    } else if StaysDistinct(s, id) {
      assert NoneJoins(s, [], id) && After(s, []) == s;
      forall t | t in s.tasks && s.tasks[t].AwaitingPdp? && s.tasks[t].id == id
        ensures id in s.requests && !HasVoted(s.requests[id].approvals, s.tasks[t].approver)
        ensures forall u :: u in s.tasks && t != u ==> !Asking(s.tasks[u], id, s.tasks[t].approver)
      {
        assert TaskSound(s, s.tasks[t]);
        forall u | u in s.tasks && t != u ensures !Asking(s.tasks[u], id, s.tasks[t].approver) {
          if Asking(s.tasks[u], id, s.tasks[t].approver) {
            RepliesCountTwice(s, t, u, id);
          }
        }
        if HasVoted(s.requests[id].approvals, s.tasks[t].approver) {
          RepliesCountTwice(s, t, t, id);
        }
      }
    }
  }

  lemma OneAtATimePrefix(steps: seq<Step>, id: RequestId, k: nat)
    requires OneAtATime(steps, id) && k <= |steps|
    ensures OneAtATime(steps[..k], id)
  {
    forall i | 0 <= i < k && StartsAsking(Run(steps[..k][..i]), steps[..k][i], id)
      ensures !SomeoneAsking(Run(steps[..k][..i]), id, steps[..k][i].approver)
    {
      assert steps[..k][..i] == steps[..i];
    }
  }

  lemma {:induction false} OneAtATimeKeepsApart(steps: seq<Step>, id: RequestId)
    requires OneAtATime(steps, id)
    ensures VotersApart(Run(steps), id)
  {
    if steps == [] {
    } else {
      var n := |steps| - 1;
      OneAtATimePrefix(steps, id, n);
      OneAtATimeKeepsApart(steps[..n], id);
      StepKeepsVotersApart(Run(steps[..n]), steps[n], id);
    }
  }

  lemma TwinsAreNotApart(s: System, step: Step, id: RequestId)
    requires StartsAsking(s, step, id) && SomeoneAsking(s, id, step.approver)
    ensures !VotersApart(Next(s, step), id)
  {
    var t :| t in s.tasks && Asking(s.tasks[t], id, step.approver);
    var after := Next(s, step);
    assert after.tasks[t] == s.tasks[t] && Asking(after.tasks[step.task], id, step.approver);
  }

  lemma SecondAskingIsUnsafe(steps: seq<Step>, id: RequestId, i: nat)
    requires i < |steps| && StartsAsking(Run(steps[..i]), steps[i], id)
    requires SomeoneAsking(Run(steps[..i]), id, steps[i].approver)
    ensures !StaysDistinct(Run(steps[..i + 1]), id)
  {
    assert steps[..i + 1][..i] == steps[..i];
    TwinsAreNotApart(Run(steps[..i]), steps[i], id);
    EveryRunIsSound(steps[..i + 1]);
    StaysDistinctExactly(Run(steps[..i + 1]), id);
  }

  /**
   At no moment of a run can the submissions under way lead to an approver counted twice, if and only if
   each approver had at most one submission with the decision point at any time.
   */
  lemma OneAtATimeExactly(steps: seq<Step>, id: RequestId)
    ensures OneAtATime(steps, id) <==> forall k :: 0 <= k <= |steps| ==> StaysDistinct(Run(steps[..k]), id)
  {
    if OneAtATime(steps, id) {
      forall k | 0 <= k <= |steps| ensures StaysDistinct(Run(steps[..k]), id) {
        OneAtATimePrefix(steps, id, k);
        OneAtATimeKeepsApart(steps[..k], id);
        EveryRunIsSound(steps[..k]);
        StaysDistinctExactly(Run(steps[..k]), id);
      }
    } else {
      var i :| 0 <= i < |steps| && StartsAsking(Run(steps[..i]), steps[i], id)
               && SomeoneAsking(Run(steps[..i]), id, steps[i].approver);
      SecondAskingIsUnsafe(steps, id, i);
    }
  }

  // ---------------------------------------------------------------------
  // How often a request can still be announced
  // ---------------------------------------------------------------------

  function UnderWay(s: System, id: RequestId): set<TaskId> {
    set t | t in s.tasks && InFlight(s.tasks[t], id)
  }

  function RejectsUnderWay(s: System, id: RequestId): set<TaskId> {
    set t | t in s.tasks && InFlight(s.tasks[t], id) && s.tasks[t].ballot == Reject
  }

  function Asked(s: System, id: RequestId): set<TaskId> {
    set t | t in s.tasks && s.tasks[t].AwaitingPdp? && s.tasks[t].id == id
  }

  function ApprovalsAsked(s: System, id: RequestId): set<TaskId> {
    set t | t in s.tasks && s.tasks[t].AwaitingPdp? && s.tasks[t].id == id && s.tasks[t].ballot == Approve
  }

  /** The approvals recorded and under way make up the threshold. */
  predicate InReach(s: System, id: RequestId)
    requires id in s.requests
  {
    ApproveCount(s.requests[id].approvals) + |ApprovalsAsked(s, id)| >= s.requests[id].required
  }

  /** Only mirrored votes are recorded without being tallied at once. */
  ghost predicate Parked(s: System, id: RequestId)
    requires id in s.requests
  {
    forall t :: t in s.tasks && s.tasks[t].AwaitingSync? && s.tasks[t].id == id ==> s.requests[id].mirrored
  }

  lemma {:induction false} SubsetSize<T>(a: set<T>, b: set<T>)
    requires a <= b
    ensures |a| <= |b|
  {
    if a == {} {
    } else {
      var x :| x in a;
      SubsetSize(a - {x}, b - {x});
    }
  }

  /**
   By the numbers, for a request without a mirror, whose votes are tallied one by one as they are recorded:
   with the threshold in reach all submissions asked about can announce an outcome except for the
   approvals that merely bring the count to one below the threshold; out of reach, the rejects can.
   */
  function AtOnce(missing: int, approvals: nat, asked: nat, rejects: nat): nat
    requires approvals <= asked
  {
    if approvals < missing then rejects else asked - Max(0, missing - 1)
  }

  /**
   How many submissions under way can announce an outcome. A mirror to wait for lets all votes be recorded
   before the first of them is tallied, and then each can if the threshold is in reach.
   */
  function Capacity(s: System, id: RequestId): nat
    requires id in s.requests
  {
    var request := s.requests[id];
    if request.mirrored then
      if InReach(s, id) then |UnderWay(s, id)| else |RejectsUnderWay(s, id)|
    else
      SubsetSize(ApprovalsAsked(s, id), Asked(s, id));
      AtOnce(request.required - ApproveCount(request.approvals),
             |ApprovalsAsked(s, id)|, |Asked(s, id)|, |RejectsUnderWay(s, id)|)
  }

  function Announcements(s: System, id: RequestId): nat {
    |AnnouncedFor(s.announced, id)|
  }

  lemma AnnouncedNext(announced: seq<Announcement>, a: Announcement, id: RequestId)
    ensures AnnouncedFor(announced + [a], id) == AnnouncedFor(announced, id) + if a.id == id then [a] else []
  {
    assert (announced + [a])[..|announced|] == announced;
  }

  lemma Landed(s: System, after: System, task: TaskId, id: RequestId)
    requires OnlyTaskMoved(s, after, task) && task in after.tasks && !InFlight(after.tasks[task], id)
    ensures UnderWay(after, id) == UnderWay(s, id) - {task}
    ensures RejectsUnderWay(after, id) == RejectsUnderWay(s, id) - {task}
    ensures Asked(after, id) == Asked(s, id) - {task}
    ensures ApprovalsAsked(after, id) == ApprovalsAsked(s, id) - {task}
  {
  }

  lemma BusyMeansUnderWay(s: System, id: RequestId)
    ensures Busy(s, id) <==> UnderWay(s, id) != {}
  {
    if Busy(s, id) {
      var t :| t in s.tasks && InFlight(s.tasks[t], id);
      assert t in UnderWay(s, id);
    }
  }

  lemma RejectsAndApprovals(s: System, id: RequestId)
    requires id in s.requests && Parked(s, id)
    ensures |RejectsUnderWay(s, id)| <= |UnderWay(s, id)|
    ensures !s.requests[id].mirrored ==>
              && UnderWay(s, id) == Asked(s, id)
              && |RejectsUnderWay(s, id)| + |ApprovalsAsked(s, id)| <= |Asked(s, id)|
  {
    SubsetSize(RejectsUnderWay(s, id), UnderWay(s, id));
    if !s.requests[id].mirrored {
      assert UnderWay(s, id) == Asked(s, id);
      SubsetSize(RejectsUnderWay(s, id) + ApprovalsAsked(s, id), Asked(s, id));
      assert RejectsUnderWay(s, id) !! ApprovalsAsked(s, id);
    }
  }

  /** A submission that ends without announcing anything takes no more than its own share with it. */
  lemma LandingLowersCapacity(s: System, after: System, task: TaskId, id: RequestId)
    requires id in s.requests && id in after.requests && Parked(s, id)
    requires OnlyTaskMoved(s, after, task) && task in after.tasks && !InFlight(after.tasks[task], id)
    requires after.requests[id] == s.requests[id].(state := after.requests[id].state)
    ensures Capacity(after, id) <= Capacity(s, id)
  {
    Landed(s, after, task, id);
    RejectsAndApprovals(s, id);
    assert task in ApprovalsAsked(s, id) ==> task in Asked(s, id) && task !in RejectsUnderWay(s, id);
    assert task in Asked(s, id) ==> task in UnderWay(s, id);
  }

  lemma Suspended(s: System, after: System, task: TaskId, id: RequestId)
    requires OnlyTaskMoved(s, after, task) && task in s.tasks && s.tasks[task].AwaitingPdp? && s.tasks[task].id == id
    requires task in after.tasks && after.tasks[task] == AwaitingSync(id, s.tasks[task].ballot)
    ensures UnderWay(after, id) == UnderWay(s, id)
    ensures RejectsUnderWay(after, id) == RejectsUnderWay(s, id)
    ensures Asked(after, id) == Asked(s, id) - {task}
    ensures ApprovalsAsked(after, id) == ApprovalsAsked(s, id) - {task}
  {
  }

  /** A vote that is recorded moves from the approvals under way to those recorded. */
  lemma RecordingKeepsCapacity(s: System, task: TaskId, pdp: Pdp, at: real, id: RequestId)
    requires id in s.requests && task in s.tasks && s.tasks[task].AwaitingPdp? && s.tasks[task].id == id && Passes(pdp)
    requires s.requests[id].mirrored
    ensures var after := RecordVote(s, task, pdp, at);
            && UnderWay(after, id) == UnderWay(s, id) && RejectsUnderWay(after, id) == RejectsUnderWay(s, id)
            && Asked(after, id) == Asked(s, id) - {task}
            && (InReach(after, id) <==> InReach(s, id))
            && Capacity(after, id) == Capacity(s, id)
  {
    var t := s.tasks[task];
    AppendVote(s.requests[id].approvals, Vote(t.approver, t.ballot, at, pdp));
    Suspended(s, RecordVote(s, task, pdp, at), task, id);
    assert task in ApprovalsAsked(s, id) <==> t.ballot == Approve;
  }

  /** Its own share is what a tally may announce. */
  lemma TallyingTakesOneOff(s: System, task: TaskId, jti: string, id: RequestId)
    requires id in s.requests && task in s.tasks && s.tasks[task].AwaitingSync? && s.tasks[task].id == id
    ensures var after := TallyVotes(s, task, jti);
            && |UnderWay(after, id)| == |UnderWay(s, id)| - 1 && Asked(after, id) == Asked(s, id)
            && |RejectsUnderWay(after, id)|
               == |RejectsUnderWay(s, id)| - (if s.tasks[task].ballot == Reject then 1 else 0)
            && (InReach(after, id) <==> InReach(s, id))
  {
    Landed(s, TallyVotes(s, task, jti), task, id);
    assert task in UnderWay(s, id) && task !in ApprovalsAsked(s, id) && task !in Asked(s, id);
    assert task in RejectsUnderWay(s, id) <==> s.tasks[task].ballot == Reject;
  }

  predicate Announces(s: System, task: TaskId)
    requires task in s.tasks && s.tasks[task].AwaitingSync? && s.tasks[task].id in s.requests
  {
    var request := s.requests[s.tasks[task].id];
    s.tasks[task].ballot == Reject || ApproveCount(request.approvals) >= request.required
  }

  lemma TallyAnnounces(s: System, task: TaskId, jti: string, id: RequestId)
    requires task in s.tasks && s.tasks[task].AwaitingSync? && s.tasks[task].id in s.requests
    ensures Announcements(TallyVotes(s, task, jti), id)
            == Announcements(s, id) + if Announces(s, task) && s.tasks[task].id == id then 1 else 0
  {
    var t, request := s.tasks[task], s.requests[s.tasks[task].id];
    var outcome := Tally(request.approvals, request.required, t.ballot);
    AnnouncedNext(s.announced, Announcement(t.id, outcome, Ssf.Token(jti, ClaimsFor(request, outcome), [])), id);
  }

  lemma TallyingUsesCapacity(s: System, task: TaskId, jti: string, id: RequestId)
    requires id in s.requests && task in s.tasks && s.tasks[task].AwaitingSync? && s.tasks[task].id == id
    requires s.requests[id].mirrored
    ensures var after := TallyVotes(s, task, jti);
            && Announcements(after, id) + Capacity(after, id) <= Announcements(s, id) + Capacity(s, id)
            && ((Announces(s, task) <==> InReach(s, id) || s.tasks[task].ballot == Reject) ==>
                  Announcements(after, id) + Capacity(after, id) == Announcements(s, id) + Capacity(s, id))
  {
    TallyAnnounces(s, task, jti, id);
    TallyingTakesOneOff(s, task, jti, id);
  }

  lemma TallyLands(s: System, task: TaskId, jti: string)
    requires task in s.tasks && s.tasks[task].AwaitingSync? && s.tasks[task].id in s.requests
    ensures var t, after := s.tasks[task], TallyVotes(s, task, jti);
            && after.requests.Keys == s.requests.Keys
            && after.requests[t.id] == s.requests[t.id].(state := after.requests[t.id].state)
            && task in after.tasks && (after.tasks[task].Announcing? || after.tasks[task].Finished?)
            && OnlyTaskMoved(s, after, task)
  {
  }

  /** What an answered submission leaves behind where there is no mirror. */
  lemma AnsweredAtOnce(s: System, task: TaskId, pdp: Pdp, at: real, jti: string, id: RequestId)
    requires id in s.requests && task in s.tasks && s.tasks[task].AwaitingPdp? && s.tasks[task].id == id && Passes(pdp)
    requires !s.requests[id].mirrored
    ensures var t, after := s.tasks[task], Answered(s, task, pdp, at, jti);
            var count := ApproveCount(s.requests[id].approvals) + (if t.ballot == Approve then 1 else 0);
            && id in after.requests && task in after.tasks && OnlyTaskMoved(s, after, task)
            && !InFlight(after.tasks[task], id)
            && after.requests[id] == s.requests[id].(approvals := after.requests[id].approvals,
                                                     state := after.requests[id].state)
            && ApproveCount(after.requests[id].approvals) == count
            && Announcements(after, id)
               == Announcements(s, id) + (if t.ballot == Reject || count >= s.requests[id].required then 1 else 0)
  {
    var recorded := RecordVote(s, task, pdp, at);
    AppendVote(s.requests[id].approvals, Vote(s.tasks[task].approver, s.tasks[task].ballot, at, pdp));
    TallyAnnounces(recorded, task, jti, id);
    TallyLands(recorded, task, jti);
    assert Answered(s, task, pdp, at, jti) == TallyVotes(recorded, task, jti);
  }

  lemma AnsweredSizes(s: System, after: System, task: TaskId, id: RequestId)
    requires task in s.tasks && s.tasks[task].AwaitingPdp? && s.tasks[task].id == id
    requires OnlyTaskMoved(s, after, task) && task in after.tasks && !InFlight(after.tasks[task], id)
    ensures Asked(after, id) == Asked(s, id) - {task} && |Asked(after, id)| == |Asked(s, id)| - 1
    ensures UnderWay(after, id) == UnderWay(s, id) - {task} && |UnderWay(after, id)| == |UnderWay(s, id)| - 1
    ensures |ApprovalsAsked(after, id)|
            == |ApprovalsAsked(s, id)| - (if s.tasks[task].ballot == Approve then 1 else 0)
    ensures |RejectsUnderWay(after, id)|
            == |RejectsUnderWay(s, id)| - (if s.tasks[task].ballot == Reject then 1 else 0)
  {
    Landed(s, after, task, id);
    assert task in Asked(s, id) && task in UnderWay(s, id);
    assert task in ApprovalsAsked(s, id) <==> s.tasks[task].ballot == Approve;
    assert task in RejectsUnderWay(s, id) <==> s.tasks[task].ballot == Reject;
  }

  lemma OneLessAtOnce(missing: int, approvals: nat, asked: nat, rejects: nat, ballot: Ballot)
    requires approvals <= asked && asked > 0 && (ballot == Approve || approvals < asked)
    requires (ballot == Approve ==> approvals > 0) && (ballot == Reject ==> rejects > 0)
    ensures var approve, reject := if ballot == Approve then 1 else 0, if ballot == Reject then 1 else 0;
            var announced := if ballot == Reject || missing - approve <= 0 then 1 else 0;
            var after := AtOnce(missing - approve, approvals - approve, asked - 1, rejects - reject);
            && announced + after <= AtOnce(missing, approvals, asked, rejects)
            && (!ballot.Other? || missing <= 0 ==> announced + after == AtOnce(missing, approvals, asked, rejects))
  {
  }

  /** It announces on its own account, unless it is an approval that only brings the threshold closer. */
  lemma LandingAtOnce(s: System, after: System, task: TaskId, id: RequestId)
    requires id in s.requests && task in s.tasks && s.tasks[task].AwaitingPdp? && s.tasks[task].id == id
    requires id in after.requests && !s.requests[id].mirrored && !after.requests[id].mirrored
    requires OnlyTaskMoved(s, after, task) && task in after.tasks && !InFlight(after.tasks[task], id)
    requires after.requests[id].required == s.requests[id].required
    requires var ballot := s.tasks[task].ballot;
             var count := ApproveCount(s.requests[id].approvals) + (if ballot == Approve then 1 else 0);
             && ApproveCount(after.requests[id].approvals) == count
             && Announcements(after, id)
                == Announcements(s, id) + (if ballot == Reject || count >= s.requests[id].required then 1 else 0)
    ensures var ballot, request := s.tasks[task].ballot, s.requests[id];
            && Announcements(after, id) + Capacity(after, id) <= Announcements(s, id) + Capacity(s, id)
            && (!ballot.Other? || ApproveCount(request.approvals) >= request.required ==>
                  Announcements(after, id) + Capacity(after, id) == Announcements(s, id) + Capacity(s, id))
  {
    var request := s.requests[id];
    AnsweredSizes(s, after, task, id);
    SubsetSize(ApprovalsAsked(s, id), Asked(s, id));
    SubsetSize(ApprovalsAsked(after, id), Asked(after, id));
    OneLessAtOnce(request.required - ApproveCount(request.approvals), |ApprovalsAsked(s, id)|, |Asked(s, id)|,
                  |RejectsUnderWay(s, id)|, s.tasks[task].ballot);
  }

  lemma AnsweringUsesCapacity(s: System, task: TaskId, pdp: Pdp, at: real, jti: string, id: RequestId)
    requires id in s.requests && task in s.tasks && s.tasks[task].AwaitingPdp? && s.tasks[task].id == id && Passes(pdp)
    requires !s.requests[id].mirrored
    ensures var after, request := Answered(s, task, pdp, at, jti), s.requests[id];
            && id in after.requests && Asked(after, id) == Asked(s, id) - {task}
            && UnderWay(after, id) == UnderWay(s, id) - {task}
            && Announcements(after, id) + Capacity(after, id) <= Announcements(s, id) + Capacity(s, id)
            && (!s.tasks[task].ballot.Other? || ApproveCount(request.approvals) >= request.required ==>
                  Announcements(after, id) + Capacity(after, id) == Announcements(s, id) + Capacity(s, id))
  {
    AnsweredAtOnce(s, task, pdp, at, jti, id);
    Landed(s, Answered(s, task, pdp, at, jti), task, id);
    LandingAtOnce(s, Answered(s, task, pdp, at, jti), task, id);
  }

  lemma TallyElsewhere(s: System, task: TaskId, jti: string, id: RequestId)
    requires task in s.tasks && s.tasks[task].AwaitingSync? && s.tasks[task].id in s.requests && s.tasks[task].id != id
    ensures AnnouncedFor(TallyVotes(s, task, jti).announced, id) == AnnouncedFor(s.announced, id)
  {
    var t, request := s.tasks[task], s.requests[s.tasks[task].id];
    var outcome := Tally(request.approvals, request.required, t.ballot);
    AnnouncedNext(s.announced, Announcement(t.id, outcome, Ssf.Token(jti, ClaimsFor(request, outcome), [])), id);
  }

  lemma ReplyElsewhere(s: System, task: TaskId, pdp: Pdp, at: real, jti: string, id: RequestId)
    requires task in s.tasks && s.tasks[task].AwaitingPdp? && s.tasks[task].id in s.requests && id in s.requests
    requires s.tasks[task].id != id || !Passes(pdp)
    ensures var after := Answered(s, task, pdp, at, jti);
            && id in after.requests && after.requests[id] == s.requests[id]
            && OnlyTaskMoved(s, after, task) && task in after.tasks && !InFlight(after.tasks[task], id)
            && AnnouncedFor(after.announced, id) == AnnouncedFor(s.announced, id)
  {
    if Passes(pdp) {
      TallyElsewhere(RecordVote(s, task, pdp, at), task, jti, id);
    }
  }

  lemma VoteIsCounted(s: System, task: TaskId, pdp: Pdp, at: real, jti: string, id: RequestId)
    requires id in s.requests && Parked(s, id)
    requires task in s.tasks && s.tasks[task].AwaitingPdp? && s.tasks[task].id == id && Passes(pdp)
    ensures var after, t, request := Answered(s, task, pdp, at, jti), s.tasks[task], s.requests[id];
            && id in after.requests && task in Asked(s, id) && Asked(after, id) == Asked(s, id) - {task}
            && OnlyTaskMoved(s, after, task)
            && after.requests[id] == request.(approvals := request.approvals + [Vote(t.approver, t.ballot, at, pdp)],
                                              state := after.requests[id].state)
            && Announcements(after, id) + Capacity(after, id) <= Announcements(s, id) + Capacity(s, id)
            && (!t.ballot.Other? ==>
                  Announcements(after, id) + Capacity(after, id) == Announcements(s, id) + Capacity(s, id))
  {
    assert task in Asked(s, id);
    if s.requests[id].mirrored {
      RecordingKeepsCapacity(s, task, pdp, at, id);
    } else {
      AnsweringUsesCapacity(s, task, pdp, at, jti, id);
    }
  }

  lemma ReplyUsesCapacity(s: System, task: TaskId, pdp: Pdp, at: real, jti: string, id: RequestId)
    requires id in s.requests && Parked(s, id)
    requires task in s.tasks && s.tasks[task].AwaitingPdp? && s.tasks[task].id in s.requests
    ensures var after := Answered(s, task, pdp, at, jti);
            && id in after.requests
            && Announcements(after, id) + Capacity(after, id) <= Announcements(s, id) + Capacity(s, id)
  {
    var after := Answered(s, task, pdp, at, jti);
    if s.tasks[task].id == id && Passes(pdp) {
      VoteIsCounted(s, task, pdp, at, jti, id);
    } else {
      ReplyElsewhere(s, task, pdp, at, jti, id);
      LandingLowersCapacity(s, after, task, id);
    }
  }

  lemma TallyUsesCapacity(s: System, task: TaskId, jti: string, id: RequestId)
    requires id in s.requests && Parked(s, id)
    requires task in s.tasks && s.tasks[task].AwaitingSync? && s.tasks[task].id in s.requests
    ensures var after := TallyVotes(s, task, jti);
            && id in after.requests
            && Announcements(after, id) + Capacity(after, id) <= Announcements(s, id) + Capacity(s, id)
  {
    if s.tasks[task].id == id {
      TallyingUsesCapacity(s, task, jti, id);
    } else {
      TallyElsewhere(s, task, jti, id);
      LandingLowersCapacity(s, TallyVotes(s, task, jti), task, id);
    }
  }

  lemma SoundMeansParked(s: System, id: RequestId)
    requires Sound(s) && id in s.requests
    ensures Parked(s, id)
  {
    forall t | t in s.tasks && s.tasks[t].AwaitingSync? && s.tasks[t].id == id ensures s.requests[id].mirrored {
      assert TaskSound(s, s.tasks[t]);
    }
  }

  lemma StepUsesCapacity(s: System, step: Step, id: RequestId)
    requires id in s.requests && Parked(s, id) && !StartsAsking(s, step, id)
    ensures var after := Next(s, step);
            && id in after.requests
            && Announcements(after, id) + Capacity(after, id) <= Announcements(s, id) + Capacity(s, id)
  {
    var after := Next(s, step);
    if after != s {
      match step {
        case PdpReplies(task, pdp, at, jti) => ReplyUsesCapacity(s, task, pdp, at, jti, id);
        case SyncReturns(task, jti) => TallyUsesCapacity(s, task, jti, id);
        case Begin(task, _, _, _, _) => LandingLowersCapacity(s, after, task, id);
        case PushReturns(task) => LandingLowersCapacity(s, after, task, id);
        case _ =>
          assert after.tasks == s.tasks && after.requests[id].approvals == s.requests[id].approvals;
          assert Capacity(after, id) == Capacity(s, id);
      }
    }
  }

  lemma {:induction false} CapacityIsEnough(s: System, more: seq<Step>, id: RequestId)
    requires Sound(s) && id in s.requests && NoneJoins(s, more, id)
    ensures Announcements(After(s, more), id) <= Announcements(s, id) + Capacity(s, id)
    decreases |more|
  {
    if more == [] {
    } else {
      SoundMeansParked(s, id);
      StepKeepsSound(s, more[0]);
      StepUsesCapacity(s, more[0], id);
      CapacityIsEnough(Next(s, more[0]), more[1..], id);
    }
  }

  /** With the threshold in reach approvals come first, then all else asked about, then what waits for the mirror. */
  lemma NextToMove(s: System, id: RequestId) returns (task: TaskId)
    requires id in s.requests && Capacity(s, id) > 0
    ensures task in s.tasks && InFlight(s.tasks[task], id)
    ensures !InReach(s, id) ==> s.tasks[task].ballot == Reject
    ensures InReach(s, id) ==>
              || (s.tasks[task].AwaitingPdp? && s.tasks[task].ballot == Approve)
              || ApproveCount(s.requests[id].approvals) >= s.requests[id].required
  {
    if !InReach(s, id) {
      task :| task in RejectsUnderWay(s, id);
    } else if ApprovalsAsked(s, id) != {} {
      task :| task in ApprovalsAsked(s, id);
    } else if Asked(s, id) != {} {
      task :| task in Asked(s, id);
    } else {
      task :| task in UnderWay(s, id);
    }
  }

  function Steps(s: System, id: RequestId): nat {
    |Asked(s, id)| + |UnderWay(s, id)|
  }

  lemma ReplyMoves(s: System, task: TaskId, id: RequestId)
    requires id in s.requests && Parked(s, id)
    requires task in s.tasks && s.tasks[task].AwaitingPdp? && s.tasks[task].id == id
    requires s.tasks[task].ballot == Approve || s.tasks[task].ballot == Reject
             || ApproveCount(s.requests[id].approvals) >= s.requests[id].required
    ensures var after := Next(s, PdpReplies(task, YES, 0.0, ""));
            && id in after.requests && Steps(after, id) < Steps(s, id)
            && Announcements(after, id) + Capacity(after, id) == Announcements(s, id) + Capacity(s, id)
  {
    assert task in Asked(s, id);
    if s.requests[id].mirrored {
      RecordingKeepsCapacity(s, task, YES, 0.0, id);
    } else {
      AnsweringUsesCapacity(s, task, YES, 0.0, "", id);
      assert task in UnderWay(s, id);
    }
  }

  /** That submission moves on, and all that could be announced still can. */
  lemma MovingKeepsCapacity(s: System, id: RequestId) returns (step: Step)
    requires Sound(s) && id in s.requests && Capacity(s, id) > 0
    ensures step.PdpReplies? || step.SyncReturns?
    ensures var after := Next(s, step);
            && id in after.requests && Steps(after, id) < Steps(s, id)
            && Announcements(after, id) + Capacity(after, id) == Announcements(s, id) + Capacity(s, id)
  {
    SoundMeansParked(s, id);
    var task := NextToMove(s, id);
    if s.tasks[task].AwaitingSync? {
      step := SyncReturns(task, "");
      TallyingUsesCapacity(s, task, "", id);
      TallyingTakesOneOff(s, task, "", id);
    } else {
      step := PdpReplies(task, YES, 0.0, "");
      ReplyMoves(s, task, id);
    }
  }

  lemma {:induction false} CapacityIsReached(s: System, id: RequestId) returns (more: seq<Step>)
    requires Sound(s) && id in s.requests
    ensures NoneJoins(s, more, id)
    ensures Announcements(After(s, more), id) == Announcements(s, id) + Capacity(s, id)
    decreases Steps(s, id)
  {
    if Capacity(s, id) == 0 {
      more := [];
    } else {
      var step := MovingKeepsCapacity(s, id);
      StepKeepsSound(s, step);
      var rest := CapacityIsReached(Next(s, step), id);
      more := [step] + rest;
      AfterFirst(s, step, rest);
      NoneJoinsFirst(s, step, rest, id);
    }
  }

  /**
   Without further submissions, exactly `Capacity` more announcements of a request can still be made:
   that many can be reached, and no continuation makes more.
   */
  lemma CapacityIsExact(s: System, id: RequestId, k: nat)
    requires Sound(s) && id in s.requests
    ensures (exists more :: NoneJoins(s, more, id) && Announcements(After(s, more), id) >= Announcements(s, id) + k)
            <==> k <= Capacity(s, id)
  {
    if k <= Capacity(s, id) {
      var more := CapacityIsReached(s, id);
      assert NoneJoins(s, more, id) && Announcements(After(s, more), id) >= Announcements(s, id) + k;
    } else {
      forall more | NoneJoins(s, more, id) ensures Announcements(After(s, more), id) < Announcements(s, id) + k {
        CapacityIsEnough(s, more, id);
      }
    }
  }

  /** So a request is safe from being announced twice exactly when what was and what can still be announced is one. */
  lemma AnnouncedOnceExactly(s: System, id: RequestId)
    requires Sound(s) && id in s.requests
    ensures (forall more :: NoneJoins(s, more, id) ==> Announcements(After(s, more), id) <= 1)
            <==> Announcements(s, id) + Capacity(s, id) <= 1
  {
    var more := CapacityIsReached(s, id);
    assert NoneJoins(s, more, id);
    forall more | NoneJoins(s, more, id)
      ensures Announcements(After(s, more), id) <= Announcements(s, id) + Capacity(s, id)
    {
      CapacityIsEnough(s, more, id);
    }
  }

  /** Nothing joins the submissions to a request that is no longer pending. */
  lemma {:induction false} NoneJoinsDecided(s: System, more: seq<Step>, id: RequestId)
    requires id in s.requests && s.requests[id].state != Pending
    ensures NoneJoins(s, more, id)
    decreases |more|
  {
    if more == [] {
    } else {
      StepEvolves(s, more[0]);
      assert Grows(s.requests[id], Next(s, more[0]).requests[id]);
      NoneJoinsDecided(Next(s, more[0]), more[1..], id);
    }
  }

  lemma {:induction false} AnnouncedForFinds(announced: seq<Announcement>, id: RequestId, i: nat)
    requires i < |AnnouncedFor(announced, id)|
    ensures AnnouncedFor(announced, id)[i] in announced && AnnouncedFor(announced, id)[i].id == id
  {
    var before := AnnouncedFor(announced[..|announced| - 1], id);
    if i == |before| {
    } else {
      AnnouncedForFinds(announced[..|announced| - 1], id, i);
    }
  }

  lemma CapacityAfterAnnouncement(s: System, a: Announcement)
    requires AnnouncementSound(s, a) && Parked(s, a.id)
    ensures Capacity(s, a.id) >= 1
            <==> if a.outcome == Granted then Busy(s, a.id)
                 else RejectsUnderWay(s, a.id) != {} || (Busy(s, a.id) && InReach(s, a.id))
  {
    BusyMeansUnderWay(s, a.id);
    RejectsAndApprovals(s, a.id);
    SubsetSize(ApprovalsAsked(s, a.id), Asked(s, a.id));
    assert RejectsUnderWay(s, a.id) <= UnderWay(s, a.id);
  }

  lemma AnnouncedAgainExactly(steps: seq<Step>, id: RequestId)
    requires id in Run(steps).requests && Run(steps).requests[id].state != Pending
    ensures (exists more :: Announcements(Run(steps + more), id) > Announcements(Run(steps), id))
            <==> Capacity(Run(steps), id) >= 1
  {
    var s := Run(steps);
    EveryRunIsSound(steps);
    if Capacity(s, id) >= 1 {
      var more := CapacityIsReached(s, id);
      RunThenAfter(steps, more);
      assert Announcements(Run(steps + more), id) > Announcements(s, id);
    } else {
      forall more ensures Announcements(Run(steps + more), id) <= Announcements(s, id) {
        RunThenAfter(steps, more);
        NoneJoinsDecided(s, more, id);
        CapacityIsEnough(s, more, id);
      }
    }
  }

  /**
   After an announcement some continuation of the run announces the request again if and only if: another
   submission to it is under way, if it was announced as granted; a reject is under way, or enough
   approvals for the threshold with a submission under way, if it was announced as refused.
   */
  lemma SecondAnnouncementExactly(steps: seq<Step>, id: RequestId, i: nat)
    requires i < |AnnouncedFor(Run(steps).announced, id)|
    ensures var s := Run(steps);
            && id in s.requests
            && ((exists more :: Announcements(Run(steps + more), id) > Announcements(s, id))
                <==> if AnnouncedFor(s.announced, id)[i].outcome == Granted then Busy(s, id)
                     else RejectsUnderWay(s, id) != {} || (Busy(s, id) && InReach(s, id)))
  {
    var s := Run(steps);
    EveryRunIsSound(steps);
    AnnouncedForFinds(s.announced, id, i);
    assert AnnouncementSound(s, AnnouncedFor(s.announced, id)[i]);
    SoundMeansParked(s, id);
    CapacityAfterAnnouncement(s, AnnouncedFor(s.announced, id)[i]);
    AnnouncedAgainExactly(steps, id);
  }

  // ---------------------------------------------------------------------
  // When the submissions under way leave the request as atomic ones would
  // ---------------------------------------------------------------------

  /** One announcement per decided request, none otherwise. */
  ghost predicate SettledExactly(request: Request, history: seq<Announcement>) {
    Exact(request) && HistoryExact(request, history)
  }

  ghost predicate SettledAt(s: System, id: RequestId) {
    id in s.requests ==> SettledExactly(s.requests[id], AnnouncedFor(s.announced, id))
  }

  /** Whatever becomes of the submissions under way, once none is left the request is as atomic ones leave it. */
  ghost predicate EndsExactly(s: System, id: RequestId) {
    forall more :: NoneJoins(s, more, id) && !Busy(After(s, more), id) ==> SettledAt(After(s, more), id)
  }

  ghost predicate RejectAskedAlone(s: System, id: RequestId) {
    forall t :: t in Asked(s, id) && s.tasks[t].ballot == Reject ==> Asked(s, id) == {t}
  }

  /**
   Approvers apart and no vote cast after a verdict; while there is none, a reject asked about alone and at
   most one announcement to come; with one, nobody asked any more and exactly one announcement in all.
   */
  ghost predicate Poised(s: System, id: RequestId)
    requires id in s.requests
  {
    var votes, required := s.requests[id].approvals, s.requests[id].required;
    && VotersApart(s, id) && OpenUntilLast(votes, required)
    && if Verdict(votes, required) == Open then
         RejectAskedAlone(s, id) && Announcements(s, id) + Capacity(s, id) <= 1
       else
         Asked(s, id) == {} && Announcements(s, id) + Capacity(s, id) == 1
  }

  lemma RejectBelowThreshold(votes: seq<Vote>, required: int)
    requires OpenUntilLast(votes, required) && HasReject(votes)
    ensures ApproveCount(votes) < required
  {
    var before, last := votes[..|votes| - 1], votes[|votes| - 1];
    assert votes == before + [last];
    AppendVote(before, last);
  }

  /** Where no vote was cast after a verdict, every announcement tells of that verdict. */
  lemma AnnouncedAsVerdict(s: System, id: RequestId, i: nat)
    requires Sound(s) && id in s.requests && OpenUntilLast(s.requests[id].approvals, s.requests[id].required)
    requires i < |AnnouncedFor(s.announced, id)|
    ensures var a, request := AnnouncedFor(s.announced, id)[i], s.requests[id];
            a.outcome == Verdict(request.approvals, request.required) && TellsOf(a, request) && request.state != Pending
  {
    AnnouncedForFinds(s.announced, id, i);
    assert AnnouncementSound(s, AnnouncedFor(s.announced, id)[i]);
    if HasReject(s.requests[id].approvals) {
      RejectBelowThreshold(s.requests[id].approvals, s.requests[id].required);
    }
  }

  lemma IdleHasNoCapacity(s: System, id: RequestId)
    requires id in s.requests && !Busy(s, id)
    ensures Capacity(s, id) == 0 && Asked(s, id) == {}
  {
    BusyMeansUnderWay(s, id);
    assert RejectsUnderWay(s, id) <= UnderWay(s, id) && Asked(s, id) <= UnderWay(s, id);
  }

  lemma PoisedSettles(s: System, id: RequestId)
    requires Sound(s) && id in s.requests && Poised(s, id) && !Busy(s, id)
    ensures SettledAt(s, id)
  {
    var request := s.requests[id];
    IdleHasNoCapacity(s, id);
    if |AnnouncedFor(s.announced, id)| == 1 {
      AnnouncedAsVerdict(s, id, 0);
    }
    if HasReject(request.approvals) {
      RejectBelowThreshold(request.approvals, request.required);
    }
    assert Justified(request);
  }

  lemma LandedElsewhere(s: System, after: System, task: TaskId, id: RequestId)
    requires OnlyTaskMoved(s, after, task) && (task in s.tasks ==> !InFlight(s.tasks[task], id))
    requires task in after.tasks && !InFlight(after.tasks[task], id)
    ensures UnderWay(after, id) == UnderWay(s, id) && RejectsUnderWay(after, id) == RejectsUnderWay(s, id)
    ensures Asked(after, id) == Asked(s, id) && ApprovalsAsked(after, id) == ApprovalsAsked(s, id)
  {
    Landed(s, after, task, id);
    assert task !in UnderWay(s, id) && task !in RejectsUnderWay(s, id);
    assert task !in Asked(s, id) && task !in ApprovalsAsked(s, id);
  }

  /** Without another vote, a poised request stays so if nothing that could be announced is lost after a verdict. */
  lemma PoisedCarries(s: System, after: System, id: RequestId)
    requires id in s.requests && id in after.requests && Poised(s, id) && VotersApart(after, id)
    requires after.requests[id] == s.requests[id].(state := after.requests[id].state)
    requires Asked(after, id) <= Asked(s, id)
    requires forall t :: t in Asked(after, id) ==> after.tasks[t] == s.tasks[t]
    requires Announcements(after, id) + Capacity(after, id) <= Announcements(s, id) + Capacity(s, id)
    requires Verdict(s.requests[id].approvals, s.requests[id].required) != Open ==>
               Announcements(after, id) + Capacity(after, id) == Announcements(s, id) + Capacity(s, id)
    ensures Poised(after, id)
  {
    forall t | t in Asked(after, id) && after.tasks[t].ballot == Reject ensures Asked(after, id) == {t} {
      assert t in Asked(s, id);
    }
  }

  lemma LandingElsewhereKeepsPoised(s: System, after: System, task: TaskId, id: RequestId)
    requires id in s.requests && id in after.requests && Poised(s, id) && VotersApart(after, id)
    requires OnlyTaskMoved(s, after, task) && task in after.tasks && !InFlight(after.tasks[task], id)
    requires task in s.tasks ==> !InFlight(s.tasks[task], id)
    requires after.requests[id] == s.requests[id].(state := after.requests[id].state)
    requires Announcements(after, id) == Announcements(s, id)
    ensures Poised(after, id)
  {
    LandedElsewhere(s, after, task, id);
    assert task !in Asked(s, id);
    PoisedCarries(s, after, id);
  }

  lemma VerdictAfter(votes: seq<Vote>, required: int, vote: Vote)
    requires Verdict(votes, required) == Open
    ensures Verdict(votes + [vote], required) != Open
            <==> vote.ballot == Reject || (vote.ballot == Approve && ApproveCount(votes) + 1 >= required)
    ensures OpenUntilLast(votes + [vote], required)
  {
    AppendVote(votes, vote);
    assert (votes + [vote])[..|votes|] == votes;
  }

  lemma OneAndOnly(tasks: set<TaskId>, task: TaskId)
    requires task in tasks && |tasks| <= 1
    ensures tasks == {task}
  {
    assert |tasks - {task}| == 0;
  }

  /** In a poised request, a submission about to decide it is the only one with the decision point. */
  lemma DecidesAlone(s: System, task: TaskId, id: RequestId)
    requires id in s.requests && Poised(s, id) && Parked(s, id) && task in Asked(s, id)
    requires var request, ballot := s.requests[id], s.tasks[task].ballot;
             ballot == Reject || (ballot == Approve && ApproveCount(request.approvals) + 1 >= request.required)
    ensures Asked(s, id) == {task} && Announcements(s, id) + Capacity(s, id) == 1
  {
    SubsetSize({task}, UnderWay(s, id));
    if s.tasks[task].ballot == Reject {
      SubsetSize({task}, RejectsUnderWay(s, id));
      SubsetSize(ApprovalsAsked(s, id), Asked(s, id));
    } else {
      SubsetSize({task}, ApprovalsAsked(s, id));
      SubsetSize({task}, Asked(s, id));
      SubsetSize(Asked(s, id), UnderWay(s, id));
      OneAndOnly(Asked(s, id), task);
    }
  }

  /** A vote keeps a request poised if it leaves it open, or decides it with one announcement in all. */
  lemma VoteKeepsPoised(s: System, after: System, task: TaskId, vote: Vote, id: RequestId)
    requires id in s.requests && id in after.requests && Poised(s, id) && VotersApart(after, id)
    requires task in Asked(s, id) && Asked(after, id) == Asked(s, id) - {task} && OnlyTaskMoved(s, after, task)
    requires vote.ballot == s.tasks[task].ballot
    requires after.requests[id] == s.requests[id].(approvals := s.requests[id].approvals + [vote],
                                                   state := after.requests[id].state)
    requires Announcements(after, id) + Capacity(after, id) <= Announcements(s, id) + Capacity(s, id)
    requires !vote.ballot.Other? ==>
               Announcements(after, id) + Capacity(after, id) == Announcements(s, id) + Capacity(s, id)
    requires Parked(s, id)
    ensures Poised(after, id)
  {
    var request := s.requests[id];
    VerdictAfter(request.approvals, request.required, vote);
    if Verdict(after.requests[id].approvals, request.required) != Open {
      DecidesAlone(s, task, id);
    }
  }

  lemma ReplyKeepsPoised(s: System, task: TaskId, pdp: Pdp, at: real, jti: string, id: RequestId)
    requires id in s.requests && Poised(s, id) && Parked(s, id)
    requires task in s.tasks && s.tasks[task].AwaitingPdp? && s.tasks[task].id == id && Passes(pdp)
    ensures Poised(Answered(s, task, pdp, at, jti), id)
  {
    StepKeepsVotersApart(s, PdpReplies(task, pdp, at, jti), id);
    VoteIsCounted(s, task, pdp, at, jti, id);
    VoteKeepsPoised(s, Answered(s, task, pdp, at, jti), task,
                    Vote(s.tasks[task].approver, s.tasks[task].ballot, at, pdp), id);
  }

  lemma TallyKeepsPoised(s: System, task: TaskId, jti: string, id: RequestId)
    requires Sound(s) && id in s.requests && Poised(s, id)
    requires task in s.tasks && s.tasks[task].AwaitingSync? && s.tasks[task].id == id
    ensures Poised(TallyVotes(s, task, jti), id)
  {
    SoundMeansParked(s, id);
    assert TaskSound(s, s.tasks[task]);
    TallyingKeepsVotersApart(s, task, jti, id);
    TallyingTakesOneOff(s, task, jti, id);
    TallyingUsesCapacity(s, task, jti, id);
    assert ApprovalsAsked(s, id) <= Asked(s, id);
    PoisedCarries(s, TallyVotes(s, task, jti), id);
  }

  /** A denial, or a reply to another request. */
  lemma OtherReplyKeepsPoised(s: System, task: TaskId, pdp: Pdp, at: real, jti: string, id: RequestId)
    requires Sound(s) && id in s.requests && Poised(s, id)
    requires task in s.tasks && s.tasks[task].AwaitingPdp? && s.tasks[task].id in s.requests
    requires s.tasks[task].id != id || !Passes(pdp)
    ensures Poised(Answered(s, task, pdp, at, jti), id)
  {
    var after := Answered(s, task, pdp, at, jti);
    SoundMeansParked(s, id);
    StepKeepsVotersApart(s, PdpReplies(task, pdp, at, jti), id);
    ReplyElsewhere(s, task, pdp, at, jti, id);
    if s.tasks[task].id == id {
      assert task in Asked(s, id);
      Landed(s, after, task, id);
      LandingLowersCapacity(s, after, task, id);
      PoisedCarries(s, after, id);
    } else {
      LandingElsewhereKeepsPoised(s, after, task, id);
    }
  }

  lemma AnyReplyKeepsPoised(s: System, task: TaskId, pdp: Pdp, at: real, jti: string, id: RequestId)
    requires Sound(s) && id in s.requests && Poised(s, id)
    requires task in s.tasks && s.tasks[task].AwaitingPdp? && s.tasks[task].id in s.requests
    ensures id in Answered(s, task, pdp, at, jti).requests && Poised(Answered(s, task, pdp, at, jti), id)
  {
    if s.tasks[task].id == id && Passes(pdp) {
      SoundMeansParked(s, id);
      ReplyKeepsPoised(s, task, pdp, at, jti, id);
    } else {
      OtherReplyKeepsPoised(s, task, pdp, at, jti, id);
    }
  }

  lemma OtherTallyKeepsPoised(s: System, task: TaskId, jti: string, id: RequestId)
    requires id in s.requests && Poised(s, id)
    requires task in s.tasks && s.tasks[task].AwaitingSync? && s.tasks[task].id in s.requests && s.tasks[task].id != id
    ensures Poised(TallyVotes(s, task, jti), id)
  {
    TallyElsewhere(s, task, jti, id);
    TallyLands(s, task, jti);
    TallyingKeepsVotersApart(s, task, jti, id);
    LandingElsewhereKeepsPoised(s, TallyVotes(s, task, jti), task, id);
  }

  lemma AnyTallyKeepsPoised(s: System, task: TaskId, jti: string, id: RequestId)
    requires Sound(s) && id in s.requests && Poised(s, id)
    requires task in s.tasks && s.tasks[task].AwaitingSync? && s.tasks[task].id in s.requests
    ensures id in TallyVotes(s, task, jti).requests && Poised(TallyVotes(s, task, jti), id)
  {
    if s.tasks[task].id == id {
      TallyKeepsPoised(s, task, jti, id);
    } else {
      OtherTallyKeepsPoised(s, task, jti, id);
    }
  }

  lemma SameTasksSameCapacity(s: System, after: System, id: RequestId)
    requires id in s.requests && id in after.requests && after.tasks == s.tasks
    requires after.requests[id] == s.requests[id].(state := after.requests[id].state)
    ensures Capacity(after, id) == Capacity(s, id) && Asked(after, id) == Asked(s, id)
  {
    assert UnderWay(after, id) == UnderWay(s, id) && RejectsUnderWay(after, id) == RejectsUnderWay(s, id);
    assert Asked(after, id) == Asked(s, id) && ApprovalsAsked(after, id) == ApprovalsAsked(s, id);
  }

  lemma SameTasksKeepPoised(s: System, step: Step, id: RequestId)
    requires id in s.requests && Poised(s, id) && (step.Get? || step.CreateRequest?)
    ensures id in Next(s, step).requests && Poised(Next(s, step), id)
  {
    var after := Next(s, step);
    StepKeepsVotersApart(s, step, id);
    assert after.tasks == s.tasks && after.announced == s.announced;
    assert after.requests[id] == s.requests[id].(state := after.requests[id].state);
    SameTasksSameCapacity(s, after, id);
    PoisedCarries(s, after, id);
  }

  lemma IdleTaskKeepsPoised(s: System, step: Step, id: RequestId)
    requires id in s.requests && Poised(s, id) && !StartsAsking(s, step, id) && Next(s, step) != s
    requires step.Begin? || step.PushReturns?
    ensures id in Next(s, step).requests && Poised(Next(s, step), id)
  {
    StepKeepsVotersApart(s, step, id);
    LandingElsewhereKeepsPoised(s, Next(s, step), step.task, id);
  }

  lemma StepKeepsPoised(s: System, step: Step, id: RequestId)
    requires Sound(s) && id in s.requests && Poised(s, id) && !StartsAsking(s, step, id)
    ensures id in Next(s, step).requests && Poised(Next(s, step), id)
  {
    if Next(s, step) != s {
      match step {
        case PdpReplies(task, pdp, at, jti) => AnyReplyKeepsPoised(s, task, pdp, at, jti, id);
        case SyncReturns(task, jti) => AnyTallyKeepsPoised(s, task, jti, id);
        case Begin(_, _, _, _, _) => IdleTaskKeepsPoised(s, step, id);
        case PushReturns(_) => IdleTaskKeepsPoised(s, step, id);
        case _ => SameTasksKeepPoised(s, step, id);
      }
    }
  }

  lemma {:induction false} PoisedEndsExactly(s: System, more: seq<Step>, id: RequestId)
    requires Sound(s) && id in s.requests && Poised(s, id) && NoneJoins(s, more, id) && !Busy(After(s, more), id)
    ensures SettledAt(After(s, more), id)
    decreases |more|
  {
    if more == [] {
      PoisedSettles(s, id);
    } else {
      StepKeepsPoised(s, more[0], id);
      StepKeepsSound(s, more[0]);
      PoisedEndsExactly(Next(s, more[0]), more[1..], id);
    }
  }

  const NO := Pdp(false, false)

  /** The submissions under way can all be brought to an end without another vote. */
  lemma {:induction false} Drained(s: System, id: RequestId) returns (more: seq<Step>)
    requires id in s.requests
    ensures NoneJoins(s, more, id) && !Busy(After(s, more), id)
    ensures var end := After(s, more);
            && id in end.requests && end.requests[id] == s.requests[id].(state := end.requests[id].state)
            && Announcements(end, id) >= Announcements(s, id)
    decreases |UnderWay(s, id)|
  {
    BusyMeansUnderWay(s, id);
    if UnderWay(s, id) == {} {
      more := [];
    } else {
      var task :| task in UnderWay(s, id);
      var step := if s.tasks[task].AwaitingPdp? then PdpReplies(task, NO, 0.0, "") else SyncReturns(task, "");
      var next := Next(s, step);
      if s.tasks[task].AwaitingSync? {
        TallyAnnounces(s, task, "", id);
      }
      Landed(s, next, task, id);
      var rest := Drained(next, id);
      more := [step] + rest;
      AfterFirst(s, step, rest);
      NoneJoinsFirst(s, step, rest, id);
    }
  }

  lemma EndsExactlyNext(s: System, step: Step, id: RequestId)
    requires EndsExactly(s, id) && !StartsAsking(s, step, id)
    ensures EndsExactly(Next(s, step), id)
  {
    forall rest | NoneJoins(Next(s, step), rest, id) && !Busy(After(Next(s, step), rest), id)
      ensures SettledAt(After(Next(s, step), rest), id)
    {
      AfterFirst(s, step, rest);
      NoneJoinsFirst(s, step, rest, id);
    }
  }

  lemma {:induction false} EndsExactlyAfter(s: System, more: seq<Step>, id: RequestId)
    requires EndsExactly(s, id) && NoneJoins(s, more, id)
    ensures EndsExactly(After(s, more), id)
    ensures id in s.requests ==> id in After(s, more).requests
    decreases |more|
  {
    if more == [] {
    } else {
      StepEvolves(s, more[0]);
      EndsExactlyNext(s, more[0], id);
      EndsExactlyAfter(Next(s, more[0]), more[1..], id);
    }
  }

  /** An approver counted twice, a vote after a verdict and a second announcement are beyond repair. */
  lemma SpoiledForGood(s: System, id: RequestId)
    requires id in s.requests
    requires var request := s.requests[id];
             || !DistinctApprovers(request.approvals) || !OpenUntilLast(request.approvals, request.required)
             || Announcements(s, id) >= 2
    ensures !EndsExactly(s, id)
  {
    var more := Drained(s, id);
    assert !SettledAt(After(s, more), id);
  }

  lemma EndsExactlyMeansApart(s: System, id: RequestId)
    requires Sound(s) && id in s.requests && EndsExactly(s, id)
    ensures VotersApart(s, id)
  {
    StaysDistinctExactly(s, id);
    if !StaysDistinct(s, id) {
      var more :| NoneJoins(s, more, id) && !DistinctAt(After(s, more), id);
      EndsExactlyAfter(s, more, id);
      SpoiledForGood(After(s, more), id);
    }
  }

  lemma EndsExactlyMeansOnce(s: System, id: RequestId)
    requires Sound(s) && id in s.requests && EndsExactly(s, id)
    ensures Announcements(s, id) + Capacity(s, id) <= 1
    ensures Verdict(s.requests[id].approvals, s.requests[id].required) != Open ==>
              Announcements(s, id) + Capacity(s, id) == 1
  {
    var most := CapacityIsReached(s, id);
    EndsExactlyAfter(s, most, id);
    if Announcements(s, id) + Capacity(s, id) >= 2 {
      SpoiledForGood(After(s, most), id);
    }
    var last := Drained(s, id);
    CapacityIsEnough(s, last, id);
    assert SettledAt(After(s, last), id);
  }

  /** No vote can be cast after a verdict, so nobody is asked once there is one. */
  lemma LateVoteSpoils(s: System, t: TaskId, id: RequestId)
    requires id in s.requests && t in Asked(s, id)
    requires Verdict(s.requests[id].approvals, s.requests[id].required) != Open
    ensures !EndsExactly(s, id)
  {
    var votes, step := s.requests[id].approvals, PdpReplies(t, YES, 0.0, "");
    Recorded(s, t, 0.0, "");
    var longer := Next(s, step).requests[id].approvals;
    assert longer[..|longer| - 1] == votes;
    SpoiledForGood(Next(s, step), id);
    if EndsExactly(s, id) {
      EndsExactlyNext(s, step, id);
    }
  }

  lemma RejectBesideAnotherSpoils(s: System, t: TaskId, u: TaskId, id: RequestId)
    requires id in s.requests && t in Asked(s, id) && u in Asked(s, id) && t != u && s.tasks[t].ballot == Reject
    ensures !EndsExactly(s, id)
  {
    var step := PdpReplies(t, YES, 0.0, "");
    Recorded(s, t, 0.0, "");
    AppendVote(s.requests[id].approvals, Vote(s.tasks[t].approver, Reject, 0.0, YES));
    LateVoteSpoils(Next(s, step), u, id);
    if EndsExactly(s, id) {
      EndsExactlyNext(s, step, id);
    }
  }

  lemma EndsExactlyMeansPoised(s: System, id: RequestId)
    requires Sound(s) && id in s.requests && EndsExactly(s, id)
    ensures Poised(s, id)
  {
    EndsExactlyMeansApart(s, id);
    EndsExactlyMeansOnce(s, id);
    if !OpenUntilLast(s.requests[id].approvals, s.requests[id].required) {
      SpoiledForGood(s, id);
    }
    if Verdict(s.requests[id].approvals, s.requests[id].required) != Open {
      if Asked(s, id) != {} {
        var t :| t in Asked(s, id);
        LateVoteSpoils(s, t, id);
      }
    } else {
      forall t, u | t in Asked(s, id) && s.tasks[t].ballot == Reject && u in Asked(s, id) ensures t == u {
        if t != u {
          RejectBesideAnotherSpoils(s, t, u, id);
        }
      }
    }
  }

  /**
   At any moment of a run, whatever becomes of the submissions under way leaves the request as atomic
   submissions would, announced exactly once if decided, if and only if it is poised.
   */
  lemma EndsExactlyWhenPoised(s: System, id: RequestId)
    requires Sound(s) && id in s.requests
    ensures EndsExactly(s, id) <==> Poised(s, id)
  {
    if Poised(s, id) {
      forall more | NoneJoins(s, more, id) && !Busy(After(s, more), id) ensures SettledAt(After(s, more), id) {
        PoisedEndsExactly(s, more, id);
      }
    } else if EndsExactly(s, id) {
      EndsExactlyMeansPoised(s, id);
    }
  }

  lemma NewRequestIsPoised(s: System, step: Step)
    requires Sound(s) && step.CreateRequest? && step.id !in s.requests
    ensures Poised(Next(s, step), step.id) <==> step.required >= 1
  {
    var after, id := Next(s, step), step.id;
    forall t | t in s.tasks ensures !InFlight(s.tasks[t], id) {
      assert TaskSound(s, s.tasks[t]);
    }
    IdleHasNoCapacity(after, id);
    if Announcements(s, id) > 0 {
      AnnouncedForFinds(s.announced, id, 0);
    }
  }

  /** `Capacity` with one more submission under way. */
  function CapacityWith(s: System, ballot: Ballot, id: RequestId): nat
    requires id in s.requests
  {
    var request := s.requests[id];
    var approvals := |ApprovalsAsked(s, id)| + if ballot == Approve then 1 else 0;
    var rejects := |RejectsUnderWay(s, id)| + if ballot == Reject then 1 else 0;
    if request.mirrored then
      if ApproveCount(request.approvals) + approvals >= request.required then |UnderWay(s, id)| + 1 else rejects
    else
      SubsetSize(ApprovalsAsked(s, id), Asked(s, id));
      AtOnce(request.required - ApproveCount(request.approvals), approvals, |Asked(s, id)| + 1, rejects)
  }

  /** What to check of a submission, besides what the gate checks, before the decision point is asked about it. */
  ghost predicate RoomFor(s: System, step: Step, id: RequestId)
    requires StartsAsking(s, step, id)
  {
    && Verdict(s.requests[id].approvals, s.requests[id].required) == Open
    && !SomeoneAsking(s, id, step.approver)
    && (step.ballot == Reject ==> Asked(s, id) == {})
    && (forall t :: t in Asked(s, id) ==> s.tasks[t].ballot != Reject)
    && Announcements(s, id) + CapacityWith(s, step.ballot, id) <= 1
  }

  lemma TookOff(s: System, after: System, task: TaskId, id: RequestId)
    requires OnlyTaskMoved(s, after, task) && task !in s.tasks && task in after.tasks
    requires after.tasks[task].AwaitingPdp? && after.tasks[task].id == id
    ensures UnderWay(after, id) == UnderWay(s, id) + {task} && task !in UnderWay(s, id)
    ensures Asked(after, id) == Asked(s, id) + {task} && task !in Asked(s, id)
    ensures ApprovalsAsked(after, id)
            == ApprovalsAsked(s, id) + if after.tasks[task].ballot == Approve then {task} else {}
    ensures RejectsUnderWay(after, id)
            == RejectsUnderWay(s, id) + if after.tasks[task].ballot == Reject then {task} else {}
  {
  }

  lemma JoinedSizes(s: System, after: System, task: TaskId, id: RequestId)
    requires OnlyTaskMoved(s, after, task) && task !in s.tasks && task in after.tasks
    requires after.tasks[task].AwaitingPdp? && after.tasks[task].id == id
    ensures |UnderWay(after, id)| == |UnderWay(s, id)| + 1 && |Asked(after, id)| == |Asked(s, id)| + 1
    ensures |ApprovalsAsked(after, id)|
            == |ApprovalsAsked(s, id)| + if after.tasks[task].ballot == Approve then 1 else 0
    ensures |RejectsUnderWay(after, id)|
            == |RejectsUnderWay(s, id)| + if after.tasks[task].ballot == Reject then 1 else 0
  {
    TookOff(s, after, task, id);
    assert task !in ApprovalsAsked(s, id) && task !in RejectsUnderWay(s, id);
  }

  lemma JoinedCapacity(s: System, after: System, task: TaskId, id: RequestId)
    requires OnlyTaskMoved(s, after, task) && task !in s.tasks && task in after.tasks
    requires after.tasks[task].AwaitingPdp? && after.tasks[task].id == id
    requires id in s.requests && id in after.requests && after.requests[id] == s.requests[id]
    ensures Capacity(after, id) == CapacityWith(s, after.tasks[task].ballot, id)
  {
    JoinedSizes(s, after, task, id);
    SubsetSize(ApprovalsAsked(s, id), Asked(s, id));
    SubsetSize(ApprovalsAsked(after, id), Asked(after, id));
  }

  lemma JoinedSets(s: System, step: Step, id: RequestId)
    requires StartsAsking(s, step, id)
    ensures var after := Next(s, step);
            && after.requests[id] == s.requests[id] && after.announced == s.announced
            && OnlyTaskMoved(s, after, step.task)
            && after.tasks[step.task] == AwaitingPdp(id, step.approver, step.ballot)
            && Asked(after, id) == Asked(s, id) + {step.task} && step.task !in Asked(s, id)
            && Capacity(after, id) == CapacityWith(s, step.ballot, id)
  {
    TookOff(s, Next(s, step), step.task, id);
    JoinedCapacity(s, Next(s, step), step.task, id);
  }

  lemma JoinedRejects(s: System, step: Step, id: RequestId)
    requires StartsAsking(s, step, id)
    ensures RejectAskedAlone(Next(s, step), id)
            <==> && (step.ballot == Reject ==> Asked(s, id) == {})
                 && (forall t :: t in Asked(s, id) ==> s.tasks[t].ballot != Reject)
  {
    var after := Next(s, step);
    JoinedSets(s, step, id);
    assert step.task in Asked(after, id) && after.tasks[step.task].ballot == step.ballot;
    forall t | t in Asked(s, id) ensures t in Asked(after, id) && after.tasks[t] == s.tasks[t] && t != step.task {
    }
  }

  /** That is exactly what keeps a poised request poised. */
  lemma JoinKeepsPoisedExactly(s: System, step: Step, id: RequestId)
    requires id in s.requests && Poised(s, id) && StartsAsking(s, step, id)
    ensures Poised(Next(s, step), id) <==> RoomFor(s, step, id)
  {
    var after := Next(s, step);
    JoinedSets(s, step, id);
    if SomeoneAsking(s, id, step.approver) {
      TwinsAreNotApart(s, step, id);
    } else {
      StepKeepsVotersApart(s, step, id);
    }
    JoinedRejects(s, step, id);
  }

  ghost predicate RoomThroughout(steps: seq<Step>, id: RequestId) {
    forall i :: 0 <= i < |steps| && StartsAsking(Run(steps[..i]), steps[i], id)
                ==> RoomFor(Run(steps[..i]), steps[i], id)
  }

  predicate Creates(s: System, step: Step, id: RequestId) {
    step.CreateRequest? && step.id == id && id !in s.requests
  }

  ghost predicate PositiveThreshold(steps: seq<Step>, id: RequestId) {
    forall i :: 0 <= i < |steps| && Creates(Run(steps[..i]), steps[i], id) ==> steps[i].required >= 1
  }

  lemma PoisedStep(s: System, step: Step, id: RequestId)
    requires Sound(s) && (id in s.requests ==> Poised(s, id))
    requires StartsAsking(s, step, id) ==> RoomFor(s, step, id)
    requires Creates(s, step, id) ==> step.required >= 1
    ensures id in Next(s, step).requests ==> Poised(Next(s, step), id)
  {
    if id !in s.requests {
      if step.CreateRequest? && step.id == id {
        NewRequestIsPoised(s, step);
      }
    } else if StartsAsking(s, step, id) {
      JoinKeepsPoisedExactly(s, step, id);
    } else {
      StepKeepsPoised(s, step, id);
    }
  }

  lemma {:induction false} RoomKeepsPoised(steps: seq<Step>, id: RequestId, k: nat)
    requires RoomThroughout(steps, id) && PositiveThreshold(steps, id) && k <= |steps|
    ensures id in Run(steps[..k]).requests ==> Poised(Run(steps[..k]), id)
  {
    if k == 0 {
    } else {
      assert steps[..k][..k - 1] == steps[..k - 1];
      RoomKeepsPoised(steps, id, k - 1);
      EveryRunIsSound(steps[..k - 1]);
      PoisedStep(Run(steps[..k - 1]), steps[k - 1], id);
    }
  }

  lemma NoRoomIsUnsafe(steps: seq<Step>, id: RequestId, i: nat)
    requires i < |steps| && StartsAsking(Run(steps[..i]), steps[i], id) && !RoomFor(Run(steps[..i]), steps[i], id)
    ensures id in Run(steps[..i]).requests && id in Run(steps[..i + 1]).requests
    ensures !(EndsExactly(Run(steps[..i]), id) && EndsExactly(Run(steps[..i + 1]), id))
  {
    assert steps[..i + 1][..i] == steps[..i];
    EveryRunIsSound(steps[..i]);
    EveryRunIsSound(steps[..i + 1]);
    EndsExactlyWhenPoised(Run(steps[..i]), id);
    EndsExactlyWhenPoised(Run(steps[..i + 1]), id);
    if Poised(Run(steps[..i]), id) {
      JoinKeepsPoisedExactly(Run(steps[..i]), steps[i], id);
    }
  }

  lemma LowThresholdIsUnsafe(steps: seq<Step>, id: RequestId, i: nat)
    requires i < |steps| && Creates(Run(steps[..i]), steps[i], id) && steps[i].required < 1
    ensures id in Run(steps[..i + 1]).requests && !EndsExactly(Run(steps[..i + 1]), id)
  {
    assert steps[..i + 1][..i] == steps[..i];
    EveryRunIsSound(steps[..i]);
    EveryRunIsSound(steps[..i + 1]);
    NewRequestIsPoised(Run(steps[..i]), steps[i]);
    EndsExactlyWhenPoised(Run(steps[..i + 1]), id);
  }

  /**
   So at every moment of a run the submissions under way are bound to leave the request as atomic ones would,
   if and only if there was room for each of them when it got past its checks, and the threshold is positive.
   */
  lemma RoomThroughoutExactly(steps: seq<Step>, id: RequestId)
    ensures RoomThroughout(steps, id) && PositiveThreshold(steps, id)
            <==> forall k :: 0 <= k <= |steps| && id in Run(steps[..k]).requests ==> EndsExactly(Run(steps[..k]), id)
  {
    if !PositiveThreshold(steps, id) {
      var i :| 0 <= i < |steps| && Creates(Run(steps[..i]), steps[i], id) && steps[i].required < 1;
      LowThresholdIsUnsafe(steps, id, i);
    } else if RoomThroughout(steps, id) {
      forall k | 0 <= k <= |steps| && id in Run(steps[..k]).requests ensures EndsExactly(Run(steps[..k]), id) {
        RoomKeepsPoised(steps, id, k);
        EveryRunIsSound(steps[..k]);
        EndsExactlyWhenPoised(Run(steps[..k]), id);
      }
    } else {
      var i :| 0 <= i < |steps| && StartsAsking(Run(steps[..i]), steps[i], id)
               && !RoomFor(Run(steps[..i]), steps[i], id);
      NoRoomIsUnsafe(steps, id, i);
    }
  }

  /** No submission to `id` gets past its checks while another is still deciding whether and how its vote counts. */
  ghost predicate Serialized(steps: seq<Step>, id: RequestId) {
    forall i :: 0 <= i < |steps| && StartsAsking(Run(steps[..i]), steps[i], id) ==> !Busy(Run(steps[..i]), id)
  }

  /** A poised request with nothing under way has room for any submission the gate lets past its checks. */
  lemma RoomWhenIdle(s: System, step: Step, id: RequestId)
    requires Sound(s) && StartsAsking(s, step, id) && Poised(s, id) && !Busy(s, id)
    ensures RoomFor(s, step, id)
  {
    PoisedSettles(s, id);
    IdleHasNoCapacity(s, id);
    assert forall t :: t in s.tasks ==> !InFlight(s.tasks[t], id);
    assert UnderWay(s, id) == {} && RejectsUnderWay(s, id) == {} && ApprovalsAsked(s, id) == {};
  }

  lemma {:induction false} SerializedKeepsPoised(steps: seq<Step>, id: RequestId, k: nat)
    requires Serialized(steps, id) && PositiveThreshold(steps, id) && k <= |steps|
    ensures id in Run(steps[..k]).requests ==> Poised(Run(steps[..k]), id)
  {
    if k == 0 {
    } else {
      assert steps[..k][..k - 1] == steps[..k - 1];
      SerializedKeepsPoised(steps, id, k - 1);
      EveryRunIsSound(steps[..k - 1]);
      if StartsAsking(Run(steps[..k - 1]), steps[k - 1], id) {
        RoomWhenIdle(Run(steps[..k - 1]), steps[k - 1], id);
      }
      PoisedStep(Run(steps[..k - 1]), steps[k - 1], id);
    }
  }

  lemma SerializedHasRoom(steps: seq<Step>, id: RequestId)
    requires Serialized(steps, id) && PositiveThreshold(steps, id)
    ensures RoomThroughout(steps, id)
  {
    forall i | 0 <= i < |steps| && StartsAsking(Run(steps[..i]), steps[i], id)
      ensures RoomFor(Run(steps[..i]), steps[i], id)
    {
      SerializedKeepsPoised(steps, id, i);
      EveryRunIsSound(steps[..i]);
      RoomWhenIdle(Run(steps[..i]), steps[i], id);
    }
  }

  /**
   When the submissions to a request are serialized, coroutines lose nothing: whatever becomes of those
   under way, and at once if there are none, the request is exactly as under atomic submissions.
   */
  lemma SerializedRunsAreExact(steps: seq<Step>, id: RequestId)
    requires Serialized(steps, id) && PositiveThreshold(steps, id)
    ensures RoomThroughout(steps, id)
    ensures var s := Run(steps);
            && (id in s.requests ==> EndsExactly(s, id))
            && (!Busy(s, id) ==> SettledAt(s, id))
            && (id !in s.requests ==> AnnouncedFor(s.announced, id) == [] && !Busy(s, id))
  {
    SerializedHasRoom(steps, id);
    assert steps[..|steps|] == steps;
    RoomKeepsPoised(steps, id, |steps|);
    EveryRunIsSound(steps);
    var s := Run(steps);
    if id in s.requests {
      EndsExactlyWhenPoised(s, id);
      if !Busy(s, id) {
        PoisedSettles(s, id);
      }
    } else {
      forall t | t in s.tasks ensures !InFlight(s.tasks[t], id) {
        assert TaskSound(s, s.tasks[t]);
      }
      if Announcements(s, id) > 0 {
        AnnouncedForFinds(s.announced, id, 0);
      }
    }
  }

  /** Every submission to `id` that gets past its checks is answered in the very next step. */
  ghost predicate NobodyAsked(steps: seq<Step>, id: RequestId) {
    forall i :: 0 <= i < |steps| - 1 && StartsAsking(Run(steps[..i]), steps[i], id)
                ==> steps[i + 1].PdpReplies? && steps[i + 1].task == steps[i].task
  }

  ghost predicate NeverMirrored(steps: seq<Step>, id: RequestId) {
    forall i :: 0 <= i < |steps| && steps[i].CreateRequest? && steps[i].id == id ==> !steps[i].mirrored
  }

  lemma StepKeepsUnmirrored(s: System, step: Step, id: RequestId)
    requires id in s.requests ==> !s.requests[id].mirrored
    requires step.CreateRequest? && step.id == id ==> !step.mirrored
    ensures id in Next(s, step).requests ==> !Next(s, step).requests[id].mirrored
  {
    if id in s.requests {
      StepEvolves(s, step);
      assert Grows(s.requests[id], Next(s, step).requests[id]);
    }
  }

  lemma {:induction false} StaysUnmirrored(steps: seq<Step>, id: RequestId, k: nat)
    requires NeverMirrored(steps, id) && k <= |steps|
    ensures id in Run(steps[..k]).requests ==> !Run(steps[..k]).requests[id].mirrored
  {
    if k == 0 {
    } else {
      assert steps[..k][..k - 1] == steps[..k - 1];
      StaysUnmirrored(steps, id, k - 1);
      StepKeepsUnmirrored(Run(steps[..k - 1]), steps[k - 1], id);
    }
  }

  /** Nobody but the submission that got past its checks in this step is under way after it. */
  ghost predicate TakesOffAlone(s: System, step: Step, id: RequestId) {
    StartsAsking(s, step, id) && UnderWay(Next(s, step), id) == {step.task}
  }

  lemma OnlyJoiningTakesOff(s: System, step: Step, id: RequestId, t: TaskId)
    requires t in Next(s, step).tasks && InFlight(Next(s, step).tasks[t], id)
    requires t in s.tasks ==> !InFlight(s.tasks[t], id)
    ensures StartsAsking(s, step, id)
  {
    assert step.Begin? && step.task == t;
  }

  lemma NextUnderWay(s: System, step: Step, id: RequestId)
    requires UnderWay(s, id) == {}
    ensures UnderWay(Next(s, step), id) == {} || TakesOffAlone(s, step, id)
  {
    var after := Next(s, step);
    if t :| t in UnderWay(after, id) {
      assert t !in UnderWay(s, id);
      OnlyJoiningTakesOff(s, step, id, t);
      TookOff(s, after, step.task, id);
    }
  }

  lemma AnswerLands(s: System, step: Step, reply: Step, id: RequestId)
    requires TakesOffAlone(s, step, id) && reply.PdpReplies? && reply.task == step.task
    requires !s.requests[id].mirrored
    ensures UnderWay(Next(Next(s, step), reply), id) == {}
  {
    var asked := Next(s, step);
    JoinedSets(s, step, id);
    if Passes(reply.pdp) {
      AnsweredAtOnce(asked, step.task, reply.pdp, reply.at, reply.jti, id);
    }
    Landed(asked, Next(asked, reply), step.task, id);
  }

  lemma RunTwoMore(steps: seq<Step>, k: nat)
    requires k + 2 <= |steps|
    ensures Run(steps[..k + 2]) == Next(Next(Run(steps[..k]), steps[k]), steps[k + 1])
  {
    assert steps[..k + 2][..k + 1] == steps[..k + 1] && steps[..k + 1][..k] == steps[..k];
  }

  lemma AnsweredNext(steps: seq<Step>, id: RequestId, k: nat)
    requires NobodyAsked(steps, id) && NeverMirrored(steps, id) && k + 2 <= |steps|
    requires TakesOffAlone(Run(steps[..k]), steps[k], id)
    ensures UnderWay(Run(steps[..k + 2]), id) == {}
  {
    StaysUnmirrored(steps, id, k);
    RunTwoMore(steps, k);
    AnswerLands(Run(steps[..k]), steps[k], steps[k + 1], id);
  }

  /** Then at most one submission is under way at a time, between its `Begin` and its reply. */
  lemma {:induction false} OneUnderWay(steps: seq<Step>, id: RequestId, k: nat)
    requires NobodyAsked(steps, id) && NeverMirrored(steps, id) && k <= |steps|
    ensures UnderWay(Run(steps[..k]), id) == {} || (k > 0 && TakesOffAlone(Run(steps[..k - 1]), steps[k - 1], id))
  {
    if k == 0 {
      assert UnderWay(IDLE, id) == {};
    } else {
      assert steps[..k][..k - 1] == steps[..k - 1];
      OneUnderWay(steps, id, k - 1);
      if UnderWay(Run(steps[..k - 1]), id) == {} {
        NextUnderWay(Run(steps[..k - 1]), steps[k - 1], id);
      } else {
        AnsweredNext(steps, id, k - 2);
      }
    }
  }

  /**
   So without a decision point and a mirror, which is how the gate is configured unless told otherwise,
   every run keeps the guarantees of the atomic gate.
   */
  lemma UnconfiguredRunsAreExact(steps: seq<Step>, id: RequestId)
    requires NobodyAsked(steps, id) && NeverMirrored(steps, id) && PositiveThreshold(steps, id)
    ensures Serialized(steps, id)
    ensures id in Run(steps).requests ==> EndsExactly(Run(steps), id)
    ensures !Busy(Run(steps), id) ==> SettledAt(Run(steps), id)
  {
    forall i | 0 <= i < |steps| && StartsAsking(Run(steps[..i]), steps[i], id) ensures !Busy(Run(steps[..i]), id) {
      OneUnderWay(steps, id, i);
      BusyMeansUnderWay(Run(steps[..i]), id);
    }
    SerializedRunsAreExact(steps, id);
  }

  // ---------------------------------------------------------------------
  // How many announcements there can be
  // ---------------------------------------------------------------------

  function Untallied(s: System, id: RequestId): set<TaskId> {
    set t | t in s.tasks && s.tasks[t].AwaitingSync? && s.tasks[t].id == id
  }

  function VotesIn(s: System, id: RequestId): nat {
    if id in s.requests then |s.requests[id].approvals| else 0
  }

  lemma RecordingKeepsBound(s: System, task: TaskId, pdp: Pdp, at: real, id: RequestId)
    requires task in s.tasks && s.tasks[task].AwaitingPdp? && s.tasks[task].id in s.requests
    ensures var after := RecordVote(s, task, pdp, at);
            && after.announced == s.announced
            && |Untallied(after, id)| - |Untallied(s, id)| == VotesIn(after, id) - VotesIn(s, id)
  {
    var after := RecordVote(s, task, pdp, at);
    if Passes(pdp) && s.tasks[task].id == id {
      assert Untallied(after, id) == Untallied(s, id) + {task};
    } else {
      assert Untallied(after, id) == Untallied(s, id);
    }
  }

  lemma TallyingFreesOne(s: System, task: TaskId, jti: string, id: RequestId)
    requires task in s.tasks && s.tasks[task].AwaitingSync? && s.tasks[task].id in s.requests
    ensures |Untallied(TallyVotes(s, task, jti), id)| == |Untallied(s, id)| - if s.tasks[task].id == id then 1 else 0
  {
    var after := TallyVotes(s, task, jti);
    if s.tasks[task].id == id {
      assert task in Untallied(s, id);
      assert Untallied(after, id) == Untallied(s, id) - {task};
    } else {
      assert Untallied(after, id) == Untallied(s, id);
    }
  }

  lemma TallyingKeepsBound(s: System, task: TaskId, jti: string, id: RequestId)
    requires task in s.tasks && s.tasks[task].AwaitingSync? && s.tasks[task].id in s.requests
    ensures var after := TallyVotes(s, task, jti);
            && VotesIn(after, id) == VotesIn(s, id)
            && Announcements(after, id) + |Untallied(after, id)| <= Announcements(s, id) + |Untallied(s, id)|
  {
    TallyingFreesOne(s, task, jti, id);
    TallyAnnounces(s, task, jti, id);
  }

  lemma OtherStepsLeaveTallies(s: System, step: Step, id: RequestId)
    requires !step.PdpReplies? && !step.SyncReturns?
    ensures Untallied(Next(s, step), id) == Untallied(s, id) && Next(s, step).announced == s.announced
  {
  }

  lemma StepKeepsBound(s: System, step: Step, id: RequestId)
    requires Announcements(s, id) + |Untallied(s, id)| <= VotesIn(s, id)
    ensures var after := Next(s, step);
            Announcements(after, id) + |Untallied(after, id)| <= VotesIn(after, id)
  {
    var after := Next(s, step);
    if after != s {
      if step.PdpReplies? {
        var recorded := RecordVote(s, step.task, step.pdp, step.at);
        RecordingKeepsBound(s, step.task, step.pdp, step.at, id);
        if Passes(step.pdp) {
          TallyingKeepsBound(recorded, step.task, step.jti, id);
        }
      } else if step.SyncReturns? {
        TallyingKeepsBound(s, step.task, step.jti, id);
      } else {
        OtherStepsLeaveTallies(s, step, id);
      }
    }
  }

  /** Each announcement of a request is owed to a recorded vote of its own, under any interleaving. */
  lemma {:induction false} AnnouncementsBoundedByVotes(steps: seq<Step>, id: RequestId)
    ensures var s := Run(steps);
            Announcements(s, id) + |Untallied(s, id)| <= VotesIn(s, id)
  {
    if steps == [] {
      assert Untallied(IDLE, id) == {};
    } else {
      AnnouncementsBoundedByVotes(steps[..|steps| - 1], id);
      StepKeepsBound(Run(steps[..|steps| - 1]), steps[|steps| - 1], id);
    }
  }

  // ---------------------------------------------------------------------
  // One submission on its own
  // ---------------------------------------------------------------------

  /** What the decision point's answer, the mirror's return and the push make of a submission, uninterrupted. */
  lemma AnsweredIsAtomic(s: System, task: TaskId, pdp: Pdp, jti: string, at: real)
    requires task in s.tasks && s.tasks[task].AwaitingPdp? && s.tasks[task].id in s.requests && Passes(pdp)
    requires s.requests[s.tasks[task].id].state == Pending
    ensures var t := s.tasks[task];
            var request := s.requests[t.id];
            var votes := request.approvals + [Vote(t.approver, t.ballot, at, pdp)];
            var outcome := Tally(votes, request.required, t.ballot);
            var after := request.(approvals := votes, state := Settle(Pending, outcome));
            Next(Next(Next(s, PdpReplies(task, pdp, at, jti)), SyncReturns(task, jti)), PushReturns(task))
            == System(s.requests[t.id := after], s.tasks[task := Finished(Ok(StatusOf(after)))],
                      s.announced + if outcome == Open then [] else
                                      [Announcement(t.id, outcome, Ssf.Token(jti, ClaimsFor(after, outcome), []))])
  {
    var t := s.tasks[task];
    var request := s.requests[t.id];
    var votes := request.approvals + [Vote(t.approver, t.ballot, at, pdp)];
    var recorded := RecordVote(s, task, pdp, at);
    assert recorded == System(s.requests[t.id := request.(approvals := votes)],
                              s.tasks[task := AwaitingSync(t.id, t.ballot)], s.announced);
    var tallied := TallyVotes(recorded, task, jti);
    assert Next(Next(s, PdpReplies(task, pdp, at, jti)), SyncReturns(task, jti)) == tallied;
    assert s.announced + [] == s.announced;
  }

  /** The later steps of a submission that has been refused, one way or the other, do nothing. */
  lemma RefusedIsAtomic(s: System, task: TaskId, pdp: Pdp, jti: string, at: real)
    requires task in s.tasks
    requires s.tasks[task].Finished?
             || (s.tasks[task].AwaitingPdp? && s.tasks[task].id in s.requests && !Passes(pdp))
    ensures Next(Next(Next(s, PdpReplies(task, pdp, at, jti)), SyncReturns(task, jti)), PushReturns(task))
            == if s.tasks[task].Finished? then s else s.(tasks := s.tasks[task := Finished(Err(Forbidden))])
  {
  }

  /** All the steps of one submission, back to back. */
  function Uninterrupted(s: System, task: TaskId, id: RequestId, approver: string, ballot: Ballot,
                         pdp: Pdp, jti: string, now: real, at: real): System
  {
    Next(Next(Next(Next(s, Begin(task, id, approver, ballot, now)), PdpReplies(task, pdp, at, jti)),
              SyncReturns(task, jti)), PushReturns(task))
  }

  /** The effects of the atomic submission on requests and announcements. */
  lemma AtomicEffects(w: World, id: RequestId, approver: string, ballot: Ballot, pdp: Pdp, jti: string,
                      now: real, at: real)
    ensures var atomic := Apply(w, Submit(id, approver, ballot, pdp, jti, now, at));
            if id !in w.requests then atomic == w
            else
              var (request, _, outcome) := Submitted(w.requests[id], approver, ballot, pdp, now, at);
              && atomic.requests == w.requests[id := request]
              && atomic.announced == w.announced + if outcome == Open then [] else
                                       [Announcement(id, outcome, Ssf.Token(jti, ClaimsFor(request, outcome), []))]
  {
  }

  lemma BeginAdmits(s: System, task: TaskId, id: RequestId, approver: string, ballot: Ballot, now: real)
    requires task !in s.tasks && id in s.requests
    ensures var (request, suspended) := Admitted(s.requests[id], id, approver, ballot, now);
            && Next(s, Begin(task, id, approver, ballot, now))
               == System(s.requests[id := request], s.tasks[task := suspended], s.announced)
            && (suspended.AwaitingPdp? ==> request == s.requests[id] && request.state == Pending)
  {
  }

  /** What a submission that got past its checks, and its decision, comes to. */
  function AtomicEnd(s: System, task: TaskId, id: RequestId, request: Request, answer: Result<Status, Error>,
                     outcome: Outcome, jti: string): System
  {
    System(s.requests[id := request], s.tasks[task := Finished(answer)],
           s.announced + if outcome == Open then [] else
                           [Announcement(id, outcome, Ssf.Token(jti, ClaimsFor(request, outcome), []))])
  }

  lemma AdmittedEffects(s: System, task: TaskId, id: RequestId, approver: string, ballot: Ballot,
                        pdp: Pdp, jti: string, at: real)
    requires id in s.requests && s.requests[id].state == Pending && Passes(pdp)
    ensures var votes := s.requests[id].approvals + [Vote(approver, ballot, at, pdp)];
            var outcome := Tally(votes, s.requests[id].required, ballot);
            var after := s.requests[id].(approvals := votes, state := Settle(Pending, outcome));
            var s1 := System(s.requests[id := s.requests[id]], s.tasks[task := AwaitingPdp(id, approver, ballot)],
                             s.announced);
            Next(Next(Next(s1, PdpReplies(task, pdp, at, jti)), SyncReturns(task, jti)), PushReturns(task))
            == AtomicEnd(s, task, id, after, Ok(StatusOf(after)), outcome, jti)
  {
    var s1 := System(s.requests[id := s.requests[id]], s.tasks[task := AwaitingPdp(id, approver, ballot)],
                     s.announced);
    AnsweredIsAtomic(s1, task, pdp, jti, at);
  }

  /** The effects of the uninterrupted one on a request that exists. */
  lemma UninterruptedEffects(s: System, task: TaskId, id: RequestId, approver: string, ballot: Ballot,
                             pdp: Pdp, jti: string, now: real, at: real)
    requires task !in s.tasks && id in s.requests
    ensures var (request, answer, outcome) := Submitted(s.requests[id], approver, ballot, pdp, now, at);
            Uninterrupted(s, task, id, approver, ballot, pdp, jti, now, at)
            == AtomicEnd(s, task, id, request, answer, outcome, jti)
  {
    var (request, suspended) := Admitted(s.requests[id], id, approver, ballot, now);
    BeginAdmits(s, task, id, approver, ballot, now);
    if suspended.AwaitingPdp? && Passes(pdp) {
      AdmittedEffects(s, task, id, approver, ballot, pdp, jti, at);
    } else {
      RefusedIsAtomic(Next(s, Begin(task, id, approver, ballot, now)), task, pdp, jti, at);
      assert s.announced + [] == s.announced;
    }
  }

  /** So they are the atomic submission, with its effects and its answer. */
  lemma UninterruptedIsAtomic(s: System, task: TaskId, id: RequestId, approver: string, ballot: Ballot,
                              pdp: Pdp, jti: string, now: real, at: real, receivers: Ssf.Registry)
    requires task !in s.tasks
    ensures var end := Uninterrupted(s, task, id, approver, ballot, pdp, jti, now, at);
            var atomic := Apply(World(s.requests, receivers, s.announced),
                                Submit(id, approver, ballot, pdp, jti, now, at));
            var answer := if id !in s.requests then Err(NotFound)
                          else Submitted(s.requests[id], approver, ballot, pdp, now, at).1;
            && end.requests == atomic.requests && end.announced == atomic.announced
            && end.tasks == s.tasks[task := Finished(answer)]
  {
    AtomicEffects(World(s.requests, receivers, s.announced), id, approver, ballot, pdp, jti, now, at);
    if id in s.requests {
      UninterruptedEffects(s, task, id, approver, ballot, pdp, jti, now, at);
    } else {
      RefusedIsAtomic(Next(s, Begin(task, id, approver, ballot, now)), task, pdp, jti, at);
    }
  }

  // ---------------------------------------------------------------------
  // Races
  // ---------------------------------------------------------------------

  /** Two submissions to a new request that both pass their checks before either is recorded. */
  function TwoUnderWay(request: Request, id: RequestId, first: string, a: Ballot, second: string, b: Ballot): System {
    System(map[id := request], map[0 := AwaitingPdp(id, first, a), 1 := AwaitingPdp(id, second, b)], [])
  }

  lemma TwoCanBeUnderWay(request: Request, id: RequestId, first: string, a: Ballot, second: string, b: Ballot)
    returns (steps: seq<Step>)
    requires request.approvals == [] && request.state == Pending
    ensures Run(steps) == TwoUnderWay(request, id, first, a, second, b)
  {
    var r := request;
    var create := CreateRequest(id, r.agent, r.did, r.organization, r.required, r.mirrored, r.expiresAt);
    var one, two := Begin(0, id, first, a, r.expiresAt), Begin(1, id, second, b, r.expiresAt);
    var s0 := System(map[id := r], map[], []);
    var s1 := System(map[id := r], map[0 := AwaitingPdp(id, first, a)], []);
    steps := [] + [create] + [one] + [two];
    RunAppend([], create);
    assert Next(IDLE, create) == s0;
    RunAppend([] + [create], one);
    assert Next(s0, one) == s1;
    RunAppend([] + [create] + [one], two);
    assert Next(s1, two) == TwoUnderWay(request, id, first, a, second, b);
  }

  /** A submission whose reply arrives and which is tallied right after. */
  function Cast(s: System, task: TaskId, jti: string): System {
    Next(Next(s, PdpReplies(task, YES, 0.0, jti)), SyncReturns(task, jti))
  }

  lemma CastDecides(s: System, task: TaskId, jti: string)
    requires task in s.tasks && s.tasks[task].AwaitingPdp? && s.tasks[task].id in s.requests
    ensures var t := s.tasks[task];
            var request := s.requests[t.id];
            var votes := request.approvals + [Vote(t.approver, t.ballot, 0.0, YES)];
            var outcome := Tally(votes, request.required, t.ballot);
            outcome != Open ==>
              Cast(s, task, jti)
              == System(s.requests[t.id := request.(approvals := votes, state := Settle(request.state, outcome))],
                        s.tasks[task := Announcing(t.id, ApproveCount(votes))],
                        s.announced + [Announcement(t.id, outcome, Ssf.Token(jti, ClaimsFor(request, outcome), []))])
  {
    var recorded := RecordVote(s, task, YES, 0.0);
    assert Cast(s, task, jti) == TallyVotes(recorded, task, jti) by {
      TallyLands(recorded, task, jti);
    }
  }

  /** An approval that completes the threshold and a reject, both under way, can both be announced, the reject last. */
  lemma GrantedThenRefused(s: System, t: TaskId, u: TaskId, id: RequestId, jti: string, later: string)
    requires id in s.requests && t in s.tasks && u in s.tasks
    requires s.tasks[t].AwaitingPdp? && s.tasks[t].id == id && s.tasks[t].ballot == Approve
    requires s.tasks[u].AwaitingPdp? && s.tasks[u].id == id && s.tasks[u].ballot == Reject
    requires ApproveCount(s.requests[id].approvals) + 1 >= s.requests[id].required
    ensures var end := Cast(Cast(s, t, jti), u, later);
            var before, history := AnnouncedFor(s.announced, id), AnnouncedFor(end.announced, id);
            && id in end.requests && end.requests[id].state == Rejected
            && |history| == |before| + 2
            && history[|before|].outcome == Granted && history[|before| + 1].outcome == Refused
  {
    var middle := Cast(s, t, jti);
    AppendVote(s.requests[id].approvals, Vote(s.tasks[t].approver, Approve, 0.0, YES));
    CastDecides(s, t, jti);
    assert middle.announced[..|s.announced|] == s.announced;
    CastDecides(middle, u, later);
    assert Cast(middle, u, later).announced[..|middle.announced|] == middle.announced;
  }

  lemma RunCast(steps: seq<Step>, task: TaskId, jti: string)
    ensures Run(steps + [PdpReplies(task, YES, 0.0, jti)] + [SyncReturns(task, jti)]) == Cast(Run(steps), task, jti)
  {
    RunAppend(steps, PdpReplies(task, YES, 0.0, jti));
    RunAppend(steps + [PdpReplies(task, YES, 0.0, jti)], SyncReturns(task, jti));
  }

  /** So with a threshold of one, a run can announce one new request as granted and then as refused. */
  lemma OneRequestAnnouncedBothWays(request: Request, id: RequestId, first: string, second: string)
    returns (steps: seq<Step>)
    requires request.approvals == [] && request.state == Pending && request.required == 1
    ensures id in Run(steps).requests && Run(steps).requests[id].state == Rejected
    ensures var history := AnnouncedFor(Run(steps).announced, id);
            |history| == 2 && history[0].outcome == Granted && history[1].outcome == Refused
  {
    steps := TwoCanBeUnderWay(request, id, first, Approve, second, Reject);
    var s := Run(steps);
    GrantedThenRefused(s, 0, 1, id, "", "");
    RunCast(steps, 0, "");
    steps := steps + [PdpReplies(0, YES, 0.0, "")] + [SyncReturns(0, "")];
    RunCast(steps, 1, "");
    steps := steps + [PdpReplies(1, YES, 0.0, "")] + [SyncReturns(1, "")];
  }

  /** Two approvals of one approver, both under way, can both be counted towards the threshold. */
  lemma TwinsApprove(s: System, t: TaskId, u: TaskId, id: RequestId)
    requires id in s.requests && t in s.tasks && u in s.tasks && t != u
    requires s.tasks[t].AwaitingPdp? && s.tasks[t].id == id && s.tasks[t].ballot == Approve
    requires s.tasks[u].AwaitingPdp? && s.tasks[u].id == id && s.tasks[u].ballot == Approve
    requires ApproveCount(s.requests[id].approvals) + 2 >= s.requests[id].required
    ensures var end := Cast(Next(s, PdpReplies(t, YES, 0.0, "")), u, "");
            id in end.requests
            && end.requests[id] == s.requests[id].(
                 state := Approved,
                 approvals := s.requests[id].approvals + [Vote(s.tasks[t].approver, Approve, 0.0, YES)]
                              + [Vote(s.tasks[u].approver, Approve, 0.0, YES)])
  {
    var vote, last := Vote(s.tasks[t].approver, Approve, 0.0, YES), Vote(s.tasks[u].approver, Approve, 0.0, YES);
    Recorded(s, t, 0.0, "");
    AppendVote(s.requests[id].approvals, vote);
    AppendVote(s.requests[id].approvals + [vote], last);
    CastDecides(Next(s, PdpReplies(t, YES, 0.0, "")), u, "");
  }

  lemma TwinsApproveAlone(s: System, t: TaskId, u: TaskId, id: RequestId, approver: string)
    requires id in s.requests && s.requests[id].approvals == [] && s.requests[id].required == 2
    requires t in s.tasks && s.tasks[t] == AwaitingPdp(id, approver, Approve)
    requires u in s.tasks && s.tasks[u] == AwaitingPdp(id, approver, Approve) && t != u
    ensures var end := Cast(Next(s, PdpReplies(t, YES, 0.0, "")), u, "");
            && id in end.requests && end.requests[id].state == Approved && end.requests[id].required == 2
            && forall i :: 0 <= i < |end.requests[id].approvals| ==> end.requests[id].approvals[i].approver == approver
  {
    TwinsApprove(s, t, u, id);
    var vote := Vote(approver, Approve, 0.0, YES);
    assert s.requests[id].approvals + [vote] + [vote] == [vote, vote];
  }

  /** So a run can approve a new request with a threshold of two on the votes of a single person. */
  lemma OneApproverCanCountTwice(request: Request, id: RequestId, approver: string) returns (steps: seq<Step>)
    requires request.approvals == [] && request.state == Pending && request.required == 2
    ensures id in Run(steps).requests
    ensures var end := Run(steps).requests[id];
            && end.state == Approved && end.required == 2
            && forall i :: 0 <= i < |end.approvals| ==> end.approvals[i].approver == approver
  {
    var joined := TwoCanBeUnderWay(request, id, approver, Approve, approver, Approve);
    var s, answered := Run(joined), joined + [PdpReplies(0, YES, 0.0, "")];
    RunAppend(joined, PdpReplies(0, YES, 0.0, ""));
    RunCast(answered, 1, "");
    steps := answered + [PdpReplies(1, YES, 0.0, "")] + [SyncReturns(1, "")];
    TwinsApproveAlone(s, 0, 1, id, approver);
  }
}

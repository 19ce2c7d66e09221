# Verified model of the Agent DID control plane

The control plane is mostly record keeping. Six of its parts are not: they are state machines,
arithmetic on clocks, or set algebra, and their promises are about whole runs rather than about single
calls. This project models those parts in Dafny and proves what they promise, for all inputs and all runs.

| file | models |
|---|---|
| RateLimiting.dfy | the sliding-window log and the Redis counter, what each admits, and when the two agree |
| SharedSignals.dfy | receiver registry, polling queues, filtered fan-out, push retry |
| ApprovalGate.dfy | the M-of-N approval gate with atomic steps, and its announcements as receivers see them |
| ApprovalInterleaving.dfy | the same gate as coroutines that interleave at their awaits |
| Lifecycle.dfy | the partly stored, partly derived agent lifecycle and all its writers |
| ActivationGates.dfy | the activation report, where it looks its facts up, and the one action it guards |
| PermissionMerge.dfy | the merge of grants and denials into a canonical list |
| Base64Url.dfy, SessionToken.dfy, KeyEncoding.dfy | unpadded base64url, session tokens, Base64urlUInt |
| FlowStore.dfy, JwksCache.dfy | one-shot sign-in flows, cached identity-provider keys, the search for a key |
| Migrations.dfy | startup migrations that may stop anywhere |

Code that changes stored state is a class whose methods are proved to do what a step function says; runs
are folds of the step functions, and the theorems are about runs. The clock is a real number read once per
`time` call; random identifiers, replies of other services and crashes are inputs.

What the code turned out to do, where that differs from what one might expect:

- An approved or rejected request is not final. A vote after its deadline marks it expired
  (`StateFollowsHistory`); its votes still tell what was decided (`VerdictRemembers`).
- Two overlapping votes of one approver can both count (`OneApproverCanCountTwice`). Approvers are safe from
  being counted twice at every moment of a run if and only if each has at most one submission with the
  decision point at any time (`OneAtATimeExactly`).
- Overlapping votes can announce a request more than once, even as granted and then as refused
  (`OneRequestAnnouncedBothWays`). How many announcements can still follow is a number read off the request
  and the submissions under way (`CapacityIsExact`). It is larger for a request that CAAS has taken up: the
  wait for the mirror (app/approval/gate.py:152, 236-245) lets several votes be recorded before the first of
  them is tallied, while without it each vote is tallied in the step that records it. A granted request can
  be announced again if and only if a submission is under way (`SecondAnnouncementExactly`).
- The submissions under way are bound to leave a request as atomic ones would if and only if that number and a
  few other facts permit (`EndsExactlyWhenPoised`), hence at every moment of a run if and only if there was
  room for each submission when it got past its checks (`RoomThroughoutExactly`). Serializing the submissions
  to a request is enough (`SerializedRunsAreExact`). So is the default configuration (app/config.py:29-32),
  with neither a decision point (app/authzen/pep_async.py:139-155) nor CAAS (app/approval/gate.py:215-217): a
  submission then does not suspend before it has announced (`UnconfiguredRunsAreExact`).
- For limits above one, the sliding window needs its calls in clock order: earlier readings handled late can
  let in calls too many. A limit of one keeps its bound in any order (`OrderNeededUnlessOne`).
- The window is open at one end: with both of its ends it can hold twice the limit
  (`IntervalBoundIsExact`, `ClosedIntervalHoldsTwice`).
- The Redis limiter renews its expiry on every attempt, so it admits the first `max` attempts after each pause
  and nothing else (`RedisAdmitsExactly`): a client that never pauses for a whole window is shut out for good
  (`RedisStarvesSteadyClient`). The two limiters agree on a run if and only if every call beyond those comes
  less than a window after the burst began (`LimitersAgreeExactly`).
- An archived or deleted agent that is submitted again shows as deprovisioned (`UpsertResetsState`).
  It leaves retirement only by a forced transition (`TransitionConsistency`) or by the `deprovision-children`
  action of its blueprint (`CascadeConsistency`). The cascade is also written for `disable`, but that route
  (app/main.py:868) is registered after another of the same path (app/main.py:571), so no request reaches it.
- Bulk quarantine of a blueprint quarantines no record, and makes suspended ones without a stored state active
  (`BulkQuarantineState`).
- The first stored lifecycle state hides everything under `extensions.lifecycle` from the activation report
  (`StoringAStateHidesExtensions`).
- `resume` reaches `active` without the activation report, out of quarantine too, where `activate` is refused
  whatever the record says (`OnlyActivateIsGated`).
- Invalidating the keys of an identity provider holds until they are asked for again if and only if no fetch is
  under way: one that is puts its keys back (`InvalidationHoldsExactly`).
- Columns added to the models after a table was created reach an existing database only for three columns
  of `api_keys` (`ModelsCoveredExactlyWhen`).

Where the documentation and the code differ, the model follows the code. docs/lifecycle-management.md draws an
arrow from deprovisioning to deprovisioned; the table has it, but no action leads there, only the deprovision
route, which does not consult the table (`DocumentedDiagram`).

## Model

| member | source | states |
|---|---|---|
| RateLimiting.InMemoryRateLimiter.Check | app/runtime.py:31-42 | the eviction loop, the decision and the append change only this key's bucket, as the step function says |
| RateLimiting.EvictionUnobservable | app/runtime.py:35-42 | every decision of a run equals that of a log that never evicts |
| RateLimiting.WindowBound | app/runtime.py:35-42 | an interval holds at most `max` admitted calls if it is shorter than the window, or as long but open at either end, such as the code's own (now - window, now] |
| RateLimiting.IntervalBoundIsExact | app/runtime.py:35-42 | for calls in clock order the bound holds of an interval if and only if it is one of those |
| RateLimiting.ClosedIntervalHoldsTwice | app/runtime.py:36 | with both ends an interval of the window's length holds at most twice `max` admitted calls, and some run fills it |
| RateLimiting.OrderNeededUnlessOne | app/runtime.py:32-42 | the bound holds of all runs, in any order, if and only if `max` is 1 |
| RateLimiting.KeysAreIndependent | app/runtime.py:34 | in a mixed run each key gets the answers it would get if it were alone |
| RateLimiting.WindowBoundPerKey | app/runtime.py:31-42 | the window bound for every key of a mixed run |
| RateLimiting.RetryAfterBound | app/runtime.py:39 | the advertised delay is at least 1, less than a second short of the true wait, and no longer than it when that is at least 1 |
| RateLimiting.RetryAdmittedExactlyAfterWait | app/runtime.py:35-42 | with no call in between, a retry is admitted if and only if the true wait has passed, hence always after the advertised delay plus one |
| RateLimiting.RedisRateLimiter.Check | app/runtime.py:63-82 | INCR and EXPIRE on every attempt, denial above `max`, other keys untouched |
| RateLimiting.RedisRefinesLog | app/runtime.py:63-82 | fed the same calls on one clock, every call Redis admits is admitted by the in-memory limiter, whatever Redis does at the instant of expiry |
| RateLimiting.RedisWindowBound | app/runtime.py:63-82 | so the Redis limiter keeps the window bound |
| RateLimiting.RedisAdmitsExactly | app/runtime.py:74-82 | in every run, in any order, a call is admitted if and only if one of the last `max` calls up to it came first or after a pause at which the key expired |
| RateLimiting.RedisStarvesSteadyClient | app/runtime.py:74-82 | so a client whose gaps have stayed below the window has call number i admitted if and only if i < max |
| RateLimiting.LogAdmitsAllExactly | app/runtime.py:35-42 | the log admits a whole run if and only if no call comes on top of `max` others in the window before it |
| RateLimiting.LimitersAgreeExactly | app/runtime.py:31-82 | the limiters give equal answers on a run if and only if every call beyond the first `max` of its burst comes less than a window after the burst began |
| RateLimiting.RedisIsStricter | app/runtime.py:31-82 | for every limit and window the log admits some call that Redis denies |
| SharedSignals.Emitter.RegisterReceiver | app/ssf/emitter.py:102-118 | a new receiver starts with an empty queue |
| SharedSignals.Emitter.DeregisterReceiver | app/ssf/emitter.py:129-132 | removes exactly that receiver, or reports that it is unknown |
| SharedSignals.Emitter.PollEvents | app/ssf/emitter.py:136-146 | hands out and clears the queue of that receiver |
| SharedSignals.Emitter.DeliverToAllReceivers | app/ssf/emitter.py:293-311 | the fan-out loop queues for each subscribed polling receiver and starts one push, to its endpoint and addressed to it, for each other subscribed one; subscribed to the event type that goes with the kind of claims |
| SharedSignals.Emitter.EmitAgentDeprovisioned | app/ssf/emitter.py:203-234 | reaches exactly the receivers of agent-deprovisioned events, in their queue or by a push |
| SharedSignals.Emitter.EmitSessionRevoked | app/ssf/emitter.py:237-260 | reaches exactly the receivers of session-revoked events, in their queue or by a push |
| SharedSignals.Emitter.EmitAgentStatusChange | app/ssf/emitter.py:263-286 | reaches exactly the receivers of agent-status-change events, in their queue or by a push |
| SharedSignals.PushEvent | app/ssf/emitter.py:323-348 | delivered if and only if one of three attempts is answered with a status below 400, stopping at the first; 1, 2 and 4 seconds of sleep after failures |
| SharedSignals.RegistryFollowsRegistrations | app/ssf/emitter.py:110-132 | the registry is exactly the registrations in force, unaltered |
| SharedSignals.ExactlyOnceDelivery | app/ssf/emitter.py:107-118 | for every run and live polling receiver, all polled batches followed by the queue are, in order, the subscribed events since registration, each addressed to that receiver alone |
| SharedSignals.ExactlyOncePush | app/ssf/emitter.py:302-311 | for every run and live receiver that does not poll, the pushes started are, in order, one for each subscribed event since registration; for one that polls, none |
| SharedSignals.PushReceiversQueueNothing | app/ssf/emitter.py:308-311 | a receiver that is pushed to never has anything to poll |
| ApprovalGate.Gate.CreateApprovalRequest | app/approval/gate.py:78-112 | refused if and only if the decision point denies and does not fail open, otherwise pending with no votes |
| ApprovalGate.Gate.SubmitApprovalDecision | app/approval/gate.py:115-173 | a whole submission: its checks in order, the vote, the tally, the announcement and the answer, which shows the request as it is afterwards |
| ApprovalGate.Gate.CastVote | app/approval/gate.py:145-173 | append, tally, settle and announce, with the status the caller is shown |
| ApprovalGate.Gate.GetApprovalStatus | app/approval/gate.py:176-192 | a read marks only a pending request past its deadline as expired, and shows state, threshold, number of approving votes and votes |
| ApprovalGate.SubmissionExactly | app/approval/gate.py:119-173 | which of the four refusals is answered exactly when, fail-open denials let through; a refusal changes nothing but a late request's state, and a vote let through is appended and settles the request as the approving votes with it say |
| ApprovalGate.ReadExactly | app/approval/gate.py:176-192 | a read changes the state of a request if and only if it is pending past its deadline |
| ApprovalGate.Gate.OnApproved | app/approval/gate.py:195-201 | announces an Active status change to the receivers |
| ApprovalGate.Gate.OnRejected | app/approval/gate.py:204-210 | announces a deprovisioned event to the receivers |
| ApprovalGate.SequentialExactness | app/approval/gate.py:115-181 | over every run with threshold at least 1: distinct and authorized approvers, votes open until the last one, state agreeing with the votes, and exactly one announcement per decided request |
| ApprovalGate.ThresholdMustBePositive | app/approval/gate.py:156-161 | a new request meets these guarantees if and only if its threshold is at least 1; below that any vote but a reject approves it |
| ApprovalGate.DecidedByTheLastVote | app/approval/gate.py:154-161 | pending means no reject and too few approvals; approved means exactly the threshold, no reject, an approval last; rejected means one reject, in last place |
| ApprovalGate.DecisionStandsUntilALateVote | app/approval/gate.py:119-123 | a state other than pending stays, with its votes, unless a vote arrives after the deadline, which makes it expired; so expired is absorbing |
| ApprovalGate.StateFollowsHistory | app/approval/gate.py:115-181 | the state is determined at every moment: expired after a late vote, else approved or rejected as the votes say, else expired after a late read, else pending |
| ApprovalGate.VerdictRemembers | app/approval/gate.py:145-161 | a request was ever approved, or ever rejected, if and only if its votes say so |
| ApprovalGate.RequestMatchesCreation | app/approval/gate.py:88-112 | a request exists if and only if its creation was let through, and keeps the data it was created with |
| ApprovalGate.ReceiversFollowSignalOps | app/approval/gate.py:195-210 | what the gate does to the receivers is a run of the emitter |
| ApprovalGate.AnnouncementsReachReceivers | app/ssf/emitter.py:293-311 | for a polling receiver subscribed throughout, the gate events delivered and pending are the gate's announcements in order |
| ApprovalGate.OneEventPerDecision | app/approval/gate.py:154-161 | those contain exactly one Active status change per request ever approved, exactly one deprovisioned event per request ever rejected, and nothing for any other, each with the agent, DID and organization given at creation |
| ApprovalInterleaving.EveryRunIsSound | app/approval/gate.py:115-173 | under any interleaving every recorded vote was authorized, approved requests have their quorum, rejected ones a reject vote, and every announcement its reason, its request's data and a request that is not pending |
| ApprovalInterleaving.RunsEvolve | app/approval/gate.py:115-181 | under any interleaving votes only accumulate and no request returns to pending |
| ApprovalInterleaving.StaysDistinctExactly | app/approval/gate.py:125-151 | no continuation that lets no further submission past its checks counts an approver twice, if and only if recorded approvers and those being asked about are all different |
| ApprovalInterleaving.OneAtATimeExactly | app/approval/gate.py:125-151 | that is so at every moment of a run if and only if no submission got past its checks while the decision point was asked about another of the same approver |
| ApprovalInterleaving.CapacityIsExact | app/approval/gate.py:145-161 | without further submissions k more announcements of a request can be reached if and only if k is at most, when the approvals recorded and asked about make up the threshold, the submissions under way, less for an unmirrored request the approvals it still takes to come one short of the threshold; and else the rejects under way |
| ApprovalInterleaving.AnnouncedOnceExactly | app/approval/gate.py:154-161 | a request, mirrored or not, is safe from being announced twice if and only if the announcements made and that number come to at most one |
| ApprovalInterleaving.SecondAnnouncementExactly | app/approval/gate.py:154-161 | a request announced as granted is announced again in some continuation of any kind if and only if a submission is under way; one announced as refused, if and only if a reject is, or a submission with the threshold in reach |
| ApprovalInterleaving.EndsExactlyWhenPoised | app/approval/gate.py:125-161 | every continuation that lets no further submission past its checks ends with all atomic guarantees, exactly one announcement per decision included, if and only if approvers are apart, no vote follows a verdict, and either there is no verdict, a reject asked about is the only one asked and at most one announcement was made or can follow, or there is one, nobody is asked any more and exactly one was made or will follow |
| ApprovalInterleaving.JoinKeepsPoisedExactly | app/approval/gate.py:125-138 | a submission that gets past its checks leaves it so if and only if there is no verdict yet, its approver is not being asked about, nobody else is asked about if it is a reject and no reject is if it is not, and at most one announcement was made or can then follow |
| ApprovalInterleaving.RoomThroughoutExactly | app/approval/gate.py:125-161 | at every moment of a run the submissions under way are bound to end as atomic ones would, if and only if that held of each submission to get past its checks and the threshold is at least 1 |
| ApprovalInterleaving.SerializedRunsAreExact | app/approval/gate.py:125-161 | so it is if no submission to a request gets past its checks while another is between its checks and its tally; whenever none is, all atomic guarantees hold |
| ApprovalInterleaving.UnconfiguredRunsAreExact | app/approval/gate.py:215-238 | every run of a request without decision point and mirror is of that kind |
| ApprovalInterleaving.GrantedThenRefused | app/approval/gate.py:154-161 | an approval that completes the threshold and a reject, both with the decision point, can be announced one after the other |
| ApprovalInterleaving.OneRequestAnnouncedBothWays | app/approval/gate.py:115-161 | a run announces a new request with threshold one as granted and then as refused |
| ApprovalInterleaving.AnnouncementsBoundedByVotes | app/approval/gate.py:145-161 | under any interleaving a request has at most one announcement per recorded vote |
| ApprovalInterleaving.UninterruptedIsAtomic | app/approval/gate.py:115-173 | the coroutine steps of one submission run back to back have the effects and the answer of the atomic one, whatever the request and the decision |
| ApprovalInterleaving.TwinsApprove | app/approval/gate.py:125-161 | two approvals of one approver, both with the decision point, can both be recorded and approve a request that lacks two |
| ApprovalInterleaving.OneApproverCanCountTwice | app/approval/gate.py:115-161 | a run approves a new request with threshold two on the votes of any one approver alone |
| Lifecycle.AgentRecord.SetLifecycleState | app/lifecycle.py:88-105 | stores the state, adjusts the status, stamps `deprovisioned_at` once |
| Lifecycle.Service.TransitionAgentLifecycle | app/lifecycle.py:219-236 | gates, table, dry run, then one row and one event; an answer for every outcome |
| Lifecycle.ActionsExactly | app/lifecycle.py:26-60 | for each of the eleven actions, the states it is carried out from without force, the state it leads to, the status it writes and whether it stamps; what is answered in every case, and that a first stamp is kept |
| Lifecycle.EdgesWithoutAction | app/lifecycle.py:26-40 | exactly three edges of the table are taken by no action: back to draft, to credentials_expired and to deprovisioned |
| Lifecycle.StateIsReadOff | app/lifecycle.py:76-85 | without a stored state a record is archived, deprovisioned, suspended or active, each exactly for certain columns |
| Lifecycle.Service.DeprovisionAgentRecord | app/main.py:748-781 | the deprovision route, which does not consult the table |
| Lifecycle.Service.DeprovisionRecord | app/services.py:799-825 | disables the record and stamps it anew |
| Lifecycle.Service.DeleteAgentRecord | app/main.py:841-851 | the delete route is a forced transition |
| Lifecycle.Service.UpsertRecord | app/services.py:715-797 | replaces the stored record, and with it the stored lifecycle state, but not `deprovisioned_at` |
| Lifecycle.Service.SetBlueprintEnabled | app/services.py:580-589 | the loop disables exactly the records of that blueprint and organization |
| Lifecycle.Service.QuarantineBlueprintChildren | app/main.py:662-671 | bulk quarantine overwrites the status of exactly those records and nothing else |
| Lifecycle.RetirementIsStamped | app/lifecycle.py:76-105 | over any run without forced transitions a record is deprovisioned, archived or deleted exactly when `deprovisioned_at` is set |
| Lifecycle.RetiredStaysRetired | app/lifecycle.py:26-40 | and it stays so, whatever upserts, transitions, routes, blueprint switches and bulk quarantines follow |
| Lifecycle.TransitionConsistency | app/lifecycle.py:108-113 | a transition breaks that agreement if and only if it is forced, carried out, and leads from a retired state to one that is not |
| Lifecycle.CascadeConsistency | app/main.py:888-895 | the cascade takes every child out of retirement, and so breaks that agreement of exactly the retired ones; of its two actions only `deprovision-children` can be reached |
| Lifecycle.DeprovisionRecordConsistency | app/services.py:799-825 | stamping alone keeps the agreement if and only if no stored state, or a retired one, is present |
| Lifecycle.StampIsKept | app/lifecycle.py:104-105 | over any run, forced transitions included, a stamp that is set is changed by the deprovision route only |
| Lifecycle.UpsertExactly | app/services.py:715-797 | when an upsert is accepted, in terms of payload and blueprint, and the row it leaves; a disabled blueprint makes any status acceptable |
| Lifecycle.SwitchGovernsUpserts | app/services.py:580-589 | what is submitted under a blueprint is disabled after the blueprint was, and keeps its status after it was enabled |
| Lifecycle.UpsertResetsState | app/services.py:761-784 | after an accepted upsert a retired record is deprovisioned, even from deleted, and any other is suspended or active by its status; no event records it |
| Lifecycle.UpsertKeepsTrailExactly | app/services.py:761-784 | an accepted upsert leaves a record's events a path to its state if and only if the record was already in the state it is reset to |
| Lifecycle.DisablingBlueprintState | app/services.py:585-587 | disabling a blueprint suspends exactly its active records without a stored state; a stored state stays |
| Lifecycle.DisablingKeepsTrailExactly | app/services.py:585-587 | disabling a blueprint breaks that path of exactly its active records without a stored state |
| Lifecycle.BulkQuarantineState | app/main.py:667-669 | bulk quarantine changes the state of exactly the suspended records without a stored state, which become active |
| Lifecycle.BulkQuarantineKeepsTrailExactly | app/main.py:667-669 | it breaks the path of exactly those records |
| Lifecycle.BulkQuarantineStatus | app/main.py:667-669 | it leaves status and stored state in agreement if and only if the record is not one of the blueprint's with a stored state that calls for a status |
| Lifecycle.StatusFollowsStoredState | app/lifecycle.py:88-105 | over any run without bulk quarantine, forced or not, a record stored as suspended, quarantined or on its way out has status disabled |
| Lifecycle.DocumentedDiagram | docs/lifecycle-management.md:15-20 | every documented agent arrow is in the table; no action leads to deprovisioned |
| Lifecycle.AuditedStep | app/lifecycle.py:227-236 | a failed or dry-run call changes nothing; any other writes one legal event and one row, answers with that event's two states, and leaves other records alone |
| Lifecycle.AuditTrailIsPath | app/lifecycle.py:197-236 | each record's events form one connected path from its initial to its current state, and unforced links are table edges or self-loops |
| ActivationGates.ValidationReport | app/lifecycle.py:116-179 | passed if and only if all thirteen gates are open; otherwise exactly the shut ones are listed, in order, once each |
| ActivationGates.ReportForRecord | app/lifecycle.py:116-179 | the same of the facts found in a record's document, each looked up where the code looks for it, with its defaults |
| ActivationGates.IdentityFacts | app/lifecycle.py:118-165 | what a document must hold for the facts on DID, verification methods, sponsors, owners and visibility |
| ActivationGates.ListedFacts | app/lifecycle.py:127-128 | of the lists of credentials and of permissions the first that is not empty counts, and it alone |
| ActivationGates.GovernanceFacts | app/lifecycle.py:160-172 | the same for endpoints, public documents, audit logging, on unless switched off, and revocation |
| ActivationGates.RiskFacts | app/lifecycle.py:124-171 | the risk score is 0 and the threshold 80 unless the lifecycle object, the extensions or the policy say otherwise, in that precedence |
| ActivationGates.StateFact | app/lifecycle.py:76-85 | the state is looked up in the document's own lifecycle object alone |
| ActivationGates.StoringAStateHidesExtensions | app/lifecycle.py:88-92 | after a state is stored the report is that of a document without the lifecycle object of its extensions, if the document had none of its own; otherwise nothing but the state changes |
| ActivationGates.OwnersLostExactly | app/lifecycle.py:122-124 | storing a state takes the owners away if and only if only that object names any |
| ActivationGates.ActiveCredentials | app/lifecycle.py:142-152 | the credentials of usable status not known to have expired, with a warning for each expiry that does not parse |
| ActivationGates.ActivateAgentRecord | app/lifecycle.py:219-236 | the activate action decides on the gates of the facts found in the record's document and the record as it is, and changes nothing else |
| ActivationGates.OnlyActivateIsGated | app/lifecycle.py:226-229 | without force, `activate` moves a record if and only if the gates are open for the facts found in its document and the table allows it, hence never out of quarantine; `resume` reaches active if and only if the table allows it, out of quarantine too |
| PermissionMerge.MergeGrants | app/services.py:672-680 | a scope or role is listed if and only if some grant gives it and no denial takes it; the list is canonical, in the order of `Before` |
| PermissionMerge.Sorted | app/services.py:680 | the elements of a set in ascending order: a proper prefix first, else by the lower code point where two names first differ |
| PermissionMerge.LessIsBefore | app/services.py:680 | comparing character by character decides that order |
| PermissionMerge.CanonicalIsUnique | app/services.py:680 | strictly sorted lists without empty entries that mean the same are equal |
| PermissionMerge.MergeIgnoresOrderAndRepetition | app/services.py:674-679 | reordering or repeating grants and denials does not change the output |
| PermissionMerge.SplitGrantSameMeaning | app/services.py:674-676 | nor does splitting one grant into two |
| PermissionMerge.MergeDependsOnMeaning | app/services.py:672-680 | inputs that mean the same merge to the same list |
| PermissionMerge.MergeOfMerges | app/services.py:672-680 | merge(merge(A,D) + merge(B,D), D) = merge(A + B, D) |
| PermissionMerge.DenyInStages | app/services.py:677-679 | merge(merge(A,D), D') = merge(A, D + D') |
| PermissionMerge.MergeIsMonotone | app/services.py:672-680 | monotone in the grants, antitone in the denials |
| Base64Url.EncodingShape | app/security.py:37-38 | the stripped text is URL-safe, of length (8n+5)/6, and differs from the padded one by the padding its length calls for |
| Base64Url.UnpaddedRoundTrip | app/security.py:37-43 | stripping the padding and restoring it by `-len % 4` is the identity on all byte strings (section 5 of RFC 4648) |
| Base64Url.TextIsSextets | app/security.py:37-38 | each character stands, in the URL-safe alphabet, for the next six bits of the bytes, the last ones filled up with zeros (section 5 of RFC 4648) |
| SessionToken.TokenSplits | app/security.py:61 | the first dot of a token recovers both parts |
| SessionToken.AcceptedExactly | app/security.py:59-74 | for any text: accepted with a body if and only if what follows the first dot decodes to the MAC, under the secret, of what precedes it, and this decodes to that body, with an expiry not below the truncated now |
| SessionToken.RejectedExactly | app/security.py:59-74 | rejected, rather than raising, if and only if there is no dot, or the signature decodes and is another, or the body decodes and has expired |
| SessionToken.TokenUnderAnySecret | app/security.py:46-74 | a created token is accepted under a secret if and only if that secret gives its body the same MAC and the truncated now is at most the truncated expiry, and rejected otherwise |
| SessionToken.TokenRoundTrip | app/security.py:46-74 | hence under its own until then, with the payload's entries as they were, and iat and exp as stamped |
| SessionToken.TokenLifetime | app/security.py:46-74 | accepted up to issue time plus ttl, rejected from a second later on, both truncations included |
| KeyEncoding.ToBytesRoundTrip | app/routers/discovery.py:153-157 | the computed length always fits, loses nothing, and starts with a nonzero octet |
| KeyEncoding.ByteLengthIsMinimal | app/routers/discovery.py:154 | no shorter octet string has that value, and any other one is this behind zero octets (section 6.3.1.1 of RFC 7518) |
| KeyEncoding.IntegerRoundTrip | app/routers/discovery.py:153-157 | decoding the published text returns the integer |
| KeyEncoding.EncodingIsInjective | app/routers/discovery.py:153-157 | different integers have different texts |
| FlowStore.PendingFlows.StoreFlow | app/auth/oidc.py:379-391 | stores with an expiry of 600 seconds, then purges |
| FlowStore.PendingFlows.ConsumeFlow | app/auth/oidc.py:394-410 | removes the flow whatever the answer is |
| FlowStore.PendingFlows.PurgeExpiredFlows | app/auth/oidc.py:413-417 | the purge removes exactly the expired entries |
| FlowStore.AnswerExactly | app/auth/oidc.py:379-417 | the answer in every run, whatever the clock did: unknown unless the last operation on the state stored a flow that no purge since has found expired, then expired or that flow |
| FlowStore.PurgeIsUnobservable | app/auth/oidc.py:413-417 | every answer is that of a store never purged, except that a flow swept away by such a purge is called unknown instead of expired |
| FlowStore.ConsumeMeaning | app/auth/oidc.py:379-410 | accepted if and only if the last operation on the state stored a flow at most 600 seconds ago, and that flow is returned |
| FlowStore.EachFlowConsumedOnce | app/auth/oidc.py:399 | two accepted consumers were served by two different stores |
| JwksCache.Cache.Consult | app/auth/oidc.py:84-88 | answers from the cache only while the entry is younger than 3600 seconds |
| JwksCache.Cache.Remember | app/auth/oidc.py:89-91 | afterwards the keys are found if and only if less than 3600 seconds have passed since the clock read before the fetch; other issuers see no change |
| JwksCache.Cache.InvalidateJwksCache | app/auth/oidc.py:94-95 | afterwards the issuer has to be fetched again; other issuers see no change |
| JwksCache.CacheHitsAreFresh | app/auth/oidc.py:82-95 | under any interleaving at the fetch, keys served from the cache come from a finished fetch for that issuer that started less than 3600 seconds ago |
| JwksCache.LookupExactly | app/auth/oidc.py:82-95 | the answer to a lookup in every run: the keys of the last fetch to return for the issuer, unless it was invalidated since or 3600 seconds have passed since the clock was read before that fetch |
| JwksCache.HitsExactly | app/auth/oidc.py:84-88 | the calls served from the cache are, in order, exactly those made at such a moment |
| JwksCache.FetchesExactly | app/auth/oidc.py:84-91 | a task is suspended in a fetch exactly from a call that found nothing until that fetch returns or fails |
| JwksCache.HitAfterInvalidation | app/auth/oidc.py:82-95 | a hit after an invalidation serves the keys of the last fetch to return for the issuer since, and that fetch began before the invalidation if and only if it was under way then |
| JwksCache.InvalidationHoldsExactly | app/auth/oidc.py:82-95 | whatever happens until the issuer is asked for again, nothing is served from the cache, if and only if no fetch for it was under way when it was invalidated |
| JwksCache.ValidateIdToken | app/auth/oidc.py:261-322 | each of the five verdicts exactly when it is returned: the first key that does not fail settles the first pass, where an expired token, another nonce and an `iat` more than 300 seconds ahead are refused in that order; the second pass runs if and only if every key failed otherwise, and takes the first key under which the token decodes |
| Migrations.Engine.MigrateDatabase | app/migrations.py:91-106 | the loop over revisions, stopping at any point, with any of a revision's tables created or columns added |
| Migrations.ChangeIsIdempotent | app/migrations.py:51-78 | making a change again leaves the schema unchanged |
| Migrations.ChangeResumes | app/migrations.py:51-78 | a change stopped part way and made again ends where it would have |
| Migrations.StopsLeaveAnyPart | app/migrations.py:51-78 | what a process stopped inside a change can leave is any part of the change, by whole tables and single columns, and nothing else |
| Migrations.StartsExactly | app/migrations.py:100-105 | revision functions are started once for each mark and once more for each process that stopped inside one |
| Migrations.MarksAreAPrefix | app/migrations.py:101-105 | over any number of interrupted runs the marks are a prefix of the four revisions, none made twice |
| Migrations.CompleteRunConverges | app/migrations.py:91-106 | after one complete run the schema is that of an uninterrupted migration, whatever crashed before |
| Migrations.LaterRunsDoNothing | app/migrations.py:101-105 | and later runs start no revision function and change nothing |
| Migrations.MigratedSchema | app/migrations.py:51-78 | missing tables are created whole, `api_keys` gains role, revoked_at and last_used_at, no other existing table gains any |
| Migrations.ModelsCoveredExactlyWhen | app/migrations.py:91-106 | the models are covered if and only if the tables that existed lacked nothing but those three columns |

## Left out

- HTTP, database and framework plumbing: tables are maps, one key stands for both ways of finding a record, and a method is one transaction.
- Threads in the limiter: the clock is read before the lock is taken (app/runtime.py:32), so threads could call out of clock order; the window bound is proved for calls in order, as the single event loop makes them, and `OrderNeededUnlessOne` says what is left of it otherwise.
- A rate limit below one request: with an empty bucket the code would fail on `bucket[0]`, so `max >= 1` is required; the Redis fail-open paths (no client, exception) are not modelled.
- ApprovalGate.SequentialExactness: thresholds below one are excluded, exactly as `ThresholdMustBePositive` says; the interleaving theorems about soundness, growth and distinct approvers are for any threshold.
- The CAAS mirror of requests and votes: what is sent there and what it answers, as its failures are swallowed; that votes wait for it is modelled. Comments, creation times and delivery timestamps are not kept.
- A push that starts no request does not suspend; here it may, which nothing but the status shown to the caller can tell.
- ApprovalGate.OneEventPerDecision: other callers of the emitter are assumed not to use the gate's two reasons, which holds of the SCIM routes.
- The order in which one fan-out starts its pushes: they run at the same time, and are a map by receiver.
- Bulk deprovision and the blueprint cascade (app/main.py:651-660, 888-895) as steps of a run: they bypass the table; `DeprovisionRecordConsistency` and `CascadeConsistency` say for each record when they are harmless.
- Lifecycle.AuditTrailIsPath: upserts, blueprint switches and bulk quarantine are not steps of its runs, since they change the state without an event; `UpsertKeepsTrailExactly`, `DisablingKeepsTrailExactly` and `BulkQuarantineKeepsTrailExactly` say when the path survives each.
- The copy of the state inside the stored agent object, `updated_at`, and the general audit log.
- The recommendation texts of the activation report, and malformed JSON in a record: lists hold what they should, and of a permission's status only its meaning is kept.
- JSON, HMAC and JWT internals: parameters, of which only that JSON decoding undoes encoding is assumed. Whether a MAC can be forged is not part of this model.
- SessionToken.TokenRoundTrip: Python's lenient base64 decoder and an `exp` given as text are modelled only as far as created tokens need.
- KeyEncoding.IntegerRoundTrip: for zero the code yields the empty text where section 2 of RFC 7518 asks for one zero octet; RSA integers are positive.
- Concurrent migration processes, and `_blueprint_alignment_upgrade`, which no revision uses.
- Reading effective permissions from the database (app/services.py:657-667): it uses columns the table models lack. SCIM, SAML, discovery documents, API keys, the SDK, the command line and the web pages.

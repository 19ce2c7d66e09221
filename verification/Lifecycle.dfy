/**
 The agent lifecycle: a state that is partly stored in the record and partly derived
 from its columns, and every writer that touches either part.
 */
module Lifecycle {
  import opened Prelude

  datatype State =
    | Draft | PendingReview | Approved | Active | Suspended | Quarantined | CredentialsExpired
    | PendingRotation | PendingRenewal | Deprovisioning | Deprovisioned | Archived | Deleted

  datatype Action =
    | SubmitReview | Approve | Activate | Suspend | Resume | Quarantine
    | Renew | RotateCredentials | Deprovision | Archive | Delete

  /** The texts of the `status` column: submitted records may say "quarantine", bulk quarantine writes "quarantined". */
  datatype Status =
    IsActive | IsEnabled | IsDisabled | IsQuarantine | IsQuarantined | IsSuspended | IsArchived | IsDeprovisioned

  /** A row of agent_records: the stored lifecycle state, if any, and the columns it is otherwise derived from. */
  datatype Row = Row(
    explicitState: Option<State>, status: Status, blueprint: Option<string>, deprovisionedAt: Option<real>)

  /** A row is found by id or by organization and DID; neither ever changes, so one key serves for both. */
  datatype Key = Key(organization: string, did: string)

  datatype How = ByAction(action: Action, forced: bool) | ByDeprovisionRoute

  datatype Event = Event(key: Key, previous: State, next: State, how: How)

  datatype BlueprintKey = BlueprintKey(organization: string, blueprint: string)

  datatype BlueprintStatus = BlueprintActive | BlueprintDisabled | BlueprintDeleted | BlueprintOther

  datatype Db = Db(rows: map<Key, Row>, blueprints: map<BlueprintKey, BlueprintStatus>, events: seq<Event>)

  const RETIRED: set<State> := {Deprovisioned, Archived, Deleted}

  // ---------------------------------------------------------------------
  // Tables and pure functions
  // ---------------------------------------------------------------------

  function Transitions(s: State): set<State> {
    match s
    case Draft => {PendingReview, Approved, Active, Archived, Deleted}
    case PendingReview => {Approved, Draft, Quarantined, Archived, Deleted}
    case Approved => {Active, PendingReview, Archived, Deleted}
    case Active =>
      {Suspended, Quarantined, CredentialsExpired, PendingRotation, PendingRenewal, Deprovisioning, Archived}
    case Suspended => {Active, Quarantined, PendingRenewal, Deprovisioning, Archived}
    case Quarantined => {Suspended, Active, Deprovisioning, Archived}
    case CredentialsExpired => {PendingRotation, PendingRenewal, Suspended, Deprovisioning}
    case PendingRotation => {Active, Suspended, Quarantined, Deprovisioning}
    case PendingRenewal => {Active, Suspended, Quarantined, Deprovisioning}
    case Deprovisioning => {Deprovisioned, Suspended}
    case Deprovisioned => {Archived}
    case Archived => {Deleted}
    case Deleted => {}
  }

  function Target(action: Action): State {
    match action
    case SubmitReview => PendingReview
    case Approve => Approved
    case Activate => Active
    case Suspend => Suspended
    case Resume => Active
    case Quarantine => Quarantined
    case Renew => PendingRenewal
    case RotateCredentials => PendingRotation
    case Deprovision => Deprovisioning
    case Archive => Archived
    case Delete => Deleted
  }

  function StateOf(row: Row): State {
    if row.explicitState.Some? then row.explicitState.value
    else if row.deprovisionedAt.Some? || row.status == IsDeprovisioned || row.status == IsArchived then
      if row.status == IsArchived then Archived else Deprovisioned
    else if row.status == IsDisabled || row.status == IsSuspended then Suspended
    else Active
  }

  function WithState(row: Row, s: State, now: real): Row {
    row.(explicitState := Some(s),
         status := if s == Active then IsEnabled
                   else if s in {Suspended, Quarantined, Deprovisioning} + RETIRED then IsDisabled
                   else row.status,
         deprovisionedAt := if s in RETIRED && row.deprovisionedAt.None? then Some(now) else row.deprovisionedAt)
  }

  predicate Permitted(previous: State, next: State, force: bool) {
    previous == next || next in Transitions(previous) || force
  }

  // ---------------------------------------------------------------------
  // The writers, as functions of the database
  // ---------------------------------------------------------------------

  datatype Answer =
    | NotFound | GatesFailed | InvalidTransition
    | DryRun(previous: State, next: State)
    | Moved(previous: State, next: State)

  /** `gates` is the verdict of the activation report, consulted only for Activate. */
  function Transition(db: Db, key: Key, action: Action, gates: bool, force: bool, dryRun: bool, now: real)
    : (Db, Answer)
  {
    if key !in db.rows then (db, NotFound) else
      var previous, next := StateOf(db.rows[key]), Target(action);
      if action == Activate && !gates && !force then (db, GatesFailed)
      else if !Permitted(previous, next, force) then (db, InvalidTransition)
      else if dryRun then (db, DryRun(previous, next))
      else (db.(rows := db.rows[key := WithState(db.rows[key], next, now)],
                events := db.events + [Event(key, previous, next, ByAction(action, force))]),
            Moved(previous, next))
  }

  function DeprovisionedRow(row: Row, now: real): Row {
    row.(status := IsDisabled, deprovisionedAt := Some(now))
  }

  function DeprovisionRoute(db: Db, key: Key, dryRun: bool, now: real, later: real): (Db, Answer) {
    if key !in db.rows then (db, NotFound) else
      var previous := StateOf(db.rows[key]);
      if dryRun then (db, DryRun(previous, Deprovisioning))
      else (db.(rows := db.rows[key := WithState(DeprovisionedRow(db.rows[key], now), Deprovisioned, later)],
                events := db.events + [Event(key, previous, Deprovisioned, ByDeprovisionRoute)]),
            Moved(previous, Deprovisioned))
  }

  /** A submitted record; `lifecycle` is its top-level lifecycle object, `wellFormed` covers the rest of the schema. */
  datatype Payload = Payload(
    did: string, status: Status, blueprint: Option<string>, lifecycle: Option<Option<State>>, wellFormed: bool)

  /** The schema allows no top-level lifecycle key and only three statuses. */
  predicate SchemaValid(payload: Payload) {
    payload.wellFormed && payload.lifecycle.None? && payload.status in {IsActive, IsDisabled, IsQuarantine}
  }

  /** The blueprint's say before validation: it must exist, and a disabled one disables the record. */
  function Inherit(db: Db, organization: string, payload: Payload): Option<Payload> {
    if payload.blueprint.None? then Some(payload)
    else
      var key := BlueprintKey(organization, payload.blueprint.value);
      if key !in db.blueprints || db.blueprints[key] == BlueprintDeleted then None
      else Some(if db.blueprints[key] == BlueprintDisabled then payload.(status := IsDisabled) else payload)
  }

  /** The lifecycle state found in a stored record. */
  function StoredState(payload: Payload): Option<State> {
    if payload.lifecycle.Some? then payload.lifecycle.value else None
  }

  function UpsertedRow(existing: Option<Row>, payload: Payload): Row {
    Row(StoredState(payload), payload.status, payload.blueprint,
        if existing.Some? then existing.value.deprovisionedAt else None)
  }

  /** The stored JSON is replaced outright, `deprovisioned_at` is left as it was. */
  function Upsert(db: Db, organization: string, payload: Payload): (Db, bool) {
    var inherited := Inherit(db, organization, payload);
    if inherited.None? || !SchemaValid(inherited.value) then (db, false) else
      var key := Key(organization, payload.did);
      var existing := if key in db.rows then Some(db.rows[key]) else None;
      (db.(rows := db.rows[key := UpsertedRow(existing, inherited.value)]), true)
  }

  function SetBlueprintStatus(db: Db, organization: string, blueprint: string, enabled: bool): Db {
    var key := BlueprintKey(organization, blueprint);
    if key !in db.blueprints then db
    else
      db.(blueprints := db.blueprints[key := if enabled then BlueprintActive else BlueprintDisabled],
          rows := if enabled then db.rows else ChildrenSet(db.rows, organization, blueprint, IsDisabled))
  }

  predicate IsChild(rows: map<Key, Row>, k: Key, organization: string, blueprint: string) {
    k in rows && k.organization == organization && rows[k].blueprint == Some(blueprint)
  }

  function ChildrenSet(rows: map<Key, Row>, organization: string, blueprint: string, status: Status): map<Key, Row> {
    map k | k in rows :: if IsChild(rows, k, organization, blueprint) then rows[k].(status := status) else rows[k]
  }

  /** Bulk quarantine writes the status column and nothing else. */
  function QuarantineChildren(db: Db, organization: string, blueprint: string): Db {
    if BlueprintKey(organization, blueprint) !in db.blueprints then db
    else db.(rows := ChildrenSet(db.rows, organization, blueprint, IsQuarantined))
  }

  // ---------------------------------------------------------------------
  // The objects themselves
  // ---------------------------------------------------------------------

  /** A record as a database session loads it. */
  class AgentRecord {
    var explicitState: Option<State>
    var status: Status
    var blueprint: Option<string>
    var deprovisionedAt: Option<real>

    constructor Load(row: Row)
      ensures View() == row
    {
      explicitState, status := row.explicitState, row.status;
      blueprint, deprovisionedAt := row.blueprint, row.deprovisionedAt;
    }

    function View(): Row
      reads this
    {
      Row(explicitState, status, blueprint, deprovisionedAt)
    }

    method SetLifecycleState(s: State, now: real)
      modifies this
      ensures View() == WithState(old(View()), s, now)
    {
      explicitState := Some(s);
      if s == Active {
        status := IsEnabled;
      } else if s in {Suspended, Quarantined, Deprovisioning, Deprovisioned, Archived, Deleted} {
        status := IsDisabled;
      }
      if s in {Deprovisioned, Archived, Deleted} && deprovisionedAt.None? {
        deprovisionedAt := Some(now);
      }
    }
  }

  class Service {
    var rows: map<Key, Row>
    var blueprints: map<BlueprintKey, BlueprintStatus>
    var events: seq<Event>

    constructor ()
      ensures View() == Db(map[], map[], [])
    {
      rows, blueprints, events := map[], map[], [];
    }

    function View(): Db
      reads this
    {
      Db(rows, blueprints, events)
    }

    method TransitionAgentLifecycle(key: Key, action: Action, gates: bool, force: bool, dryRun: bool, now: real)
      returns (answer: Answer)
      modifies this
      ensures (View(), answer) == Transition(old(View()), key, action, gates, force, dryRun, now)
    {
      if key !in rows {
        return NotFound;
      }
      var record := new AgentRecord.Load(rows[key]);
      var previous := StateOf(record.View());
      if action == Activate && !gates && !force {
        return GatesFailed;
      }
      if !Permitted(previous, Target(action), force) {
        return InvalidTransition;
      }
      if dryRun {
        return DryRun(previous, Target(action));
      }
      record.SetLifecycleState(Target(action), now);
      events := events + [Event(key, previous, Target(action), ByAction(action, force))];
      rows := rows[key := record.View()];
      answer := Moved(previous, Target(action));
    }

    method DeleteAgentRecord(key: Key, now: real) returns (answer: Answer)
      modifies this
      ensures (View(), answer) == Transition(old(View()), key, Delete, true, true, false, now)
    {
      answer := TransitionAgentLifecycle(key, Delete, true, true, false, now);
    }

    method DeprovisionAgentRecord(key: Key, dryRun: bool, now: real, later: real) returns (answer: Answer)
      modifies this
      ensures (View(), answer) == DeprovisionRoute(old(View()), key, dryRun, now, later)
      ensures key !in old(rows) ==> answer == NotFound && View() == old(View())
      ensures key in old(rows) && dryRun ==>
                answer == DryRun(StateOf(old(rows[key])), Deprovisioning) && View() == old(View())
      ensures key in old(rows) && !dryRun ==>
                && answer == Moved(StateOf(old(rows[key])), Deprovisioned) && blueprints == old(blueprints)
                && rows == old(rows)[key := Row(Some(Deprovisioned), IsDisabled, old(rows[key]).blueprint, Some(now))]
                && events == old(events) + [Event(key, StateOf(old(rows[key])), Deprovisioned, ByDeprovisionRoute)]
    {
      if key !in rows {
        return NotFound;
      }
      var previous := StateOf(rows[key]);
      if dryRun {
        return DryRun(previous, Deprovisioning);
      }
      DeprovisionRecord(key, now);
      var record := new AgentRecord.Load(rows[key]);
      record.SetLifecycleState(Deprovisioned, later);
      events := events + [Event(key, previous, Deprovisioned, ByDeprovisionRoute)];
      rows := rows[key := record.View()];
      assert rows == old(rows)[key := record.View()];
      answer := Moved(previous, Deprovisioned);
    }

    method DeprovisionRecord(key: Key, now: real)
      modifies this
      ensures View() == if key in old(rows) then
                          old(View()).(rows := old(rows)[key := DeprovisionedRow(old(rows)[key], now)])
                        else old(View())
      ensures key in rows ==> rows[key].status == IsDisabled && rows[key].deprovisionedAt == Some(now)
    {
      if key in rows {
        var record := new AgentRecord.Load(rows[key]);
        record.status := IsDisabled;
        record.deprovisionedAt := Some(now);
        rows := rows[key := record.View()];
      }
    }

    method UpsertRecord(organization: string, payload: Payload) returns (accepted: bool)
      modifies this
      ensures (View(), accepted) == Upsert(old(View()), organization, payload)
    {
      var inherited := Inherit(View(), organization, payload);
      if inherited.None? || !SchemaValid(inherited.value) {
        return false;
      }
      var key := Key(organization, payload.did);
      var stored := StoredState(inherited.value);
      var record := new AgentRecord.Load(Row(stored, inherited.value.status, inherited.value.blueprint, None));
      if key in rows {
        var existing := new AgentRecord.Load(rows[key]);
        existing.blueprint := inherited.value.blueprint;
        existing.status := inherited.value.status;
        existing.explicitState := stored;
        record := existing;
      }
      rows := rows[key := record.View()];
      accepted := true;
    }

    method SetBlueprintEnabled(organization: string, blueprint: string, enabled: bool) returns (found: bool)
      modifies this
      ensures View() == SetBlueprintStatus(old(View()), organization, blueprint, enabled)
      ensures found <==> BlueprintKey(organization, blueprint) in old(blueprints)
    {
      var key := BlueprintKey(organization, blueprint);
      found := key in blueprints;
      if !found {
        return;
      }
      blueprints := blueprints[key := if enabled then BlueprintActive else BlueprintDisabled];
      if !enabled {
        SetChildren(organization, blueprint, IsDisabled);
      }
    }

    method QuarantineBlueprintChildren(organization: string, blueprint: string) returns (found: bool)
      modifies this
      ensures View() == QuarantineChildren(old(View()), organization, blueprint)
      ensures found <==> BlueprintKey(organization, blueprint) in old(blueprints)
    {
      found := BlueprintKey(organization, blueprint) in blueprints;
      if found {
        SetChildren(organization, blueprint, IsQuarantined);
      }
    }

    /** The loop of both: one record at a time, in no particular order. */
    method SetChildren(organization: string, blueprint: string, status: Status)
      modifies this`rows
      ensures rows == ChildrenSet(old(rows), organization, blueprint, status)
    {
      var todo := set k | k in rows && IsChild(rows, k, organization, blueprint);
      while todo != {}
        invariant rows.Keys == old(rows).Keys
        invariant forall k :: k in todo ==> IsChild(old(rows), k, organization, blueprint) && rows[k] == old(rows)[k]
        invariant forall k :: k in rows && k !in todo ==>
          rows[k] == if IsChild(old(rows), k, organization, blueprint) then old(rows)[k].(status := status)
                     else old(rows)[k]
        decreases todo
      {
        var k :| k in todo;
        todo := todo - {k};
        rows := rows[k := rows[k].(status := status)];
      }
    }
  }

  // ---------------------------------------------------------------------
  // Runs
  // ---------------------------------------------------------------------

  datatype Op =
    | DoTransition(key: Key, action: Action, gates: bool, force: bool, dryRun: bool, now: real)
    | DoDeprovision(key: Key, dryRun: bool, now: real, later: real)
    | DoDelete(key: Key, now: real)
    | DoUpsert(organization: string, payload: Payload)
    | DoSetBlueprint(organization: string, blueprint: string, enabled: bool)
    | DoQuarantineChildren(organization: string, blueprint: string)
    | DoPutBlueprint(organization: string, blueprint: string, status: BlueprintStatus)

  const EMPTY_DB := Db(map[], map[], [])

  function Apply(db: Db, op: Op): Db {
    match op
    case DoTransition(key, action, gates, force, dryRun, now) =>
      Transition(db, key, action, gates, force, dryRun, now).0
    case DoDeprovision(key, dryRun, now, later) => DeprovisionRoute(db, key, dryRun, now, later).0
    case DoDelete(key, now) => Transition(db, key, Delete, true, true, false, now).0
    case DoUpsert(organization, payload) => Upsert(db, organization, payload).0
    case DoSetBlueprint(organization, blueprint, enabled) => SetBlueprintStatus(db, organization, blueprint, enabled)
    case DoQuarantineChildren(organization, blueprint) => QuarantineChildren(db, organization, blueprint)
    case DoPutBlueprint(organization, blueprint, status) =>
      db.(blueprints := db.blueprints[BlueprintKey(organization, blueprint) := status])
  }

  function RunFrom(db: Db, ops: seq<Op>): Db {
    if ops == [] then db else Apply(RunFrom(db, ops[..|ops| - 1]), ops[|ops| - 1])
  }

  // ---------------------------------------------------------------------
  // What every action comes to, and what every state is read off
  // ---------------------------------------------------------------------

  /**
   What an action comes to: without force it is carried out from the states in `from` only; carried out, it
   stores `to`, writes `status` into the column if there is one to write, and, if it `stamps`, stamps a record
   that has no stamp yet.
   */
  datatype Effect = Effect(from: set<State>, to: State, status: Option<Status>, stamps: bool)

  const TO_ACTIVE: set<State> := {Draft, Approved, Active, Suspended, Quarantined, PendingRotation, PendingRenewal}

  const OUT_OF_USE: set<State> :=
    {Active, Suspended, Quarantined, CredentialsExpired, PendingRotation, PendingRenewal, Deprovisioning}

  function EffectOf(action: Action): Effect {
    match action
    case SubmitReview => Effect({Draft, PendingReview, Approved}, PendingReview, None, false)
    case Approve => Effect({Draft, PendingReview, Approved}, Approved, None, false)
    case Activate => Effect(TO_ACTIVE, Active, Some(IsEnabled), false)
    case Resume => Effect(TO_ACTIVE, Active, Some(IsEnabled), false)
    case Renew => Effect({Active, Suspended, CredentialsExpired, PendingRenewal}, PendingRenewal, None, false)
    case RotateCredentials => Effect({Active, CredentialsExpired, PendingRotation}, PendingRotation, None, false)
    case Suspend => Effect(OUT_OF_USE, Suspended, Some(IsDisabled), false)
    case Deprovision => Effect(OUT_OF_USE, Deprovisioning, Some(IsDisabled), false)
    case Quarantine =>
      Effect({PendingReview, Active, Suspended, Quarantined, PendingRotation, PendingRenewal},
             Quarantined, Some(IsDisabled), false)
    case Archive =>
      Effect({Draft, PendingReview, Approved, Active, Suspended, Quarantined, Deprovisioned, Archived},
             Archived, Some(IsDisabled), true)
    case Delete => Effect({Draft, PendingReview, Approved, Archived, Deleted}, Deleted, Some(IsDisabled), true)
  }

  lemma EffectTarget(action: Action)
    ensures EffectOf(action).to == Target(action)
  {
  }

  predicate SourceOf(action: Action, s: State) {
    s == Target(action) || Target(action) in Transitions(s)
  }

  lemma SourcesIntoUse(action: Action, s: State)
    requires !action.Suspend? && !action.Deprovision? && !action.Quarantine? && !action.Archive? && !action.Delete?
    ensures s in EffectOf(action).from <==> SourceOf(action, s)
  {
    match action {
      case SubmitReview => case Approve => case Activate => case Resume => case Renew => case RotateCredentials =>
    }
  }

  lemma SourcesOutOfUse(action: Action, s: State)
    requires action.Suspend? || action.Deprovision? || action.Quarantine? || action.Archive? || action.Delete?
    ensures s in EffectOf(action).from <==> SourceOf(action, s)
  {
    match action {
      case Suspend => case Deprovision => case Quarantine => case Archive => case Delete =>
    }
  }

  lemma EffectSources(action: Action, s: State)
    ensures s in EffectOf(action).from <==> SourceOf(action, s)
  {
    if action.Suspend? || action.Deprovision? || action.Quarantine? || action.Archive? || action.Delete? {
      SourcesOutOfUse(action, s);
    } else {
      SourcesIntoUse(action, s);
    }
  }

  function Affected(row: Row, e: Effect, now: real): Row {
    Row(Some(e.to), if e.status.Some? then e.status.value else row.status, row.blueprint,
        if e.stamps && row.deprovisionedAt.None? then Some(now) else row.deprovisionedAt)
  }

  lemma EffectStored(action: Action, row: Row, now: real)
    ensures WithState(row, Target(action), now) == Affected(row, EffectOf(action), now)
  {
  }

  /**
   Every action, on every record and however it is asked for: refused, tried without effect, or carried out
   with exactly the effect above, and one event that tells of it.
   */
  lemma ActionsExactly(db: Db, key: Key, action: Action, gates: bool, force: bool, dryRun: bool, now: real)
    ensures var (after, answer) := Transition(db, key, action, gates, force, dryRun, now);
            var e := EffectOf(action);
            if key !in db.rows then after == db && answer == NotFound
            else
              var row, previous := db.rows[key], StateOf(db.rows[key]);
              if action == Activate && !gates && !force then after == db && answer == GatesFailed
              else if previous !in e.from && !force then after == db && answer == InvalidTransition
              else if dryRun then after == db && answer == DryRun(previous, e.to)
              else
                && answer == Moved(previous, e.to)
                && after == Db(db.rows[key := Affected(row, e, now)], db.blueprints,
                               db.events + [Event(key, previous, e.to, ByAction(action, force))])
  {
    if key in db.rows {
      EffectTarget(action);
      EffectSources(action, StateOf(db.rows[key]));
      EffectStored(action, db.rows[key], now);
    }
  }

  /** The edges of the table that no action takes. */
  lemma EdgesWithoutAction(s: State, next: State)
    ensures next in Transitions(s) && (forall action :: Target(action) != next)
            <==> (s, next) in {(PendingReview, Draft), (Active, CredentialsExpired), (Deprovisioning, Deprovisioned)}
  {
    assert Target(SubmitReview) == PendingReview && Target(Approve) == Approved && Target(Resume) == Active;
    assert Target(Suspend) == Suspended && Target(Quarantine) == Quarantined && Target(Renew) == PendingRenewal;
    assert Target(RotateCredentials) == PendingRotation && Target(Deprovision) == Deprovisioning;
    assert Target(Archive) == Archived && Target(Delete) == Deleted;
  }

  /** Without a stored state a record shows one of four, each exactly for these columns; a stored state hides them. */
  lemma StateIsReadOff(row: Row)
    ensures row.explicitState.Some? ==> row.explicitState == Some(StateOf(row))
    ensures row.explicitState.None? ==>
              && (StateOf(row) == Archived <==> row.status == IsArchived)
              && (StateOf(row) == Deprovisioned <==>
                    row.status == IsDeprovisioned || (row.deprovisionedAt.Some? && row.status != IsArchived))
              && (StateOf(row) == Suspended <==>
                    row.deprovisionedAt.None? && row.status in {IsDisabled, IsSuspended})
              && (StateOf(row) == Active <==>
                    row.deprovisionedAt.None? && row.status in {IsActive, IsEnabled, IsQuarantine, IsQuarantined})
  {
  }

  /**
   An upsert is accepted if and only if the record is well formed without a lifecycle object and its blueprint, if
   it names one, exists and is not deleted; its status must be one of three unless a disabled blueprint sets it.
   */
  lemma UpsertExactly(db: Db, organization: string, payload: Payload)
    ensures var (after, accepted) := Upsert(db, organization, payload);
            var blueprint := if payload.blueprint.None? then None
                             else var b := BlueprintKey(organization, payload.blueprint.value);
                               if b in db.blueprints then Some(db.blueprints[b]) else Some(BlueprintDeleted);
            var disabled := blueprint == Some(BlueprintDisabled);
            var key := Key(organization, payload.did);
            && (accepted <==>
                  && payload.wellFormed && payload.lifecycle.None? && blueprint != Some(BlueprintDeleted)
                  && (disabled || payload.status in {IsActive, IsDisabled, IsQuarantine}))
            && (!accepted ==> after == db)
            && (accepted ==>
                  && after.blueprints == db.blueprints && after.events == db.events
                  && after.rows == db.rows[key := Row(
                       None, if disabled then IsDisabled else payload.status, payload.blueprint,
                       if key in db.rows then db.rows[key].deprovisionedAt else None)])
  {
  }

  /** So a record submitted under a blueprint is disabled from the moment the blueprint is, until it is enabled. */
  lemma SwitchGovernsUpserts(db: Db, organization: string, blueprint: string, enabled: bool, payload: Payload)
    requires BlueprintKey(organization, blueprint) in db.blueprints && payload.blueprint == Some(blueprint)
    ensures var switched := SetBlueprintStatus(db, organization, blueprint, enabled);
            var (after, accepted) := Upsert(switched, organization, payload);
            && (accepted <==>
                  && payload.wellFormed && payload.lifecycle.None?
                  && (enabled ==> payload.status in {IsActive, IsDisabled, IsQuarantine}))
            && (accepted ==>
                  after.rows[Key(organization, payload.did)].status == if enabled then payload.status else IsDisabled)
  {
    UpsertExactly(SetBlueprintStatus(db, organization, blueprint, enabled), organization, payload);
  }

  // ---------------------------------------------------------------------
  // Retired agents stay retired
  // ---------------------------------------------------------------------

  ghost predicate Consistent(row: Row) {
    && (StateOf(row) in RETIRED <==> row.deprovisionedAt.Some?)
    && row.status in {IsActive, IsEnabled, IsDisabled, IsQuarantine, IsQuarantined}
  }

  ghost predicate AllConsistent(db: Db) {
    forall k :: k in db.rows ==> Consistent(db.rows[k])
  }

  ghost predicate Unforced(ops: seq<Op>) {
    forall i :: 0 <= i < |ops| && ops[i].DoTransition? ==> !ops[i].force
  }

  /**
   A transition breaks the agreement between lifecycle state and `deprovisioned_at` exactly
   when it is forced, is carried out, and takes a retired record to a state that is not retired.
   */
  lemma TransitionConsistency(db: Db, key: Key, action: Action, gates: bool, force: bool, dryRun: bool, now: real)
    requires key in db.rows && Consistent(db.rows[key])
    ensures var after := Transition(db, key, action, gates, force, dryRun, now).0;
            Consistent(after.rows[key]) <==>
              !(force && !dryRun && StateOf(db.rows[key]) in RETIRED && Target(action) !in RETIRED)
  {
    assert forall s :: s in RETIRED ==> Transitions(s) <= RETIRED;
  }

  /** Stamping `deprovisioned_at` alone, as the bulk deprovision does, needs no stored state or a retired one. */
  lemma DeprovisionRecordConsistency(row: Row, now: real)
    requires Consistent(row)
    ensures Consistent(DeprovisionedRow(row, now)) <==>
              row.explicitState.None? || row.explicitState.value in RETIRED
  {
    assert row.explicitState.None? ==> StateOf(DeprovisionedRow(row, now)) == Deprovisioned;
  }

  /**
   The lifecycle routes of a blueprint set the state of its children without consulting the table. Only
   deprovision-children is reached over HTTP: the disable route is registered after another of that path.
   */
  function CascadedRow(row: Row, disabling: bool, now: real): Row {
    WithState(row, if disabling then Suspended else Deprovisioning, now)
  }

  /** Unforced as they are, they bring exactly the retired children back, with the stamp still set. */
  lemma CascadeConsistency(row: Row, disabling: bool, now: real)
    requires Consistent(row)
    ensures var after := CascadedRow(row, disabling, now);
            && StateOf(after) !in RETIRED && after.deprovisionedAt == row.deprovisionedAt
            && (Consistent(after) <==> StateOf(row) !in RETIRED)
  {
  }

  lemma StepKeepsRowConsistent(db: Db, op: Op, k: Key)
    requires op.DoTransition? ==> !op.force
    requires k in db.rows ==> Consistent(db.rows[k])
    requires k in Apply(db, op).rows
    ensures Consistent(Apply(db, op).rows[k])
  {
    match op {
      case DoTransition(key, action, gates, force, dryRun, now) =>
        if key == k && key in db.rows {
          TransitionConsistency(db, key, action, gates, force, dryRun, now);
        }
      case DoDelete(key, now) =>
        if key == k && key in db.rows {
          TransitionConsistency(db, key, Delete, true, true, false, now);
        }
      case _ =>
    }
  }

  lemma StepKeepsConsistency(db: Db, op: Op)
    requires op.DoTransition? ==> !op.force
    requires AllConsistent(db)
    ensures AllConsistent(Apply(db, op))
    ensures forall k :: k in db.rows ==> k in Apply(db, op).rows
    ensures forall k :: k in db.rows && db.rows[k].deprovisionedAt.Some? ==> Apply(db, op).rows[k].deprovisionedAt.Some?
  {
    var after := Apply(db, op);
    forall k | k in after.rows ensures Consistent(after.rows[k]) {
      StepKeepsRowConsistent(db, op, k);
    }
  }

  /**
   Over any run of upserts, unforced transitions, the deprovision and delete routes, blueprint switches
   and bulk quarantines, a record is retired exactly when `deprovisioned_at` is set.
   */
  lemma {:induction false} RetirementIsStamped(ops: seq<Op>, key: Key)
    requires Unforced(ops)
    ensures var rows := RunFrom(EMPTY_DB, ops).rows;
            key in rows ==> Consistent(rows[key])
  {
    EveryRowConsistent(ops);
  }

  lemma {:induction false} EveryRowConsistent(ops: seq<Op>)
    requires Unforced(ops)
    ensures AllConsistent(RunFrom(EMPTY_DB, ops))
  {
    if ops == [] {
    } else {
      var before, last := RunFrom(EMPTY_DB, ops[..|ops| - 1]), ops[|ops| - 1];
      EveryRowConsistent(ops[..|ops| - 1]);
      StepKeepsConsistency(before, last);
    }
  }

  /** And once retired it stays retired, whatever the run goes on to do. */
  lemma {:induction false} RetiredStaysRetired(ops: seq<Op>, more: seq<Op>, key: Key)
    requires Unforced(ops + more)
    requires key in RunFrom(EMPTY_DB, ops).rows
    requires StateOf(RunFrom(EMPTY_DB, ops).rows[key]) in RETIRED
    ensures var rows := RunFrom(EMPTY_DB, ops + more).rows;
            key in rows && StateOf(rows[key]) in RETIRED && rows[key].deprovisionedAt.Some?
  {
    var all := ops + more;
    if more == [] {
      assert all == ops;
      RetirementIsStamped(ops, key);
    } else {
      var before := all[..|all| - 1];
      assert before == ops + more[..|more| - 1];
      assert Unforced(before);
      RetiredStaysRetired(ops, more[..|more| - 1], key);
      EveryRowConsistent(before);
      StepKeepsConsistency(RunFrom(EMPTY_DB, before), all[|all| - 1]);
    }
  }

  /**
   An accepted upsert forgets the stored state: a retired record becomes deprovisioned, even from archived
   or deleted, and any other is suspended or active by its status alone. Nothing records the change.
   */
  lemma UpsertResetsState(db: Db, organization: string, payload: Payload)
    requires Upsert(db, organization, payload).1
    requires Key(organization, payload.did) in db.rows ==> Consistent(db.rows[Key(organization, payload.did)])
    ensures var key := Key(organization, payload.did);
            var after := Upsert(db, organization, payload).0;
            && key in after.rows && after.events == db.events
            && StateOf(after.rows[key]) ==
                 if key in db.rows && StateOf(db.rows[key]) in RETIRED then Deprovisioned
                 else if after.rows[key].status == IsDisabled then Suspended
                 else Active
  {
  }

  /**
   Disabling a blueprint changes the lifecycle state of exactly its active records without a stored state;
   records with a stored state keep it, only their status is disabled.
   */
  lemma DisablingBlueprintState(db: Db, organization: string, blueprint: string, key: Key)
    requires key in db.rows && Consistent(db.rows[key])
    requires BlueprintKey(organization, blueprint) in db.blueprints
    ensures var row := db.rows[key];
            var after := SetBlueprintStatus(db, organization, blueprint, false).rows[key];
            && after == (if key.organization == organization && row.blueprint == Some(blueprint)
                         then row.(status := IsDisabled) else row)
            && if key.organization == organization && row.blueprint == Some(blueprint)
               && row.explicitState.None? && StateOf(row) == Active
            then StateOf(after) == Suspended
            else StateOf(after) == StateOf(row)
  {
  }

  /** Bulk quarantine quarantines no record: it makes exactly the suspended ones without a stored state active. */
  lemma BulkQuarantineState(db: Db, organization: string, blueprint: string, key: Key)
    requires key in db.rows && Consistent(db.rows[key])
    requires BlueprintKey(organization, blueprint) in db.blueprints
    ensures var row := db.rows[key];
            var after := QuarantineChildren(db, organization, blueprint).rows[key];
            && after == (if IsChild(db.rows, key, organization, blueprint) then row.(status := IsQuarantined) else row)
            && if IsChild(db.rows, key, organization, blueprint) && row.explicitState.None? && StateOf(row) == Suspended
            then StateOf(after) == Active
            else StateOf(after) == StateOf(row)
  {
  }

  /** The op is the deprovision route, carried out on this record. */
  predicate Restamps(op: Op, key: Key) {
    op.DoDeprovision? && op.key == key && !op.dryRun
  }

  lemma StampStep(db: Db, op: Op, key: Key)
    requires key in db.rows && db.rows[key].deprovisionedAt.Some?
    ensures key in Apply(db, op).rows
    ensures Apply(db, op).rows[key].deprovisionedAt
            == if Restamps(op, key) then Some(op.now) else db.rows[key].deprovisionedAt
  {
  }

  /** Whatever a run does, forced transitions included, only the deprovision route ever changes a stamp. */
  lemma {:induction false} StampIsKept(db: Db, ops: seq<Op>, key: Key)
    requires key in db.rows && db.rows[key].deprovisionedAt.Some?
    requires forall i :: 0 <= i < |ops| ==> !Restamps(ops[i], key)
    ensures key in RunFrom(db, ops).rows
    ensures RunFrom(db, ops).rows[key].deprovisionedAt == db.rows[key].deprovisionedAt
  {
    if ops == [] {
    } else {
      StampIsKept(db, ops[..|ops| - 1], key);
      StampStep(RunFrom(db, ops[..|ops| - 1]), ops[|ops| - 1], key);
    }
  }

  /** The status column never contradicts a stored state. */
  ghost predicate StatusAgrees(row: Row) {
    row.explicitState.Some? ==>
      match row.explicitState.value
      case Active => row.status == IsEnabled || row.status == IsDisabled
      case Suspended | Quarantined | Deprovisioning | Deprovisioned | Archived | Deleted => row.status == IsDisabled
      case _ => true
  }

  lemma StepKeepsStatusAgreeing(db: Db, op: Op, k: Key)
    requires k in db.rows ==> StatusAgrees(db.rows[k])
    requires k in Apply(db, op).rows && !op.DoQuarantineChildren?
    ensures StatusAgrees(Apply(db, op).rows[k])
  {
  }

  /**
   Over any run without bulk quarantine, forced transitions included, a record stored as suspended,
   quarantined or on its way out is disabled. Bulk quarantine overwrites the column whatever is stored.
   */
  lemma {:induction false} StatusFollowsStoredState(ops: seq<Op>)
    requires forall i :: 0 <= i < |ops| ==> !ops[i].DoQuarantineChildren?
    ensures forall k :: k in RunFrom(EMPTY_DB, ops).rows ==> StatusAgrees(RunFrom(EMPTY_DB, ops).rows[k])
  {
    if ops == [] {
    } else {
      var before, last := RunFrom(EMPTY_DB, ops[..|ops| - 1]), ops[|ops| - 1];
      StatusFollowsStoredState(ops[..|ops| - 1]);
      forall k | k in Apply(before, last).rows ensures StatusAgrees(Apply(before, last).rows[k]) {
        StepKeepsStatusAgreeing(before, last, k);
      }
    }
  }

  /** Bulk quarantine leaves the column agreeing with the stored state unless that calls for another status. */
  lemma BulkQuarantineStatus(db: Db, organization: string, blueprint: string, key: Key)
    requires key in db.rows && StatusAgrees(db.rows[key])
    requires BlueprintKey(organization, blueprint) in db.blueprints
    ensures var stored := db.rows[key].explicitState;
            StatusAgrees(QuarantineChildren(db, organization, blueprint).rows[key])
            <==> !(&& IsChild(db.rows, key, organization, blueprint) && stored.Some?
                   && stored.value in {Active, Suspended, Quarantined, Deprovisioning} + RETIRED)
  {
  }

  /** Every arrow of the documented diagram is in the table; but no action takes the one into deprovisioned. */
  lemma DocumentedDiagram()
    ensures PendingReview in Transitions(Draft) && Approved in Transitions(PendingReview)
    ensures Active in Transitions(Approved)
    ensures Suspended in Transitions(Active) && Active in Transitions(Suspended)
    ensures Quarantined in Transitions(Active) && {Suspended, Active, Deprovisioning} <= Transitions(Quarantined)
    ensures {PendingRotation, PendingRenewal} <= Transitions(Active)
    ensures Active in Transitions(PendingRotation) && Active in Transitions(PendingRenewal)
    ensures forall s :: s in {Active, Suspended, Quarantined} ==> Deprovisioning in Transitions(s)
    ensures Deprovisioned in Transitions(Deprovisioning) && Archived in Transitions(Deprovisioned)
    ensures Deleted in Transitions(Archived)
    ensures forall action :: Target(action) != Deprovisioned
  {
  }

  // ---------------------------------------------------------------------
  // The audit trail is a path
  // ---------------------------------------------------------------------

  predicate Audited(op: Op) {
    op.DoTransition? || op.DoDeprovision? || op.DoDelete?
  }

  function EventsOf(events: seq<Event>, key: Key): seq<Event> {
    if events == [] then [] else
      var last := events[|events| - 1];
      EventsOf(events[..|events| - 1], key) + if last.key == key then [last] else []
  }

  /** The events lead from one state to the other without a gap. */
  predicate IsPath(start: State, events: seq<Event>, end: State) {
    if events == [] then start == end
    else
      var last := events[|events| - 1];
      last.next == end && IsPath(start, events[..|events| - 1], last.previous)
  }

  /** What a link may be: an edge of the table or a self-loop unless forced, or the deprovision route. */
  predicate LegalLink(e: Event) {
    match e.how
    case ByAction(action, forced) =>
      e.next == Target(action) && (forced || e.previous == e.next || e.next in Transitions(e.previous))
    case ByDeprovisionRoute => e.next == Deprovisioned
  }

  function AnswerOf(db: Db, op: Op): Answer
    requires Audited(op)
  {
    match op
    case DoTransition(key, action, gates, force, dryRun, now) =>
      Transition(db, key, action, gates, force, dryRun, now).1
    case DoDeprovision(key, dryRun, now, later) => DeprovisionRoute(db, key, dryRun, now, later).1
    case DoDelete(key, now) => Transition(db, key, Delete, true, true, false, now).1
  }

  /** A call that fails or runs dry writes nothing; any other writes one event and one row. */
  lemma AuditedStep(db: Db, op: Op)
    requires Audited(op)
    ensures var after, answer := Apply(db, op), AnswerOf(db, op);
            && after.rows.Keys == db.rows.Keys && after.blueprints == db.blueprints
            && (forall k :: k in db.rows && k != op.key ==> after.rows[k] == db.rows[k])
            && (!answer.Moved? ==> after == db)
            && (answer.Moved? ==>
                  && op.key in db.rows && |after.events| == |db.events| + 1
                  && after.events[..|db.events|] == db.events
                  && var e := after.events[|db.events|];
                     && e.key == op.key && LegalLink(e)
                     && e.previous == StateOf(db.rows[op.key]) && e.next == StateOf(after.rows[op.key])
                     && answer == Moved(e.previous, e.next))
  {
    var after := Apply(db, op);
    if AnswerOf(db, op).Moved? {
      assert after.events[..|db.events|] == db.events;
    }
  }

  ghost predicate TrailOf(start: Row, events: seq<Event>, end: Row, key: Key) {
    var trail := EventsOf(events, key);
    IsPath(StateOf(start), trail, StateOf(end)) && forall i :: 0 <= i < |trail| ==> LegalLink(trail[i])
  }

  lemma TrailGrows(start: Row, events: seq<Event>, middle: Row, e: Event, end: Row, key: Key)
    requires TrailOf(start, events, middle, key) && LegalLink(e)
    requires if e.key == key then e.previous == StateOf(middle) && e.next == StateOf(end) else middle == end
    ensures TrailOf(start, events + [e], end, key)
  {
    var trail := EventsOf(events, key);
    assert (events + [e])[..|events|] == events;
    if e.key == key {
      var longer := EventsOf(events + [e], key);
      assert longer == trail + [e];
      assert longer[..|trail|] == trail;
      assert IsPath(StateOf(start), longer[..|longer| - 1], e.previous);
    } else {
      assert EventsOf(events + [e], key) == trail;
    }
  }

  /**
   Over any run of transitions (forced or not, dry or not) and of the deprovision and delete routes,
   each record's events form one connected path from its initial to its current state, and every link is legal.
   */
  lemma {:induction false} AuditTrailIsPath(db: Db, ops: seq<Op>, key: Key)
    requires key in db.rows && forall i :: 0 <= i < |ops| ==> Audited(ops[i])
    ensures var after := RunFrom(db, ops);
            && key in after.rows && db.events <= after.events
            && TrailOf(db.rows[key], after.events[|db.events|..], after.rows[key], key)
  {
    var n := |db.events|;
    if ops == [] {
      assert db.events[n..] == [];
    } else {
      var middle, op := RunFrom(db, ops[..|ops| - 1]), ops[|ops| - 1];
      AuditTrailIsPath(db, ops[..|ops| - 1], key);
      AuditedStep(middle, op);
      if AnswerOf(middle, op).Moved? {
        StepExtendsTrail(db, middle, op, key);
      }
    }
  }

  lemma StepExtendsTrail(db: Db, middle: Db, op: Op, key: Key)
    requires Audited(op) && AnswerOf(middle, op).Moved? && key in db.rows && key in middle.rows
    requires db.events <= middle.events
    requires TrailOf(db.rows[key], middle.events[|db.events|..], middle.rows[key], key)
    ensures var after := Apply(middle, op);
            && key in after.rows && db.events <= after.events
            && TrailOf(db.rows[key], after.events[|db.events|..], after.rows[key], key)
  {
    var n := |db.events|;
    var after := Apply(middle, op);
    AuditedStep(middle, op);
    var e := after.events[|middle.events|];
    assert after.events == middle.events + [e];
    assert after.events[n..] == middle.events[n..] + [e];
    TrailGrows(db.rows[key], middle.events[n..], middle.rows[key], e, after.rows[key], key);
  }

  // ---------------------------------------------------------------------
  // Writers that log nothing
  // ---------------------------------------------------------------------

  /**
   An accepted upsert of a record whose events form a path leaves them one if and only if the record was
   already in the state the upsert resets it to.
   */
  lemma UpsertKeepsTrailExactly(db: Db, organization: string, payload: Payload, start: State)
    requires Upsert(db, organization, payload).1 && Key(organization, payload.did) in db.rows
    requires Consistent(db.rows[Key(organization, payload.did)])
    requires var key := Key(organization, payload.did); IsPath(start, EventsOf(db.events, key), StateOf(db.rows[key]))
    ensures var key := Key(organization, payload.did);
            var after := Upsert(db, organization, payload).0;
            var was := StateOf(db.rows[key]);
            IsPath(start, EventsOf(after.events, key), StateOf(after.rows[key]))
            <==> if was in RETIRED then was == Deprovisioned
                 else if Inherit(db, organization, payload).value.status == IsDisabled then was == Suspended
                 else was == Active
  {
    UpsertResetsState(db, organization, payload);
  }

  /** Bulk quarantine breaks the path of exactly the blueprint's suspended records without a stored state. */
  lemma BulkQuarantineKeepsTrailExactly(db: Db, organization: string, blueprint: string, key: Key, start: State)
    requires key in db.rows && Consistent(db.rows[key])
    requires BlueprintKey(organization, blueprint) in db.blueprints
    requires IsPath(start, EventsOf(db.events, key), StateOf(db.rows[key]))
    ensures var after := QuarantineChildren(db, organization, blueprint);
            var row := db.rows[key];
            IsPath(start, EventsOf(after.events, key), StateOf(after.rows[key]))
            <==> !(IsChild(db.rows, key, organization, blueprint)
                   && row.explicitState.None? && StateOf(row) == Suspended)
  {
    BulkQuarantineState(db, organization, blueprint, key);
  }

  /** Disabling a blueprint breaks the path of exactly its active records without a stored state. */
  lemma DisablingKeepsTrailExactly(db: Db, organization: string, blueprint: string, key: Key, start: State)
    requires key in db.rows && Consistent(db.rows[key])
    requires BlueprintKey(organization, blueprint) in db.blueprints
    requires IsPath(start, EventsOf(db.events, key), StateOf(db.rows[key]))
    ensures var after := SetBlueprintStatus(db, organization, blueprint, false);
            var row := db.rows[key];
            IsPath(start, EventsOf(after.events, key), StateOf(after.rows[key]))
            <==> !(IsChild(db.rows, key, organization, blueprint) && row.explicitState.None? && StateOf(row) == Active)
  {
    DisablingBlueprintState(db, organization, blueprint, key);
  }
}

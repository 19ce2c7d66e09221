/** The report that decides whether an agent may be activated, and which transitions it does not guard. */
module ActivationGates {
  import opened Prelude
  import L = Lifecycle

  /** An expiry that does not parse only draws a warning: the credential counts as unexpired. */
  datatype Expiry = Never | At(time: real) | Unparseable

  datatype Credential = Credential(usableStatus: bool, expiry: Expiry, development: bool)

  datatype PermissionStatus = Consented | Withdrawn | Undecided

  datatype Permission = Permission(status: PermissionStatus, inherited: bool)

  /** What the report reads off a record and its policy. */
  datatype Facts = Facts(
    didPrefixed: bool, methodsListed: bool, didKey: bool,
    credentials: seq<Credential>, permissions: seq<Permission>,
    sponsored: bool, owned: bool,
    auditEndpoint: bool, governanceEndpoint: bool, supportUrl: bool, termsUrl: bool, privacyUrl: bool,
    auditLogging: bool, publiclyVisible: bool, multitenant: bool, production: bool,
    riskScore: int, riskThreshold: int, state: L.State, activeRevocation: bool)

  datatype Issue =
    | DidUnresolvable | MethodsMissing | CredentialsMissing | ConsentMissing | InheritedInvalid
    | SponsorMissing | OwnerMissing | GovernanceUnreachable | AuditDisabled | UrlsMissing
    | DevelopmentCredentials | RiskTooHigh | QuarantinedOrRevoked

  function Rank(issue: Issue): nat {
    match issue
    case DidUnresolvable => 0 case MethodsMissing => 1 case CredentialsMissing => 2 case ConsentMissing => 3
    case InheritedInvalid => 4 case SponsorMissing => 5 case OwnerMissing => 6 case GovernanceUnreachable => 7
    case AuditDisabled => 8 case UrlsMissing => 9 case DevelopmentCredentials => 10 case RiskTooHigh => 11
    case QuarantinedOrRevoked => 12
  }

  predicate IsActive(c: Credential, now: real) {
    c.usableStatus && !(c.expiry.At? && c.expiry.time <= now)
  }

  /** When each gate is open. */
  ghost predicate GateOpen(f: Facts, now: real, issue: Issue) {
    match issue
    case DidUnresolvable => f.didPrefixed
    case MethodsMissing => f.methodsListed || f.didKey
    case CredentialsMissing => exists c :: c in f.credentials && IsActive(c, now)
    case ConsentMissing => f.permissions == [] || exists p :: p in f.permissions && p.status == Consented
    case InheritedInvalid => forall p :: p in f.permissions ==> !(p.inherited && p.status == Withdrawn)
    case SponsorMissing => f.sponsored
    case OwnerMissing => f.owned
    case GovernanceUnreachable => f.auditEndpoint || f.governanceEndpoint || f.supportUrl
    case AuditDisabled => f.auditLogging
    case UrlsMissing =>
      f.publiclyVisible || f.multitenant || f.production ==> f.termsUrl && f.privacyUrl && f.supportUrl
    case DevelopmentCredentials =>
      f.production ==> forall c :: c in f.credentials && IsActive(c, now) ==> !c.development
    case RiskTooHigh => f.riskScore < f.riskThreshold
    case QuarantinedOrRevoked => f.state != L.Quarantined && !f.activeRevocation
  }

  /** The list holds, in the report's order, the gates before the `k`-th that are shut. */
  ghost predicate Lists(blocking: seq<Issue>, f: Facts, now: real, k: nat) {
    && (forall issue :: issue in blocking <==> Rank(issue) < k && !GateOpen(f, now, issue))
    && (forall i, j :: 0 <= i < j < |blocking| ==> Rank(blocking[i]) < Rank(blocking[j]))
  }

  method Require(ok: bool, issue: Issue, blocking: seq<Issue>, ghost f: Facts, ghost now: real)
    returns (longer: seq<Issue>)
    requires Lists(blocking, f, now, Rank(issue)) && (ok <==> GateOpen(f, now, issue))
    ensures Lists(longer, f, now, Rank(issue) + 1)
  {
    longer := if ok then blocking else blocking + [issue];
    assert forall other :: Rank(other) == Rank(issue) ==> other == issue;
    assert forall i :: 0 <= i < |blocking| ==> blocking[i] in blocking;
  }

  /** The gates of an activation: passed exactly when all are open, else the shut ones in order. */
  method ValidationReport(f: Facts, now: real) returns (passed: bool, blocking: seq<Issue>, warnings: nat)
    ensures passed <==> forall issue :: GateOpen(f, now, issue)
    ensures forall issue :: issue in blocking <==> !GateOpen(f, now, issue)
    ensures forall i, j :: 0 <= i < j < |blocking| ==> Rank(blocking[i]) < Rank(blocking[j])
    ensures warnings == |Unparsed(f.credentials)|
  {
    var active: seq<Credential>;
    active, warnings := ActiveCredentials(f.credentials, now);
    blocking := IdentityGates(f, now, active);
    blocking := PeopleGates(f, now, blocking);
    blocking := GovernanceGates(f, now, blocking);
    blocking := RiskGates(f, now, active, blocking);
    assert forall issue :: Rank(issue) < 13;
    passed := |blocking| == 0;
    assert !passed ==> blocking[0] in blocking;
  }

  /** The gates on the DID, its keys, its credentials and its permissions. */
  method IdentityGates(f: Facts, now: real, active: seq<Credential>) returns (blocking: seq<Issue>)
    requires forall c :: c in active <==> c in f.credentials && IsActive(c, now)
    ensures Lists(blocking, f, now, Rank(SponsorMissing))
  {
    blocking := Require(f.didPrefixed, DidUnresolvable, [], f, now);
    blocking := Require(f.methodsListed || f.didKey, MethodsMissing, blocking, f, now);
    assert active != [] ==> active[0] in active;
    blocking := Require(active != [], CredentialsMissing, blocking, f, now);
    var consented := exists p :: p in f.permissions && p.status == Consented;
    blocking := Require(consented || f.permissions == [], ConsentMissing, blocking, f, now);
    var invalid := exists p :: p in f.permissions && p.inherited && p.status == Withdrawn;
    blocking := Require(!invalid, InheritedInvalid, blocking, f, now);
  }

  method PeopleGates(f: Facts, now: real, before: seq<Issue>) returns (blocking: seq<Issue>)
    requires Lists(before, f, now, Rank(SponsorMissing))
    ensures Lists(blocking, f, now, Rank(GovernanceUnreachable))
  {
    blocking := Require(f.sponsored, SponsorMissing, before, f, now);
    blocking := Require(f.owned, OwnerMissing, blocking, f, now);
  }

  /** The gates on governance, audit and public documents. */
  method GovernanceGates(f: Facts, now: real, before: seq<Issue>) returns (blocking: seq<Issue>)
    requires Lists(before, f, now, Rank(GovernanceUnreachable))
    ensures Lists(blocking, f, now, Rank(DevelopmentCredentials))
  {
    blocking := Require(f.auditEndpoint || f.governanceEndpoint || f.supportUrl, GovernanceUnreachable, before, f, now);
    blocking := Require(f.auditLogging, AuditDisabled, blocking, f, now);
    var exposed := f.publiclyVisible || f.multitenant || f.production;
    blocking := Require(!exposed || (f.termsUrl && f.privacyUrl && f.supportUrl), UrlsMissing, blocking, f, now);
  }

  /** The gates on production credentials, risk and quarantine. */
  method RiskGates(f: Facts, now: real, active: seq<Credential>, before: seq<Issue>) returns (blocking: seq<Issue>)
    requires forall c :: c in active <==> c in f.credentials && IsActive(c, now)
    requires Lists(before, f, now, Rank(DevelopmentCredentials))
    ensures Lists(blocking, f, now, Rank(QuarantinedOrRevoked) + 1)
  {
    var developing := exists c :: c in active && c.development;
    blocking := Require(!(f.production && developing), DevelopmentCredentials, before, f, now);
    blocking := Require(f.riskScore < f.riskThreshold, RiskTooHigh, blocking, f, now);
    blocking := Require(f.state != L.Quarantined && !f.activeRevocation, QuarantinedOrRevoked, blocking, f, now);
  }

  function Unparsed(credentials: seq<Credential>): seq<Credential> {
    if credentials == [] then [] else
      var last := credentials[|credentials| - 1];
      Unparsed(credentials[..|credentials| - 1]) + if last.expiry.Unparseable? then [last] else []
  }

  method ActiveCredentials(credentials: seq<Credential>, now: real) returns (active: seq<Credential>, warnings: nat)
    ensures forall c :: c in active <==> c in credentials && IsActive(c, now)
    ensures warnings == |Unparsed(credentials)|
  {
    active, warnings := [], 0;
    for i := 0 to |credentials|
      invariant forall c :: c in active <==> c in credentials[..i] && IsActive(c, now)
      invariant warnings == |Unparsed(credentials[..i])|
    {
      var c := credentials[i];
      assert credentials[..i + 1] == credentials[..i] + [c] && credentials[..i + 1][..i] == credentials[..i];
      var expired := false;
      match c.expiry {
        case Never =>
        case At(time) => expired := time <= now;
        case Unparseable => warnings := warnings + 1;
      }
      assert IsActive(c, now) <==> c.usableStatus && !expired;
      if c.usableStatus && !expired {
        active := active + [c];
      }
    }
    assert credentials[..|credentials|] == credentials;
  }

  // ---------------------------------------------------------------------
  // Where the facts are looked up
  // ---------------------------------------------------------------------

  /** Lists and texts that are absent are empty: both are falsy, and the report asks for no more. */
  datatype RiskObject = RiskObject(score: Option<int>)

  datatype LifecycleObject = LifecycleObject(
    state: Option<L.State>, risk: Option<RiskObject>,
    owners: seq<string>, sponsors: seq<string>, credentials: seq<Credential>, permissions: seq<Permission>,
    methods: seq<string>, supportUrl: string, termsUrl: string, privacyUrl: string,
    auditLogging: Option<bool>, riskThreshold: Option<int>, activeRevocation: bool)

  datatype AgentObject = AgentObject(
    did: string, owners: seq<string>, sponsors: seq<string>, methods: seq<string>,
    visiblePublic: bool, multitenant: bool)

  datatype AuthorizationObject = AuthorizationObject(credentials: seq<Credential>, permissions: seq<Permission>)

  datatype GovernanceObject = GovernanceObject(
    supportUrl: string, termsUrl: string, privacyUrl: string, auditEndpoint: string, governanceEndpoint: string)

  datatype ExtensionsObject = ExtensionsObject(
    lifecycle: Option<LifecycleObject>, risk: Option<RiskObject>,
    owners: seq<string>, sponsors: seq<string>, credentials: seq<Credential>, permissions: seq<Permission>,
    supportUrl: string, termsUrl: string, privacyUrl: string)

  /** The stored JSON of a record; an object that is absent or empty is None where that makes a difference. */
  datatype Document = Document(
    lifecycle: Option<LifecycleObject>, extensions: ExtensionsObject, agent: AgentObject,
    authorization: AuthorizationObject, governance: GovernanceObject, methods: seq<string>)

  const NO_LIFECYCLE := LifecycleObject(None, None, [], [], [], [], [], "", "", "", None, None, false)

  /** Python's `a or b` on lists and texts, and on objects of which None is the empty one. */
  function Or<T>(a: seq<T>, b: seq<T>): seq<T> {
    if |a| > 0 then a else b
  }

  function OrObject<T>(a: Option<T>, b: Option<T>): Option<T> {
    if a.Some? then a else b
  }

  function Default<T>(a: Option<T>, value: T): T {
    if a.Some? then a.value else value
  }

  /** The lifecycle object the report reads: the stored one hides that of the extensions altogether. */
  function LifecycleOf(doc: Document): LifecycleObject {
    Default(OrObject(doc.lifecycle, doc.extensions.lifecycle), NO_LIFECYCLE)
  }

  /** The row as the state function sees it: only a lifecycle object of the document itself stores a state. */
  function RowOf(doc: Document, row: L.Row): L.Row {
    row.(explicitState := if doc.lifecycle.Some? then doc.lifecycle.value.state else None)
  }

  function FactsOf(doc: Document, row: L.Row, did: string, production: bool, threshold: Option<int>): Facts {
    Gathered(LifecycleOf(doc), doc, L.StateOf(RowOf(doc, row)), did, production, threshold)
  }

  /** What the report reads, given the lifecycle object it has settled on and the state of the record. */
  function Gathered(
    life: LifecycleObject, doc: Document, state: L.State, did: string, production: bool, threshold: Option<int>): Facts
  {
    var ext := doc.extensions;
    var supportUrl := Or(Or(doc.governance.supportUrl, life.supportUrl), ext.supportUrl);
    Facts(
      "did:" <= Or(doc.agent.did, did),
      |Or(Or(life.methods, doc.agent.methods), doc.methods)| > 0,
      "did:key:" <= did,
      Or(Or(life.credentials, ext.credentials), doc.authorization.credentials),
      Or(Or(life.permissions, ext.permissions), doc.authorization.permissions),
      |Or(Or(life.sponsors, ext.sponsors), doc.agent.sponsors)| > 0,
      |Or(Or(life.owners, ext.owners), doc.agent.owners)| > 0,
      |doc.governance.auditEndpoint| > 0,
      |doc.governance.governanceEndpoint| > 0,
      |supportUrl| > 0,
      |Or(Or(doc.governance.termsUrl, life.termsUrl), ext.termsUrl)| > 0,
      |Or(Or(doc.governance.privacyUrl, life.privacyUrl), ext.privacyUrl)| > 0,
      Default(life.auditLogging, true),
      doc.agent.visiblePublic,
      doc.agent.multitenant,
      production,
      Default(Default(OrObject(life.risk, ext.risk), RiskObject(None)).score, 0),
      Default(threshold, Default(life.riskThreshold, 80)),
      state,
      life.activeRevocation)
  }

  /** The report reads its lifecycle facts in the document's own object, else the extensions', else an empty one. */
  predicate IsRead(doc: Document, life: LifecycleObject) {
    || doc.lifecycle == Some(life)
    || (doc.lifecycle.None? && doc.extensions.lifecycle == Some(life))
    || (doc.lifecycle.None? && doc.extensions.lifecycle.None?
        && life == LifecycleObject(None, None, [], [], [], [], [], "", "", "", None, None, false))
  }

  /** What has to be in a document for each fact on identity and people. */
  lemma IdentityFacts(
    doc: Document, life: LifecycleObject, row: L.Row, did: string, production: bool, threshold: Option<int>)
    requires IsRead(doc, life)
    ensures var f, ext, agent := FactsOf(doc, row, did, production, threshold), doc.extensions, doc.agent;
            && (agent.did != "" ==> (f.didPrefixed <==> "did:" <= agent.did))
            && (agent.did == "" ==> (f.didPrefixed <==> "did:" <= did))
            && (f.didKey <==> "did:key:" <= did)
            && (f.methodsListed <==> life.methods != [] || agent.methods != [] || doc.methods != [])
            && (f.sponsored <==> life.sponsors != [] || ext.sponsors != [] || agent.sponsors != [])
            && (f.owned <==> life.owners != [] || ext.owners != [] || agent.owners != [])
            && (f.publiclyVisible <==> agent.visiblePublic) && (f.multitenant <==> agent.multitenant)
            && (f.production <==> production)
  {
  }

  /** Of the lists of credentials and permissions the first that is not empty counts, and it alone. */
  lemma ListedFacts(
    doc: Document, life: LifecycleObject, row: L.Row, did: string, production: bool, threshold: Option<int>)
    requires IsRead(doc, life)
    ensures var f, ext, authz := FactsOf(doc, row, did, production, threshold), doc.extensions, doc.authorization;
            && (life.credentials != [] ==> f.credentials == life.credentials)
            && (life.credentials == [] && ext.credentials != [] ==> f.credentials == ext.credentials)
            && (life.credentials == [] && ext.credentials == [] ==> f.credentials == authz.credentials)
            && (life.permissions != [] ==> f.permissions == life.permissions)
            && (life.permissions == [] && ext.permissions != [] ==> f.permissions == ext.permissions)
            && (life.permissions == [] && ext.permissions == [] ==> f.permissions == authz.permissions)
  {
  }

  lemma GovernanceFacts(
    doc: Document, life: LifecycleObject, row: L.Row, did: string, production: bool, threshold: Option<int>)
    requires IsRead(doc, life)
    ensures var f, ext, gov := FactsOf(doc, row, did, production, threshold), doc.extensions, doc.governance;
            && (f.auditEndpoint <==> gov.auditEndpoint != "")
            && (f.governanceEndpoint <==> gov.governanceEndpoint != "")
            && (f.supportUrl <==> gov.supportUrl != "" || life.supportUrl != "" || ext.supportUrl != "")
            && (f.termsUrl <==> gov.termsUrl != "" || life.termsUrl != "" || ext.termsUrl != "")
            && (f.privacyUrl <==> gov.privacyUrl != "" || life.privacyUrl != "" || ext.privacyUrl != "")
            && (f.auditLogging <==> life.auditLogging != Some(false))
            && (f.activeRevocation <==> life.activeRevocation)
  {
  }

  /** The score is 0 and the threshold 80 unless something says otherwise; a risk object without a score says 0. */
  lemma RiskFacts(
    doc: Document, life: LifecycleObject, row: L.Row, did: string, production: bool, threshold: Option<int>)
    requires IsRead(doc, life)
    ensures var f, ext := FactsOf(doc, row, did, production, threshold), doc.extensions;
            && (forall n :: life.risk == Some(RiskObject(Some(n))) ==> f.riskScore == n)
            && (life.risk == Some(RiskObject(None)) ==> f.riskScore == 0)
            && (forall n :: life.risk == None && ext.risk == Some(RiskObject(Some(n))) ==> f.riskScore == n)
            && (life.risk == None && ext.risk in {None, Some(RiskObject(None))} ==> f.riskScore == 0)
            && (threshold.Some? ==> f.riskThreshold == threshold.value)
            && (threshold.None? && life.riskThreshold.Some? ==> f.riskThreshold == life.riskThreshold.value)
            && (threshold.None? && life.riskThreshold.None? ==> f.riskThreshold == 80)
  {
  }

  /** Unlike the other facts, a state counts in the document's own object only. */
  lemma StateFact(doc: Document, row: L.Row, did: string, production: bool, threshold: Option<int>)
    ensures var f := FactsOf(doc, row, did, production, threshold);
            && (doc.lifecycle.Some? && doc.lifecycle.value.state.Some? ==>
                  f.state == doc.lifecycle.value.state.value)
            && (doc.lifecycle.None? || doc.lifecycle.value.state.None? ==>
                  f.state == L.StateOf(row.(explicitState := None)))
  {
  }

  /** The whole report on a record. */
  method ReportForRecord(doc: Document, row: L.Row, did: string, production: bool, threshold: Option<int>, now: real)
    returns (passed: bool, blocking: seq<Issue>, warnings: nat)
    ensures var f := FactsOf(doc, row, did, production, threshold);
            && (passed <==> forall issue :: GateOpen(f, now, issue))
            && (forall issue :: issue in blocking <==> !GateOpen(f, now, issue))
            && (forall i, j :: 0 <= i < j < |blocking| ==> Rank(blocking[i]) < Rank(blocking[j]))
            && warnings == |Unparsed(f.credentials)|
  {
    passed, blocking, warnings := ValidationReport(FactsOf(doc, row, did, production, threshold), now);
  }

  ghost predicate GatesOpen(f: Facts, now: real) {
    forall issue :: GateOpen(f, now, issue)
  }

  /** The document of a row stores the state the row has. */
  predicate Stores(doc: Document, row: L.Row) {
    RowOf(doc, row) == row
  }

  /** The `activate` route: the report on the record, consulted before the table. */
  method ActivateAgentRecord(service: L.Service, key: L.Key, doc: Document, production: bool, threshold: Option<int>,
                             force: bool, dryRun: bool, now: real)
    returns (answer: L.Answer)
    requires key in service.rows ==> Stores(doc, service.rows[key])
    modifies service
    ensures key !in old(service.rows) ==> answer == L.NotFound && service.View() == old(service.View())
    ensures key in old(service.rows) ==>
              var gates := GatesOpen(FactsOf(doc, old(service.rows[key]), key.did, production, threshold), now);
              (service.View(), answer) == L.Transition(old(service.View()), key, L.Activate, gates, force, dryRun, now)
  {
    var passed := false;
    if key in service.rows {
      var blocking, warnings;
      passed, blocking, warnings := ReportForRecord(doc, service.rows[key], key.did, production, threshold, now);
    }
    answer := service.TransitionAgentLifecycle(key, L.Activate, passed, force, dryRun, now);
  }

  lemma TableAlone(db: L.Db, key: L.Key, gates: bool, now: real)
    requires key in db.rows
    ensures var activated := L.Transition(db, key, L.Activate, gates, false, false, now);
            var resumed := L.Transition(db, key, L.Resume, gates, false, false, now);
            && (activated.1.Moved? <==> gates && L.StateOf(db.rows[key]) in L.TO_ACTIVE)
            && (resumed.1.Moved? <==> L.StateOf(db.rows[key]) in L.TO_ACTIVE)
            && (resumed.1.Moved? ==> L.StateOf(resumed.0.rows[key]) == L.Active)
  {
    L.ActionsExactly(db, key, L.Activate, gates, false, false, now);
    L.ActionsExactly(db, key, L.Resume, gates, false, false, now);
  }

  lemma QuarantineShutsGate(f: Facts, now: real)
    requires f.state == L.Quarantined
    ensures !GatesOpen(f, now)
  {
    assert !GateOpen(f, now, QuarantinedOrRevoked);
  }

  /**
   The report guards one action only: without force, `activate` takes a record to active just when the gates
   are open for what its document says and the table allows it, so never out of quarantine; `resume` just when
   the table allows it, out of quarantine too.
   */
  lemma OnlyActivateIsGated(
    db: L.Db, key: L.Key, doc: Document, production: bool, threshold: Option<int>, gates: bool, now: real)
    requires key in db.rows && Stores(doc, db.rows[key])
    ensures var previous := L.StateOf(db.rows[key]);
            var open := GatesOpen(FactsOf(doc, db.rows[key], key.did, production, threshold), now);
            var resumed := L.Transition(db, key, L.Resume, gates, false, false, now);
            var activated := L.Transition(db, key, L.Activate, open, false, false, now);
            && (activated.1.Moved? <==> open && previous in L.TO_ACTIVE)
            && (previous == L.Quarantined ==> !open)
            && (resumed.1.Moved? <==> previous in L.TO_ACTIVE)
            && (resumed.1.Moved? ==> L.StateOf(resumed.0.rows[key]) == L.Active)
  {
    var f := FactsOf(doc, db.rows[key], key.did, production, threshold);
    TableAlone(db, key, GatesOpen(f, now), now);
    TableAlone(db, key, gates, now);
    if L.StateOf(db.rows[key]) == L.Quarantined {
      QuarantineShutsGate(f, now);
    }
  }

  /** Storing a lifecycle state writes into the document's own lifecycle object, creating it if there is none. */
  function Stamped(doc: Document, s: L.State): Document {
    doc.(lifecycle := Some(Default(doc.lifecycle, NO_LIFECYCLE).(state := Some(s))))
  }

  /** The document without the lifecycle object of its extensions. */
  function Unextended(doc: Document): Document {
    doc.(extensions := doc.extensions.(lifecycle := None))
  }

  lemma StateIsReadElsewhere(life: LifecycleObject, s: L.State, doc: Document, other: Document,
                             did: string, production: bool, threshold: Option<int>)
    requires doc == other.(lifecycle := doc.lifecycle,
                           extensions := other.extensions.(lifecycle := doc.extensions.lifecycle))
    ensures Gathered(life.(state := Some(s)), other, s, did, production, threshold)
            == Gathered(life, doc, s, did, production, threshold)
  {
  }

  /**
   The first stored state hides the lifecycle object of the extensions for good: from then on the report
   is that of a document that never had one. Later ones change nothing the report reads but the state.
   */
  lemma StoringAStateHidesExtensions(
    doc: Document, row: L.Row, did: string, production: bool, threshold: Option<int>, s: L.State)
    ensures FactsOf(Stamped(doc, s), row, did, production, threshold)
            == FactsOf(if doc.lifecycle.None? then Unextended(doc) else doc,
                       row, did, production, threshold).(state := s)
  {
    var life := Default(doc.lifecycle, NO_LIFECYCLE);
    if doc.lifecycle.None? {
      StateIsReadElsewhere(life, s, Unextended(doc), Stamped(doc, s), did, production, threshold);
    } else {
      StateIsReadElsewhere(life, s, doc, Stamped(doc, s), did, production, threshold);
    }
  }

  /** What that does to one gate: an agent loses its owners exactly when only that object names any. */
  lemma OwnersLostExactly(doc: Document, row: L.Row, did: string, production: bool, threshold: Option<int>, s: L.State)
    ensures && FactsOf(doc, row, did, production, threshold).owned
            && !FactsOf(Stamped(doc, s), row, did, production, threshold).owned
            <==>
            && doc.lifecycle.None? && doc.extensions.lifecycle.Some? && doc.extensions.lifecycle.value.owners != []
            && doc.extensions.owners == [] && doc.agent.owners == []
  {
  }
}

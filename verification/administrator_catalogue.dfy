/** The closed control catalogue of the administrator handoff (src/administrator-handoff.ts) and
    the prerequisite graph it spans. */
module AdministratorCatalogue {
  import opened Ordering
  import opened Text
  import opened Wrappers
  import opened AdministratorState

  datatype ControlId =
    | AppRegistration | AppOwnershipTransfer | AppInstallation | ProjectBindingAndProjection
    | AppPermissionsAndEvents | WebhookAndOidcIdentity | KeyCustodyAndRotation | FourStoreTopology
    | BackupRestoreAndDisabledRecovery | CredentialBroker | SingleWriter | IsolatedRunner
    | MainRulesetAndRequiredChecks | ActionsPolicy | GhasAndCodeql | ProtectedEnvironment
    | MonitoringHealthAndAlertRouting | LogsArtifactsAndDataRetention | ProviderBillingBudgetsAndUsage
    | KillSwitchAndRevocation | RecoveryDrills | IncidentResponse | CustomerTransfer | OpenSourcePreflight
    | FinalHumanLoginAndReadback | AppBackedSandboxCanary | ProductionReadiness

  datatype Binding =
    | Owner | Repository | SourceOwner | Project | Environment | Ruleset | App | Installation | BillingAccount

  datatype ResponsibleOwner =
    | OrganizationAdministrator | RepositoryAdministrator | ProjectAdministrator | SecurityOwner | PlatformOwner
    | BillingOwner | IncidentCommander | LegalOspoOwner | CustomerOwner

  datatype TargetSource =
    | OwnerRepositoryRead | AppRegistrationRead | InstallationRead | ProjectExport | RepositoryAdministrationRead
    | DeploymentInventory | BillingRead | OperationsEvidence | HumanDecision

  datatype Procedure =
    | ApiReadback | ServiceHealthReadback | DisabledDrillReadback | ExactHeadReadback | DecisionRecordReadback
    | LiveCanaryReadback

  /** Who answers for a control, from which source, by which readback. */
  datatype Terms = Terms(owner: ResponsibleOwner, source: TargetSource, procedure: Procedure)

  datatype ActionClass = HumanAdministrativeApply | HumanDecisionStep | ReadbackOnly | Drill

  datatype RollbackMode =
    | ReversalPlan | DisableWriterAndReconcile | RestoreIntoDisabledServices | NoAutomaticRollback | NothingToRollBack

  /** What carrying a control out takes. */
  datatype Details = Details(
    actionClass: ActionClass, applyPlanRequired: bool, rollbackMode: RollbackMode, stateRequirements: seq<Requirement>)

  /** A catalogue over any type of control id; `order` lists the ids by sequence number, and
      `appBackedExcluded` those the App-backed sandbox does without. */
  datatype Catalogue<!C(==)> = Catalogue(
    order: seq<C>, prerequisites: C -> seq<C>, bindings: C -> seq<Binding>, terms: C -> Terms, details: C -> Details,
    appBackedExcluded: set<C>)

  // ----- The real catalogue -----

  const CONTROL_COUNT := 27

  /** The control with sequence number i + 1. */
  function ControlAt(i: nat): ControlId {
    match i
    case 0 => AppRegistration
    case 1 => AppOwnershipTransfer
    case 2 => AppInstallation
    case 3 => ProjectBindingAndProjection
    case 4 => AppPermissionsAndEvents
    case 5 => WebhookAndOidcIdentity
    case 6 => KeyCustodyAndRotation
    case 7 => FourStoreTopology
    case 8 => BackupRestoreAndDisabledRecovery
    case 9 => CredentialBroker
    case 10 => SingleWriter
    case 11 => IsolatedRunner
    case 12 => MainRulesetAndRequiredChecks
    case 13 => ActionsPolicy
    case 14 => GhasAndCodeql
    case 15 => ProtectedEnvironment
    case 16 => MonitoringHealthAndAlertRouting
    case 17 => LogsArtifactsAndDataRetention
    case 18 => ProviderBillingBudgetsAndUsage
    case 19 => KillSwitchAndRevocation
    case 20 => RecoveryDrills
    case 21 => IncidentResponse
    case 22 => CustomerTransfer
    case 23 => OpenSourcePreflight
    case 24 => FinalHumanLoginAndReadback
    case 25 => AppBackedSandboxCanary
    case _ => ProductionReadiness
  }

  /** Sequence number less one. */
  function Position(c: ControlId): (i: nat)
    ensures i < 27
  {
    match c
    case AppRegistration => 0
    case AppOwnershipTransfer => 1
    case AppInstallation => 2
    case ProjectBindingAndProjection => 3
    case AppPermissionsAndEvents => 4
    case WebhookAndOidcIdentity => 5
    case KeyCustodyAndRotation => 6
    case FourStoreTopology => 7
    case BackupRestoreAndDisabledRecovery => 8
    case CredentialBroker => 9
    case SingleWriter => 10
    case IsolatedRunner => 11
    case MainRulesetAndRequiredChecks => 12
    case ActionsPolicy => 13
    case GhasAndCodeql => 14
    case ProtectedEnvironment => 15
    case MonitoringHealthAndAlertRouting => 16
    case LogsArtifactsAndDataRetention => 17
    case ProviderBillingBudgetsAndUsage => 18
    case KillSwitchAndRevocation => 19
    case RecoveryDrills => 20
    case IncidentResponse => 21
    case CustomerTransfer => 22
    case OpenSourcePreflight => 23
    case FinalHumanLoginAndReadback => 24
    case AppBackedSandboxCanary => 25
    case ProductionReadiness => 26
  }

  function Prerequisites(c: ControlId): seq<ControlId> {
    match c
    case AppOwnershipTransfer => [AppRegistration]
    case AppInstallation => [AppOwnershipTransfer]
    case AppPermissionsAndEvents => [AppInstallation]
    case WebhookAndOidcIdentity => [AppPermissionsAndEvents]
    case KeyCustodyAndRotation => [WebhookAndOidcIdentity]
    case BackupRestoreAndDisabledRecovery => [FourStoreTopology]
    case CredentialBroker => [KeyCustodyAndRotation, FourStoreTopology]
    case SingleWriter => [CredentialBroker, FourStoreTopology]
    case IsolatedRunner => [WebhookAndOidcIdentity]
    case GhasAndCodeql => [MainRulesetAndRequiredChecks]
    case ProtectedEnvironment => [ActionsPolicy]
    case MonitoringHealthAndAlertRouting => [FourStoreTopology, SingleWriter]
    case LogsArtifactsAndDataRetention => [MonitoringHealthAndAlertRouting]
    case ProviderBillingBudgetsAndUsage => [CredentialBroker, IsolatedRunner]
    case KillSwitchAndRevocation => [SingleWriter, ProviderBillingBudgetsAndUsage]
    case RecoveryDrills => [BackupRestoreAndDisabledRecovery, KillSwitchAndRevocation]
    case IncidentResponse => [MonitoringHealthAndAlertRouting, RecoveryDrills]
    case CustomerTransfer => [IncidentResponse]
    case FinalHumanLoginAndReadback =>
      [ProjectBindingAndProjection, AppPermissionsAndEvents, ProtectedEnvironment, GhasAndCodeql,
       LogsArtifactsAndDataRetention, ProviderBillingBudgetsAndUsage, IncidentResponse]
    case AppBackedSandboxCanary => [FinalHumanLoginAndReadback]
    case ProductionReadiness => [AppBackedSandboxCanary, CustomerTransfer]
    case _ => []
  }

  const EVERY_LIVE_BINDING: seq<Binding> :=
    [Owner, Repository, Project, Environment, Ruleset, App, Installation, BillingAccount]

  function Bindings(c: ControlId): seq<Binding> {
    match c
    case AppOwnershipTransfer => [SourceOwner, Owner, Repository, App]
    case AppInstallation => [Owner, Repository, App]
    case ProjectBindingAndProjection => [Owner, Repository, Project]
    case AppPermissionsAndEvents => [Owner, Repository, App, Installation]
    case WebhookAndOidcIdentity => [Owner, Repository, App, Installation]
    case KeyCustodyAndRotation => [Owner, Repository, App]
    case CredentialBroker => [Owner, Repository, App, Installation]
    case SingleWriter => [Owner, Repository, App, Installation]
    case MainRulesetAndRequiredChecks => [Owner, Repository, Ruleset]
    case ProtectedEnvironment => [Owner, Repository, Environment]
    case ProviderBillingBudgetsAndUsage => [Owner, Repository, BillingAccount]
    case KillSwitchAndRevocation => [Owner, Repository, App, Installation]
    case FinalHumanLoginAndReadback => EVERY_LIVE_BINDING
    case AppBackedSandboxCanary => EVERY_LIVE_BINDING
    case ProductionReadiness => EVERY_LIVE_BINDING
    case _ => [Owner, Repository]
  }

  function TermsOf(c: ControlId): Terms {
    match c
    case AppRegistration => Terms(OrganizationAdministrator, OwnerRepositoryRead, ApiReadback)
    case AppOwnershipTransfer => Terms(OrganizationAdministrator, AppRegistrationRead, ApiReadback)
    case AppInstallation => Terms(OrganizationAdministrator, AppRegistrationRead, ApiReadback)
    case AppPermissionsAndEvents => Terms(OrganizationAdministrator, InstallationRead, ApiReadback)
    case WebhookAndOidcIdentity => Terms(SecurityOwner, DeploymentInventory, ServiceHealthReadback)
    case KeyCustodyAndRotation => Terms(SecurityOwner, DeploymentInventory, ServiceHealthReadback)
    case FourStoreTopology => Terms(PlatformOwner, DeploymentInventory, ServiceHealthReadback)
    case BackupRestoreAndDisabledRecovery => Terms(PlatformOwner, OperationsEvidence, DisabledDrillReadback)
    case CredentialBroker => Terms(SecurityOwner, DeploymentInventory, ServiceHealthReadback)
    case SingleWriter => Terms(PlatformOwner, DeploymentInventory, ServiceHealthReadback)
    case IsolatedRunner => Terms(PlatformOwner, DeploymentInventory, ServiceHealthReadback)
    case ProjectBindingAndProjection => Terms(ProjectAdministrator, ProjectExport, ApiReadback)
    case MainRulesetAndRequiredChecks => Terms(RepositoryAdministrator, RepositoryAdministrationRead, ExactHeadReadback)
    case ActionsPolicy => Terms(RepositoryAdministrator, RepositoryAdministrationRead, ApiReadback)
    case GhasAndCodeql => Terms(SecurityOwner, RepositoryAdministrationRead, ExactHeadReadback)
    case ProtectedEnvironment => Terms(RepositoryAdministrator, RepositoryAdministrationRead, ApiReadback)
    case MonitoringHealthAndAlertRouting => Terms(PlatformOwner, OperationsEvidence, ServiceHealthReadback)
    case LogsArtifactsAndDataRetention => Terms(SecurityOwner, OperationsEvidence, ApiReadback)
    case ProviderBillingBudgetsAndUsage => Terms(BillingOwner, BillingRead, ApiReadback)
    case KillSwitchAndRevocation => Terms(IncidentCommander, OperationsEvidence, DisabledDrillReadback)
    case RecoveryDrills => Terms(IncidentCommander, OperationsEvidence, DisabledDrillReadback)
    case IncidentResponse => Terms(IncidentCommander, HumanDecision, DecisionRecordReadback)
    case CustomerTransfer => Terms(CustomerOwner, HumanDecision, DecisionRecordReadback)
    case OpenSourcePreflight => Terms(LegalOspoOwner, HumanDecision, DecisionRecordReadback)
    case FinalHumanLoginAndReadback => Terms(OrganizationAdministrator, RepositoryAdministrationRead, ApiReadback)
    case AppBackedSandboxCanary => Terms(SecurityOwner, OperationsEvidence, LiveCanaryReadback)
    case ProductionReadiness => Terms(OrganizationAdministrator, HumanDecision, DecisionRecordReadback)
  }

  /** Human decisions, the final readback and the canary are not administrative applies. */
  predicate ApplyPlanRequired(c: ControlId) { Position(c) < 21 }

  function ActionClassOf(c: ControlId): ActionClass {
    match c
    case IncidentResponse => HumanDecisionStep
    case CustomerTransfer => HumanDecisionStep
    case OpenSourcePreflight => HumanDecisionStep
    case ProductionReadiness => HumanDecisionStep
    case FinalHumanLoginAndReadback => ReadbackOnly
    case BackupRestoreAndDisabledRecovery => Drill
    case KillSwitchAndRevocation => Drill
    case RecoveryDrills => Drill
    case AppBackedSandboxCanary => Drill
    case _ => HumanAdministrativeApply
  }

  function RollbackOf(c: ControlId): RollbackMode {
    match c
    case WebhookAndOidcIdentity => DisableWriterAndReconcile
    case KeyCustodyAndRotation => DisableWriterAndReconcile
    case CredentialBroker => DisableWriterAndReconcile
    case SingleWriter => DisableWriterAndReconcile
    case IsolatedRunner => DisableWriterAndReconcile
    case MonitoringHealthAndAlertRouting => DisableWriterAndReconcile
    case ProviderBillingBudgetsAndUsage => DisableWriterAndReconcile
    case KillSwitchAndRevocation => DisableWriterAndReconcile
    case AppBackedSandboxCanary => DisableWriterAndReconcile
    case FourStoreTopology => RestoreIntoDisabledServices
    case BackupRestoreAndDisabledRecovery => RestoreIntoDisabledServices
    case RecoveryDrills => RestoreIntoDisabledServices
    case IncidentResponse => NoAutomaticRollback
    case CustomerTransfer => NoAutomaticRollback
    case OpenSourcePreflight => NoAutomaticRollback
    case ProductionReadiness => NoAutomaticRollback
    case FinalHumanLoginAndReadback => NothingToRollBack
    case _ => ReversalPlan
  }

  /** `area.name` */
  function StateKey(area: string, name: string): Text { OfString(area + ".") + OfString(name) }

  function Boolean(area: string, name: string, desired: bool): Requirement {
    Requirement(StateKey(area, name), BooleanValue, Some(Flag(desired)))
  }

  function On(area: string, name: string): Requirement { Boolean(area, name, true) }

  function AnyInteger(area: string, name: string): Requirement { Requirement(StateKey(area, name), IntegerValue, None) }

  /** The keys of a control whose every requirement is one to be switched on. */
  function SwitchesOf(c: ControlId): (keys: seq<(string, string)>)
    ensures |keys| <= 4
  {
    match c
    case AppRegistration => [("app", "registration")]
    case AppOwnershipTransfer => [("app", "owner")]
    case AppInstallation => [("app", "installation")]
    case AppPermissionsAndEvents => [("app", "events"), ("app", "permissions")]
    case WebhookAndOidcIdentity => [("identity", "oidc"), ("identity", "webhook")]
    case KeyCustodyAndRotation => [("keys", "custody"), ("keys", "rotation")]
    case FourStoreTopology => [("stores", "topology")]
    case BackupRestoreAndDisabledRecovery => [("stores", "backup"), ("stores", "disabledRecovery"), ("stores", "restore")]
    case CredentialBroker => [("services", "credentialBroker")]
    case SingleWriter => [("services", "singleWriter")]
    case IsolatedRunner => [("runner", "isolation")]
    case ProjectBindingAndProjection => [("project", "binding"), ("project", "projection")]
    case GhasAndCodeql =>
      [("security", "codeql"), ("security", "dependencyReview"), ("security", "ghas"), ("security", "secretScanning")]
    case ProtectedEnvironment => [("environment", "protection")]
    case MonitoringHealthAndAlertRouting => [("monitoring", "alertRouting"), ("monitoring", "health")]
    case ProviderBillingBudgetsAndUsage =>
      [("billing", "enabled"), ("budgets", "enforced"), ("provider", "enabled"), ("usage", "reconciliation")]
    case KillSwitchAndRevocation => [("killSwitch", "ready"), ("revocation", "ready")]
    case RecoveryDrills => [("recovery", "drills")]
    case _ => []
  }

  function AllOn(keys: seq<(string, string)>): (requirements: seq<Requirement>)
    ensures |requirements| == |keys| && forall i :: 0 <= i < |keys| ==> requirements[i] == On(keys[i].0, keys[i].1)
  {
    seq(|keys|, i requires 0 <= i < |keys| => On(keys[i].0, keys[i].1))
  }

  function Requirements(c: ControlId): seq<Requirement> {
    match c
    case MainRulesetAndRequiredChecks =>
      [Requirement(StateKey("checks", "required"), IntegerValue, Some(Whole(12))), On("ruleset", "main")]
    case ActionsPolicy =>
      [On("actions", "allowlist"), Boolean("actions", "reviewPermission", false), On("actions", "shaPinning")]
    case LogsArtifactsAndDataRetention =>
      [AnyInteger("retention", "artifacts"), AnyInteger("retention", "data"), AnyInteger("retention", "logs")]
    case _ => AllOn(SwitchesOf(c))
  }

  function DetailsOf(c: ControlId): Details {
    Details(ActionClassOf(c), ApplyPlanRequired(c), RollbackOf(c), Requirements(c))
  }

  function Order(): (order: seq<ControlId>)
    ensures |order| == CONTROL_COUNT && forall i :: 0 <= i < CONTROL_COUNT ==> order[i] == ControlAt(i)
  {
    seq(CONTROL_COUNT, i requires 0 <= i => ControlAt(i))
  }

  function RealCatalogue(): Catalogue<ControlId> {
    Catalogue(Order(), (c: ControlId) => Prerequisites(c), (c: ControlId) => Bindings(c), (c: ControlId) => TermsOf(c),
              (c: ControlId) => DetailsOf(c), {CustomerTransfer, OpenSourcePreflight, ProductionReadiness})
  }

  // ----- Prerequisite chains -----

  /** Ids are distinct and every prerequisite comes earlier in sequence. */
  ghost predicate WellOrdered<C>(catalogue: Catalogue<C>) {
    && Distinct(catalogue.order)
    && forall i, p :: 0 <= i < |catalogue.order| && p in catalogue.prerequisites(catalogue.order[i]) ==>
      p in catalogue.order[..i]
  }

  /** A set of controls that holds every prerequisite of its members. */
  ghost predicate Closed<C>(catalogue: Catalogue<C>, s: set<C>) {
    forall c, p :: c in s && p in catalogue.prerequisites(c) ==> p in s
  }

  /** Each id after the first is a prerequisite of the one before it. */
  ghost predicate Chain<C>(catalogue: Catalogue<C>, chain: seq<C>) {
    && chain != [] && chain[0] in catalogue.order
    && forall k :: 0 < k < |chain| ==> chain[k] in catalogue.prerequisites(chain[k - 1])
  }

  /** Along a chain, positions go down: no control is its own transitive prerequisite, and no
      chain is longer than the catalogue. */
  lemma {:induction false} ChainDescends<C>(catalogue: Catalogue<C>, chain: seq<C>, i: nat)
    requires WellOrdered(catalogue) && Chain(catalogue, chain)
    requires i < |catalogue.order| && catalogue.order[i] == chain[0]
    ensures |chain| <= i + 1
    ensures forall k :: 0 < k < |chain| ==> chain[k] in catalogue.order[..i]
    decreases |chain|
  {
    if |chain| > 1 {
      assert chain[1] in catalogue.order[..i];
      var j :| 0 <= j < i && catalogue.order[j] == chain[1];
      var rest := chain[1..];
      assert Chain(catalogue, rest) by {
        forall k | 0 < k < |rest| ensures rest[k] in catalogue.prerequisites(rest[k - 1]) {
          assert chain[k + 1] in catalogue.prerequisites(chain[k]);
        }
      }
      ChainDescends(catalogue, rest, j);
      forall k | 0 < k < |chain| ensures chain[k] in catalogue.order[..i] {
        if k > 1 {
          assert rest[k - 1] in catalogue.order[..j];
          var m :| 0 <= m < j && catalogue.order[m] == rest[k - 1];
          assert catalogue.order[..i][m] == chain[k];
        }
      }
    }
  }

  lemma PositionAt(c: ControlId)
    ensures ControlAt(Position(c)) == c
  {
    var i := Position(c);
    if i < 9 {
    } else if i < 18 {
    } else {
    }
  }

  lemma AtPosition(i: nat)
    requires i < CONTROL_COUNT
    ensures Position(ControlAt(i)) == i
  {
  }

  /** Every control is listed, once. */
  lemma OrderComplete()
    ensures Distinct(Order())
    ensures forall c: ControlId :: c in Order()
  {
    forall i, j | 0 <= i < j < CONTROL_COUNT ensures Order()[i] != Order()[j] {
      AtPosition(i);
      AtPosition(j);
    }
    forall c: ControlId ensures c in Order() {
      PositionAt(c);
      assert Order()[Position(c)] == c;
    }
  }

  lemma PrerequisitesEarlier(c: ControlId, p: ControlId)
    requires p in Prerequisites(c)
    ensures Position(p) < Position(c)
  {
  }

  lemma RealWellOrdered()
    ensures WellOrdered(RealCatalogue())
  {
    OrderComplete();
    var order := Order();
    forall i, p | 0 <= i < |order| && p in RealCatalogue().prerequisites(order[i]) ensures p in order[..i] {
      PrerequisitesEarlier(order[i], p);
      PositionAt(p);
      AtPosition(i);
      assert order[..i][Position(p)] == p;
    }
  }

  lemma {:induction false} ClosedAlongChain<C>(catalogue: Catalogue<C>, s: set<C>, chain: seq<C>)
    requires Closed(catalogue, s) && Chain(catalogue, chain) && chain[0] in s
    ensures forall k :: 0 <= k < |chain| ==> chain[k] in s
    decreases |chain|
  {
    if |chain| > 1 {
      var front := chain[..|chain| - 1];
      assert Chain(catalogue, front);
      ClosedAlongChain(catalogue, s, front);
      assert chain[|chain| - 1] in catalogue.prerequisites(front[|front| - 1]);
    }
  }

  // ----- What two controls of the real catalogue force -----

  lemma Forces(s: set<ControlId>, c: ControlId)
    requires Closed(RealCatalogue(), s) && c in s
    ensures forall p :: p in Prerequisites(c) ==> p in s
  {
    assert forall p :: p in Prerequisites(c) ==> p in RealCatalogue().prerequisites(c);
  }

  lemma OneForces(s: set<ControlId>, c: ControlId, p: ControlId)
    requires Closed(RealCatalogue(), s) && c in s && p in Prerequisites(c)
    ensures p in s
  {
    Forces(s, c);
  }

  predicate AppLine(s: set<ControlId>) {
    && AppRegistration in s && AppOwnershipTransfer in s && AppInstallation in s && AppPermissionsAndEvents in s
    && WebhookAndOidcIdentity in s && KeyCustodyAndRotation in s
  }

  predicate RuntimeLine(s: set<ControlId>) {
    && FourStoreTopology in s && CredentialBroker in s && SingleWriter in s && IsolatedRunner in s
    && ProviderBillingBudgetsAndUsage in s && KillSwitchAndRevocation in s && RecoveryDrills in s
    && BackupRestoreAndDisabledRecovery in s && MonitoringHealthAndAlertRouting in s
  }

  predicate ReadbackLine(s: set<ControlId>) {
    && FinalHumanLoginAndReadback in s && ProjectBindingAndProjection in s && ProtectedEnvironment in s
    && GhasAndCodeql in s && LogsArtifactsAndDataRetention in s && IncidentResponse in s && ActionsPolicy in s
    && MainRulesetAndRequiredChecks in s && AppBackedSandboxCanary in s
  }

  lemma CustodyForces(s: set<ControlId>)
    requires Closed(RealCatalogue(), s) && KeyCustodyAndRotation in s
    ensures AppLine(s)
  {
    hide Closed;
    OneForces(s, KeyCustodyAndRotation, WebhookAndOidcIdentity);
    OneForces(s, WebhookAndOidcIdentity, AppPermissionsAndEvents);
    OneForces(s, AppPermissionsAndEvents, AppInstallation);
    OneForces(s, AppInstallation, AppOwnershipTransfer);
    OneForces(s, AppOwnershipTransfer, AppRegistration);
  }

  lemma IncidentForces(s: set<ControlId>)
    requires Closed(RealCatalogue(), s) && IncidentResponse in s
    ensures AppLine(s) && RuntimeLine(s)
  {
    hide Closed;
    OneForces(s, IncidentResponse, MonitoringHealthAndAlertRouting);
    OneForces(s, IncidentResponse, RecoveryDrills);
    OneForces(s, RecoveryDrills, BackupRestoreAndDisabledRecovery);
    OneForces(s, RecoveryDrills, KillSwitchAndRevocation);
    OneForces(s, KillSwitchAndRevocation, ProviderBillingBudgetsAndUsage);
    OneForces(s, KillSwitchAndRevocation, SingleWriter);
    OneForces(s, SingleWriter, FourStoreTopology);
    OneForces(s, SingleWriter, CredentialBroker);
    OneForces(s, ProviderBillingBudgetsAndUsage, IsolatedRunner);
    OneForces(s, CredentialBroker, KeyCustodyAndRotation);
    CustodyForces(s);
  }

  lemma FinalForces(s: set<ControlId>)
    requires Closed(RealCatalogue(), s) && FinalHumanLoginAndReadback in s
    ensures ProjectBindingAndProjection in s && ProtectedEnvironment in s && GhasAndCodeql in s
    ensures LogsArtifactsAndDataRetention in s && IncidentResponse in s
  {
    hide Closed;
    Forces(s, FinalHumanLoginAndReadback);
  }

  lemma CanaryForcesReadback(s: set<ControlId>)
    requires Closed(RealCatalogue(), s) && AppBackedSandboxCanary in s
    ensures ReadbackLine(s)
  {
    hide Closed;
    OneForces(s, AppBackedSandboxCanary, FinalHumanLoginAndReadback);
    FinalForces(s);
    OneForces(s, ProtectedEnvironment, ActionsPolicy);
    OneForces(s, GhasAndCodeql, MainRulesetAndRequiredChecks);
  }

  lemma CanaryForcesLines(s: set<ControlId>)
    requires Closed(RealCatalogue(), s) && AppBackedSandboxCanary in s
    ensures AppLine(s) && RuntimeLine(s) && ReadbackLine(s)
  {
    hide Closed;
    hide RealCatalogue;
    hide Prerequisites;
    hide AppLine;
    hide RuntimeLine;
    CanaryForcesReadback(s);
    IncidentForces(s);
  }

  /** The canary stands on all controls but the three the App-backed sandbox does without. */
  lemma CanaryForces(s: set<ControlId>)
    requires Closed(RealCatalogue(), s) && AppBackedSandboxCanary in s
    ensures forall c: ControlId :: c !in RealCatalogue().appBackedExcluded ==> c in s
  {
    CanaryForcesLines(s);
    forall c: ControlId | c !in RealCatalogue().appBackedExcluded ensures c in s { Lines(s, c); }
  }

  lemma Lines(s: set<ControlId>, c: ControlId)
    requires AppLine(s) && RuntimeLine(s) && ReadbackLine(s)
    ensures c in s || c in {CustomerTransfer, OpenSourcePreflight, ProductionReadiness}
  {
  }

  /** Production readiness stands on everything but the open-source decision, which nothing
      stands on. */
  lemma ProductionForces(s: set<ControlId>)
    requires Closed(RealCatalogue(), s) && ProductionReadiness in s
    ensures forall c: ControlId :: c != OpenSourcePreflight ==> c in s
  {
    OneForces(s, ProductionReadiness, AppBackedSandboxCanary);
    OneForces(s, ProductionReadiness, CustomerTransfer);
    CanaryForces(s);
  }

  lemma NothingNeedsOpenSource(chain: seq<ControlId>)
    requires Chain(RealCatalogue(), chain) && chain[|chain| - 1] == OpenSourcePreflight
    ensures chain == [OpenSourcePreflight]
  {
    if |chain| > 1 {
      var c := chain[|chain| - 2];
      assert chain[|chain| - 1] in RealCatalogue().prerequisites(c);
      NotAPrerequisite(c);
    }
  }

  lemma NotAPrerequisite(c: ControlId)
    ensures OpenSourcePreflight !in Prerequisites(c)
  {
  }
}

/** The administrator apply protocol (src/administrator-handoff.ts): plan, separate confirmation,
    pre-apply readback, one attempt, post-apply readback. Documents are records, on which
    stableDataSnapshot is the identity. */
module AdministratorApply {
  import opened Freshness
  import opened Text
  import opened Wrappers
  import opened AdministratorState
  import AP = AdministratorPlan
  import AC = AdministratorCatalogue
  import HP = AdministratorHandoffPlan
  import K = KeyedLists

  datatype Account = Account(id: int, nodeId: string, login: string)

  datatype ProjectRef = ProjectRef(id: string, number: int, itemId: string, fieldId: string)

  datatype EnvironmentRef = EnvironmentRef(id: int, nodeId: string, name: string)

  datatype RefKind = BranchRefs | TagRefs | PushRefs

  datatype RulesetRef = RulesetRef(id: int, name: string, target: RefKind)

  datatype AppRef = AppRef(id: int, nodeId: string)

  datatype InstallationRef = InstallationRef(id: int, accountId: int, accountNodeId: string)

  datatype ExactTarget = ExactTarget(
    sourceOwner: Option<Account>, owner: Account, repository: AP.Repository, project: Option<ProjectRef>,
    environment: Option<EnvironmentRef>, ruleset: Option<RulesetRef>, app: Option<AppRef>,
    installation: Option<InstallationRef>, billingAccountId: Option<string>)

  /** What a plan is about; attempt id and idempotency key are digests over it. */
  datatype Intent = Intent(
    handoffPlanDigest: string, operationId: AC.ControlId, generatedAt: int, expiresAt: int, target: ExactTarget,
    expectedCurrent: StateSet, desired: StateSet)

  datatype ApplyPlan = ApplyPlan(
    intent: Intent, attemptId: string, idempotencyKey: string, prohibitedEffects: seq<string>, protocol: HP.Protocol,
    grantsNothing: bool)

  datatype Confirmation = Confirmation(
    planDigest: string, confirmationId: string, confirmedBy: string, confirmedAt: int, expiresAt: int,
    separateExplicitHumanConfirmation: bool, confirmationEvidenceDigest: string, performsNoEffect: bool)

  datatype Phase = PreApply | PostApply

  datatype Acknowledgement = NotAttempted | UnambiguousApplied | Ambiguous

  datatype Readback = Readback(
    phase: Phase, observedAt: int, planDigest: string, confirmationDigest: string, attemptId: string,
    target: ExactTarget, actual: StateSet, completeReadback: bool, evidenceOnly: bool, mutationAttemptCount: int,
    acknowledgement: Acknowledgement, preApplyReadbackDigest: Option<string>, attemptedAt: Option<int>,
    attemptReceiptDigest: Option<string>)

  /** Digests of the documents, and lower-casing. */
  datatype Env = Env(
    encoding: Encoding,
    attempt: Intent -> string,
    idempotency: (Intent, string) -> string,
    plan: ApplyPlan -> string,
    confirmation: Confirmation -> string,
    readback: Readback -> string,
    target: ExactTarget -> string,
    handoff: HP.Digests<AC.ControlId>,
    lower: string -> string)

  /** No two documents of one kind share a digest. */
  ghost predicate CollisionFree(env: Env) {
    && Sound(env.encoding)
    && (forall a, b :: env.attempt(a) == env.attempt(b) ==> a == b)
    && (forall a, b :: env.plan(a) == env.plan(b) ==> a == b)
    && (forall a, b :: env.confirmation(a) == env.confirmation(b) ==> a == b)
    && (forall a, b :: env.readback(a) == env.readback(b) ==> a == b)
    && (forall a, b :: env.target(a) == env.target(b) ==> a == b)
    && HP.CollisionFree(env.handoff)
  }

  datatype Issue =
    | HandoffPlanIssue | CurrentStateIssue | DesiredStateIssue | OperationIssue | IdempotencyIssue | StateKeysIssue | RequirementIssue
    | BindingIssue | RulesetTargetIssue | OwnerIssue | InstallationIssue | SourceOwnerIssue | EffectsIssue
    | ProtocolIssue | AuthorityIssue | ExpiryIssue | PlanDigestIssue | TargetIssue | AttemptIssue | FreshnessIssue
    | ActualStateIssue | ConfirmationIssue | ConfirmationBindingIssue | PreApplyIssue | OrderIssue | PhaseIssue
    | AcknowledgementIssue | PostBindingIssue | DesiredNotObserved | AmbiguousIssue

  // ----- Targets and requirements -----

  predicate BindingPresent(target: ExactTarget, binding: AC.Binding) {
    match binding
    case Owner => true
    case Repository => true
    case SourceOwner => target.sourceOwner.Some?
    case Project => target.project.Some?
    case Environment => target.environment.Some?
    case Ruleset => target.ruleset.Some?
    case App => target.app.Some?
    case Installation => target.installation.Some?
    case BillingAccount => target.billingAccountId.Some?
  }

  predicate InDomain(value: Scalar, valueType: ValueType) {
    match valueType
    case BooleanValue => value.Flag?
    case IntegerValue => value.Whole? && IsSafeInteger(value.n)
    case StringValue => value.Words?
  }

  predicate Meets(requirement: Requirement, current: Scalar, desired: Scalar) {
    && InDomain(current, requirement.valueType) && InDomain(desired, requirement.valueType)
    && (requirement.requiredDesiredValue.Some? ==> desired == requirement.requiredDesiredValue.value)
  }

  function RequirementKey(requirement: Requirement): Text { requirement.key }

  /** Exactly the required keys, each with values of its domain and the demanded desired value. */
  predicate RequirementsMet(requirements: seq<Requirement>, current: seq<StateEntry>, desired: seq<StateEntry>) {
    && K.Keys(current, EntryKey) == K.Keys(requirements, RequirementKey)
    && K.Keys(desired, EntryKey) == K.Keys(requirements, RequirementKey)
    && |current| == |requirements| == |desired|
    && forall i :: 0 <= i < |requirements| ==> Meets(requirements[i], current[i].value, desired[i].value)
  }

  /** Array.prototype.find by key. */
  function Find(values: seq<StateEntry>, key: Text): (found: Option<Scalar>) {
    if values == [] then None else if values[0].key == key then Some(values[0].value) else Find(values[1..], key)
  }

  lemma {:induction false} FindAt(values: seq<StateEntry>, i: nat)
    requires K.KeysDistinct(values, EntryKey) && i < |values|
    ensures Find(values, values[i].key) == Some(values[i].value)
  {
    if i > 0 {
      assert K.Keys(values, EntryKey)[0] != K.Keys(values, EntryKey)[i];
      var rest := values[1..];
      assert K.Keys(rest, EntryKey) == K.Keys(values, EntryKey)[1..];
      FindAt(rest, i - 1);
    }
  }

  method CheckRequirements(requirements: seq<Requirement>, current: seq<StateEntry>, desired: seq<StateEntry>)
    returns (issues: seq<Issue>)
    requires K.KeysDistinct(current, EntryKey) && K.KeysDistinct(desired, EntryKey)
    ensures issues == [] <==> RequirementsMet(requirements, current, desired)
  {
    var requiredKeys := K.Keys(requirements, RequirementKey);
    if K.Keys(current, EntryKey) != requiredKeys || K.Keys(desired, EntryKey) != requiredKeys { return [StateKeysIssue]; }
    assert |current| == |requirements| == |desired|;
    issues := [];
    for i := 0 to |requirements|
      invariant issues == [] <==> forall j :: 0 <= j < i ==> Meets(requirements[j], current[j].value, desired[j].value)
    {
      var requirement := requirements[i];
      SameKeyAt(requirements, current, i);
      SameKeyAt(requirements, desired, i);
      FindAt(current, i);
      FindAt(desired, i);
      var now, then_ := Find(current, requirement.key), Find(desired, requirement.key);
      if now == None || then_ == None || !InDomain(now.value, requirement.valueType) ||
         !InDomain(then_.value, requirement.valueType)
      {
        issues := issues + [RequirementIssue];
      } else if requirement.requiredDesiredValue.Some? && then_.value != requirement.requiredDesiredValue.value {
        issues := issues + [RequirementIssue];
      }
    }
  }

  lemma SameKeyAt(requirements: seq<Requirement>, entries: seq<StateEntry>, i: nat)
    requires i < |requirements| && K.Keys(entries, EntryKey) == K.Keys(requirements, RequirementKey)
    ensures i < |entries| && entries[i].key == requirements[i].key
  {
    assert K.Keys(entries, EntryKey)[i] == K.Keys(requirements, RequirementKey)[i];
  }

  /** Which part of the target each demanded binding is: owner and repository are always there. */
  lemma BindingsPresentExactly(operation: AC.ControlId, target: ExactTarget)
    ensures var demanded := AC.Bindings(operation);
      BindingsPresent(operation, target) <==>
        && (AC.SourceOwner in demanded ==> target.sourceOwner != None)
        && (AC.Project in demanded ==> target.project != None)
        && (AC.Environment in demanded ==> target.environment != None)
        && (AC.Ruleset in demanded ==> target.ruleset != None)
        && (AC.App in demanded ==> target.app != None)
        && (AC.Installation in demanded ==> target.installation != None)
        && (AC.BillingAccount in demanded ==> target.billingAccountId != None)
  {
    var demanded := AC.Bindings(operation);
    hide AC.Bindings;
    if BindingsPresent(operation, target) {
      assert forall b :: b in demanded ==> BindingPresent(target, b);
    }
  }

  predicate BindingsPresent(operation: AC.ControlId, target: ExactTarget) {
    forall b :: b in AC.Bindings(operation) ==> BindingPresent(target, b)
  }

  /** The identities inside the target agree with each other and suit the operation. */
  predicate TargetCoherent(env: Env, operation: AC.ControlId, target: ExactTarget) {
    && BindingsPresent(operation, target)
    && (operation == AC.MainRulesetAndRequiredChecks ==> target.ruleset.Some? && target.ruleset.value.target == BranchRefs)
    && target.owner.login == target.repository.owner
    && target.repository.fullName == target.repository.owner + "/" + target.repository.name
    && (target.installation.Some? ==>
          target.installation.value.accountId == target.owner.id &&
          target.installation.value.accountNodeId == target.owner.nodeId)
    && (operation == AC.AppOwnershipTransfer ==> target.sourceOwner.Some? && OwnersDiffer(env, target.sourceOwner.value, target.owner))
  }

  predicate OwnersDiffer(env: Env, from: Account, to: Account) {
    from.id != to.id && from.nodeId != to.nodeId && env.lower(from.login) != env.lower(to.login)
  }

  // ----- validateAdministratorApplyPlan -----

  ghost predicate IntentValid(env: Env, intent: Intent) {
    && StateSetValid(env.encoding, intent.expectedCurrent) && StateSetValid(env.encoding, intent.desired)
    && AC.ApplyPlanRequired(intent.operationId)
    && RequirementsMet(AC.Requirements(intent.operationId), intent.expectedCurrent.values, intent.desired.values)
    && TargetCoherent(env, intent.operationId, intent.target)
    && intent.generatedAt < intent.expiresAt
  }

  ghost predicate PlanValid(env: Env, plan: ApplyPlan) {
    && IntentValid(env, plan.intent)
    && plan.attemptId == env.attempt(plan.intent)
    && plan.idempotencyKey == env.idempotency(plan.intent, plan.attemptId)
    && plan.prohibitedEffects == HP.PROHIBITED_EFFECTS
    && env.handoff.protocol(plan.protocol) == env.handoff.protocol(HP.APPLY_PROTOCOL) && plan.grantsNothing
  }

  method CheckBindings(operation: AC.ControlId, target: ExactTarget) returns (issues: seq<Issue>)
    ensures issues == [] <==> BindingsPresent(operation, target)
  {
    issues := [];
    var bindings := AC.Bindings(operation);
    for i := 0 to |bindings|
      invariant issues == [] <==> forall j :: 0 <= j < i ==> BindingPresent(target, bindings[j])
    {
      if !BindingPresent(target, bindings[i]) { issues := issues + [BindingIssue]; }
    }
    assert forall j :: 0 <= j < |bindings| ==> bindings[j] in bindings;
  }

  method CheckTarget(env: Env, operation: AC.ControlId, target: ExactTarget) returns (issues: seq<Issue>)
    ensures issues == [] <==> TargetCoherent(env, operation, target)
  {
    hide BindingsPresent;
    issues := CheckBindings(operation, target);
    if operation == AC.MainRulesetAndRequiredChecks && !(target.ruleset.Some? && target.ruleset.value.target == BranchRefs) {
      issues := issues + [RulesetTargetIssue];
    }
    if target.owner.login != target.repository.owner ||
       target.repository.fullName != target.repository.owner + "/" + target.repository.name
    {
      issues := issues + [OwnerIssue];
    }
    if target.installation.Some? &&
       (target.installation.value.accountId != target.owner.id || target.installation.value.accountNodeId != target.owner.nodeId)
    {
      issues := issues + [InstallationIssue];
    }
    if operation == AC.AppOwnershipTransfer &&
       (target.sourceOwner == None || target.sourceOwner.value.id == target.owner.id
        || target.sourceOwner.value.nodeId == target.owner.nodeId
        || env.lower(target.sourceOwner.value.login) == env.lower(target.owner.login))
    {
      issues := issues + [SourceOwnerIssue];
    }
  }

  method ValidateAdministratorApplyPlan(env: Env, plan: ApplyPlan) returns (issues: seq<Issue>)
    requires Sound(env.encoding)
    ensures issues == [] <==> PlanValid(env, plan)
  {
    hide TargetCoherent;
    hide RequirementsMet;
    issues := [];
    var intent := plan.intent;
    var found := StateSetIssues(env.encoding, intent.expectedCurrent);
    if found != [] { issues := issues + [CurrentStateIssue]; }
    found := StateSetIssues(env.encoding, intent.desired);
    if found != [] { issues := issues + [DesiredStateIssue]; }
    if issues != [] { return; }
    if !AC.ApplyPlanRequired(intent.operationId) { issues := issues + [OperationIssue]; }
    if plan.attemptId != env.attempt(intent) || plan.idempotencyKey != env.idempotency(intent, plan.attemptId) {
      issues := issues + [IdempotencyIssue];
    }
    var unmet := CheckRequirements(AC.Requirements(intent.operationId), intent.expectedCurrent.values, intent.desired.values);
    issues := issues + unmet;
    var incoherent := CheckTarget(env, intent.operationId, intent.target);
    issues := issues + incoherent;
    if plan.prohibitedEffects != HP.PROHIBITED_EFFECTS { issues := issues + [EffectsIssue]; }
    if env.handoff.protocol(plan.protocol) != env.handoff.protocol(HP.APPLY_PROTOCOL) { issues := issues + [ProtocolIssue]; }
    if !plan.grantsNothing { issues := issues + [AuthorityIssue]; }
    if intent.generatedAt >= intent.expiresAt { issues := issues + [ExpiryIssue]; }
  }

  /** planAdministratorApply */
  function PlanOf(env: Env, intent: Intent): ApplyPlan {
    var attemptId := env.attempt(intent);
    ApplyPlan(intent, attemptId, env.idempotency(intent, attemptId), HP.PROHIBITED_EFFECTS, HP.APPLY_PROTOCOL, true)
  }

  method PlanAdministratorApply(env: Env, handoffPlan: HP.HandoffPlan<AC.ControlId>, intent: Intent)
    returns (r: Result<ApplyPlan, seq<Issue>>)
    requires Sound(env.encoding) && HP.CollisionFree(env.handoff)
    ensures r.Ok? <==>
      && HP.PlanTrusted(AC.RealCatalogue(), handoffPlan) && intent.handoffPlanDigest == env.handoff.plan(handoffPlan)
      && IntentValid(env, intent)
    ensures r.Ok? ==> r.value == PlanOf(env, intent) && PlanValid(env, r.value)
  {
    hide HP.PlanTrusted;
    hide IntentValid;
    var handoffIssues := HP.ValidateAdministratorHandoffPlan(env.handoff, AC.RealCatalogue(), handoffPlan);
    if handoffIssues != [] { return Err([HandoffPlanIssue]); }
    if intent.handoffPlanDigest != env.handoff.plan(handoffPlan) { return Err([PlanDigestIssue]); }
    var plan := PlanOf(env, intent);
    var issues := ValidateAdministratorApplyPlan(env, plan);
    return if |issues| > 0 then Err(issues) else Ok(plan);
  }

  // ----- compareApplyReadbackBase -----

  ghost predicate ReadbackBound(env: Env, plan: ApplyPlan, r: Readback, window: Window) {
    && PlanValid(env, plan) && r.planDigest == env.plan(plan) && env.target(r.target) == env.target(plan.intent.target)
    && r.attemptId == plan.attemptId && HP.IsSha256(r.confirmationDigest)
    && ObservationFresh(r.observedAt, window) && StateSetValid(env.encoding, r.actual)
    && r.completeReadback && r.evidenceOnly
  }

  method CompareApplyReadbackBase(env: Env, plan: ApplyPlan, r: Readback, window: Window) returns (issues: seq<Issue>)
    requires Sound(env.encoding)
    ensures issues == [] <==> ReadbackBound(env, plan, r, window)
  {
    hide PlanValid;
    issues := ValidateAdministratorApplyPlan(env, plan);
    if issues != [] { return; }
    if r.planDigest != env.plan(plan) { return [PlanDigestIssue]; }
    if env.target(r.target) != env.target(plan.intent.target) { return [TargetIssue]; }
    if r.attemptId != plan.attemptId || !HP.IsSha256(r.confirmationDigest) { return [AttemptIssue]; }
    if !ObservationFresh(r.observedAt, window) { issues := issues + [FreshnessIssue]; }
    var found := StateSetIssues(env.encoding, r.actual);
    if found != [] { issues := issues + [ActualStateIssue]; }
    if !r.completeReadback || !r.evidenceOnly { issues := issues + [AuthorityIssue]; }
  }

  // ----- validateAdministratorApplyGate -----

  predicate ConfirmationComplete(c: Confirmation) {
    && c.separateExplicitHumanConfirmation && c.performsNoEffect && HP.IsSha256(c.confirmationEvidenceDigest)
    && c.confirmationId != "" && c.confirmedBy != "" && c.confirmedAt < c.expiresAt
  }

  predicate BeforeAnyAttempt(pre: Readback) {
    && pre.phase == PreApply && pre.mutationAttemptCount == 0 && pre.acknowledgement == NotAttempted
    && pre.preApplyReadbackDigest == None && pre.attemptedAt == None && pre.attemptReceiptDigest == None
  }

  ghost predicate GateOpen(env: Env, plan: ApplyPlan, c: Confirmation, pre: Readback, window: Window) {
    && ReadbackBound(env, plan, pre, window)
    && c.planDigest == env.plan(plan) && pre.confirmationDigest == env.confirmation(c)
    && ConfirmationComplete(c) && ObservationFresh(c.confirmedAt, window)
    && NotExpired(c.expiresAt, window.now) && NotExpired(plan.intent.expiresAt, window.now)
    && BeforeAnyAttempt(pre) && StateSetsEqual(env.encoding, pre.actual, plan.intent.expectedCurrent)
    && plan.intent.generatedAt <= c.confirmedAt <= pre.observedAt
  }

  method ValidateAdministratorApplyGate(env: Env, plan: ApplyPlan, c: Confirmation, pre: Readback, window: Window)
    returns (ready: bool, issues: seq<Issue>)
    requires Sound(env.encoding)
    ensures ready <==> GateOpen(env, plan, c, pre, window)
    ensures ready <==> issues == []
  {
    hide StateSetsEqual;
    hide ReadbackBound;
    issues := CompareApplyReadbackBase(env, plan, pre, window);
    BoundPlanDigest(env, plan, pre, window);
    if c.planDigest != env.plan(plan) || pre.planDigest != env.plan(plan) || pre.confirmationDigest != env.confirmation(c) {
      issues := issues + [ConfirmationBindingIssue];
    }
    if !c.separateExplicitHumanConfirmation || !c.performsNoEffect || !HP.IsSha256(c.confirmationEvidenceDigest) ||
       |c.confirmationId| == 0 || |c.confirmedBy| == 0 || c.confirmedAt >= c.expiresAt
    {
      issues := issues + [ConfirmationIssue];
    }
    if !ObservationFresh(c.confirmedAt, window) { issues := issues + [FreshnessIssue]; }
    if !NotExpired(c.expiresAt, window.now) { issues := issues + [ExpiryIssue]; }
    if !NotExpired(plan.intent.expiresAt, window.now) { issues := issues + [ExpiryIssue]; }
    if !BeforeAnyAttempt(pre) { issues := issues + [PreApplyIssue]; }
    if !StateSetsEqual(env.encoding, pre.actual, plan.intent.expectedCurrent) { issues := issues + [CurrentStateIssue]; }
    if plan.intent.generatedAt > c.confirmedAt || c.confirmedAt > pre.observedAt { issues := issues + [OrderIssue]; }
    ready := |issues| == 0;
  }

  lemma BoundPlanDigest(env: Env, plan: ApplyPlan, r: Readback, window: Window)
    ensures ReadbackBound(env, plan, r, window) ==> r.planDigest == env.plan(plan)
  {
  }

  // ----- validateAdministratorPostApplyReadback -----

  /** The order of pre-readback, attempt and post-readback; a null attempt time compares as NaN
      and refutes nothing. */
  predicate AttemptInOrder(pre: Readback, post: Readback) {
    post.attemptedAt.Some? ==> pre.observedAt <= post.attemptedAt.value <= post.observedAt
  }

  predicate BindsAttempt(env: Env, plan: ApplyPlan, c: Confirmation, pre: Readback, post: Readback) {
    && post.confirmationDigest == env.confirmation(c) && post.preApplyReadbackDigest == Some(env.readback(pre))
    && post.attemptId == plan.attemptId
    && post.attemptReceiptDigest.Some? && HP.IsSha256(post.attemptReceiptDigest.value)
  }

  ghost predicate TraceComplete(env: Env, plan: ApplyPlan, c: Confirmation, pre: Readback, post: Readback, window: Window) {
    && GateOpen(env, plan, c, pre, window) && ReadbackBound(env, plan, post, window)
    && post.phase == PostApply && post.mutationAttemptCount == 1 && post.acknowledgement == UnambiguousApplied
    && BindsAttempt(env, plan, c, pre, post) && AttemptInOrder(pre, post)
    && StateSetsEqual(env.encoding, post.actual, plan.intent.desired)
  }

  datatype Verdict = Verdict(desiredStateObserved: bool, reconciliationRequired: bool, issues: seq<Issue>)

  method ValidateAdministratorPostApplyReadback(env: Env, plan: ApplyPlan, c: Confirmation, pre: Readback, post: Readback,
    window: Window) returns (v: Verdict)
    requires Sound(env.encoding)
    ensures v.desiredStateObserved <==> TraceComplete(env, plan, c, pre, post, window)
    ensures v.desiredStateObserved <==> v.issues == []
    ensures post.acknowledgement == Ambiguous ==> !v.desiredStateObserved && v.reconciliationRequired
    ensures v.reconciliationRequired <==>
      post.acknowledgement == Ambiguous || !StateSetsEqual(env.encoding, post.actual, plan.intent.desired)
  {
    hide StateSetsEqual;
    hide ReadbackBound;
    hide GateOpen;
    var ready, issues := ValidateAdministratorApplyGate(env, plan, c, pre, window);
    var found := CompareApplyReadbackBase(env, plan, post, window);
    issues := issues + found;
    if post.phase != PostApply || post.mutationAttemptCount != 1 { issues := issues + [PhaseIssue]; }
    if post.acknowledgement != UnambiguousApplied && post.acknowledgement != Ambiguous {
      issues := issues + [AcknowledgementIssue];
    }
    if !BindsAttempt(env, plan, c, pre, post) { issues := issues + [PostBindingIssue]; }
    if post.attemptedAt.Some? &&
       (pre.observedAt > post.attemptedAt.value || post.attemptedAt.value > post.observedAt)
    {
      issues := issues + [OrderIssue];
    }
    var desiredObserved := StateSetsEqual(env.encoding, post.actual, plan.intent.desired);
    if !desiredObserved { issues := issues + [DesiredNotObserved]; }
    var ambiguous := post.acknowledgement == Ambiguous;
    if ambiguous { issues := issues + [AmbiguousIssue]; }
    return Verdict(|issues| == 0 && desiredObserved, ambiguous || !desiredObserved, issues);
  }

  // ----- Main results -----

  /** The schema gives a post-apply readback the time of its attempt. */
  predicate ReadbackTyped(r: Readback) { r.phase == PostApply ==> r.attemptedAt.Some? }

  /** What an observed desired state guarantees about the whole trace: all documents name one plan,
      target and attempt and each names the documents before it; the steps happened in order,
      recently, and no later than either approval's expiry; exactly one attempt, acknowledged without
      ambiguity, led from the expected state to the desired one. */
  lemma CompleteTrace(env: Env, plan: ApplyPlan, c: Confirmation, pre: Readback, post: Readback, window: Window)
    requires CollisionFree(env) && ReadbackTyped(post)
    requires TraceComplete(env, plan, c, pre, post, window)
    ensures env.plan(plan) == c.planDigest == pre.planDigest == post.planDigest
    ensures pre.target == plan.intent.target && post.target == plan.intent.target
    ensures pre.attemptId == post.attemptId == plan.attemptId == env.attempt(plan.intent)
    ensures pre.confirmationDigest == post.confirmationDigest == env.confirmation(c)
    ensures post.preApplyReadbackDigest == Some(env.readback(pre))
    ensures post.attemptedAt.Some?
    ensures plan.intent.generatedAt <= c.confirmedAt <= pre.observedAt <= post.attemptedAt.value
    ensures post.attemptedAt.value <= post.observedAt <= window.now
    ensures window.now <= plan.intent.expiresAt && window.now <= c.expiresAt
    ensures window.now - c.confirmedAt <= window.maxAgeMs
    ensures pre.mutationAttemptCount == 0 && post.mutationAttemptCount == 1 == plan.protocol.maximumApplyAttempts
    ensures post.acknowledgement == UnambiguousApplied
    ensures pre.actual == plan.intent.expectedCurrent && post.actual == plan.intent.desired
  {
    hide StateSetsEqual;
    StateSetsEqualExactly(env.encoding, pre.actual, plan.intent.expectedCurrent);
    StateSetsEqualExactly(env.encoding, post.actual, plan.intent.desired);
    assert plan.protocol == HP.APPLY_PROTOCOL;
  }

  /** What a valid intent names: one owner throughout, for an ownership transfer a different one before,
      for the main ruleset a branch ruleset; and a time span. */
  lemma IntentAgrees(env: Env, intent: Intent)
    requires IntentValid(env, intent)
    ensures intent.generatedAt < intent.expiresAt
    ensures var t := intent.target;
      && t.repository.owner == t.owner.login && t.repository.fullName == t.owner.login + "/" + t.repository.name
      && (t.installation.Some? ==>
            (t.installation.value.accountId, t.installation.value.accountNodeId) == (t.owner.id, t.owner.nodeId))
      && (intent.operationId == AC.MainRulesetAndRequiredChecks ==> t.ruleset.Some? && t.ruleset.value.target == BranchRefs)
      && (intent.operationId == AC.AppOwnershipTransfer ==>
            t.sourceOwner.Some? && t.sourceOwner.value.id != t.owner.id && t.sourceOwner.value.nodeId != t.owner.nodeId
            && env.lower(t.sourceOwner.value.login) != env.lower(t.owner.login))
  {
    hide AC.Requirements;
    hide AC.Bindings;
  }

  lemma FreshEarlier(observedAt: int, window: Window, t: int)
    requires ObservationFresh(observedAt, window) && observedAt <= t <= window.now
    ensures ObservationFresh(observedAt, window.(now := t))
  {
  }

  /** An open gate was open at every moment since the pre-apply readback. */
  lemma GateWasOpen(env: Env, plan: ApplyPlan, c: Confirmation, pre: Readback, window: Window, t: int)
    requires GateOpen(env, plan, c, pre, window) && pre.observedAt <= t <= window.now
    ensures GateOpen(env, plan, c, pre, window.(now := t))
  {
    hide StateSetsEqual;
    hide PlanValid;
    FreshEarlier(pre.observedAt, window, t);
    FreshEarlier(c.confirmedAt, window, t);
  }

  /** In particular it was open when the attempt of a complete trace was made. */
  lemma GateOpenAtAttempt(env: Env, plan: ApplyPlan, c: Confirmation, pre: Readback, post: Readback, window: Window)
    requires TraceComplete(env, plan, c, pre, post, window) && ReadbackTyped(post)
    ensures GateOpen(env, plan, c, pre, window.(now := post.attemptedAt.value))
  {
    GateWasOpen(env, plan, c, pre, window, post.attemptedAt.value);
  }

  /** One attempt id belongs to one plan, so two complete traces of the same attempt moved the same
      target between the same states; the digests they carry identify confirmation and pre-read. */
  lemma AttemptIdentifiesTrace(env: Env, p: ApplyPlan, c: Confirmation, pre: Readback, post: Readback, window: Window,
    p': ApplyPlan, c': Confirmation, pre': Readback, post': Readback, window': Window)
    requires CollisionFree(env) && ReadbackTyped(post) && ReadbackTyped(post')
    requires TraceComplete(env, p, c, pre, post, window) && TraceComplete(env, p', c', pre', post', window')
    requires post.attemptId == post'.attemptId
    ensures p == p' && post.actual == post'.actual && post.target == post'.target
    ensures post.confirmationDigest == post'.confirmationDigest ==> c == c'
    ensures post.preApplyReadbackDigest == post'.preApplyReadbackDigest ==> pre == pre' && c == c'
  {
    hide GateOpen;
    hide StateSetsEqual;
    CompleteTrace(env, p, c, pre, post, window);
    CompleteTrace(env, p', c', pre', post', window');
    assert p.protocol == HP.APPLY_PROTOCOL && p'.protocol == HP.APPLY_PROTOCOL;
  }

  // ----- The protocol can be completed -----

  function ConfirmationFor(env: Env, plan: ApplyPlan, evidence: string, at: int, until: int): Confirmation {
    Confirmation(env.plan(plan), "c", "h", at, until, true, evidence, true)
  }

  function PreReadbackFor(env: Env, plan: ApplyPlan, c: Confirmation, at: int): Readback {
    Readback(PreApply, at, env.plan(plan), env.confirmation(c), plan.attemptId, plan.intent.target,
             plan.intent.expectedCurrent, true, true, 0, NotAttempted, None, None, None)
  }

  function PostReadbackFor(env: Env, plan: ApplyPlan, c: Confirmation, pre: Readback, receipt: string, attempted: int, at: int): Readback {
    Readback(PostApply, at, env.plan(plan), env.confirmation(c), plan.attemptId, plan.intent.target,
             plan.intent.desired, true, true, 1, UnambiguousApplied, Some(env.readback(pre)), Some(attempted), Some(receipt))
  }

  /** Every valid intent can be carried to a complete trace, at any times in order within the window
      and no later than the approvals' expiry. */
  lemma ProtocolCompletes(env: Env, intent: Intent, evidence: string, receipt: string, until: int, window: Window,
    confirmed: int, read: int, attempted: int, observed: int)
    requires IntentValid(env, intent) && HP.IsSha256(evidence) && HP.IsSha256(receipt)
    requires forall x :: HP.IsSha256(env.confirmation(x))
    requires intent.generatedAt <= confirmed <= read <= attempted <= observed <= window.now
    requires window.now <= until && window.now <= intent.expiresAt && confirmed < until
    requires window.now - confirmed <= window.maxAgeMs
    ensures var plan := PlanOf(env, intent);
      var c := ConfirmationFor(env, plan, evidence, confirmed, until);
      var pre := PreReadbackFor(env, plan, c, read);
      var post := PostReadbackFor(env, plan, c, pre, receipt, attempted, observed);
      TraceComplete(env, plan, c, pre, post, window)
  {
    hide IntentValid;
    StatesOfIntent(env, intent);
    var plan := PlanOf(env, intent);
    var c := ConfirmationFor(env, plan, evidence, confirmed, until);
    var pre := PreReadbackFor(env, plan, c, read);
    assert GateOpen(env, plan, c, pre, window);
  }

  lemma StatesOfIntent(env: Env, intent: Intent)
    requires IntentValid(env, intent)
    ensures StateSetValid(env.encoding, intent.expectedCurrent) && StateSetValid(env.encoding, intent.desired)
  {
  }
}

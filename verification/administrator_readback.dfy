/** compareAdministratorReadback (src/administrator-plan.ts) and what its empty result means. */
module AdministratorReadback {
  import opened AdministratorPlan
  import opened Freshness
  import opened KeyedLists
  import opened Ordering
  import opened Wrappers

  /** What the plan's type fixes and the validator does not look at. */
  ghost predicate PlanTyped(plan: Plan) {
    && (forall r :: r in plan.configuration.rulesets ==> r.enforcement == Active)
    && (forall c :: c in plan.configuration.requiredChecks ==> c.required)
  }

  // ----- What an accepted readback is -----

  /** A ruleset with its ref lists read as sets. */
  datatype RulesetView = RulesetView(
    rulesetId: string, source: Source, included: set<string>, excluded: set<string>, protected: set<string>,
    enforcement: Enforcement, bypassActors: seq<string>, controls: Controls)

  function View(r: Ruleset): RulesetView {
    RulesetView(r.rulesetId, r.source, ToSet(r.included), ToSet(r.excluded), ToSet(r.effectiveProtectedRefs),
                r.enforcement, r.bypassActors, r.controls)
  }

  ghost predicate RefsDistinct(r: Ruleset) {
    Distinct(r.included) && Distinct(r.excluded) && Distinct(r.effectiveProtectedRefs)
  }

  ghost predicate AllRefsDistinct(rulesets: seq<Ruleset>) {
    forall r :: r in rulesets ==> RefsDistinct(r)
  }

  /** The same configuration, up to the order of its lists and of the refs in a ruleset. */
  ghost predicate SameConfiguration(planned: Configuration, observed: Configuration) {
    && observed.repository == planned.repository
    && multiset(Keys(observed.rulesets, View)) == multiset(Keys(planned.rulesets, View))
    && multiset(observed.environments) == multiset(planned.environments)
    && multiset(observed.requiredChecks) == multiset(planned.requiredChecks)
    && multiset(observed.incidentContacts) == multiset(planned.incidentContacts)
    && observed.actionsPolicy == planned.actionsPolicy && observed.ghas == planned.ghas
    && observed.projectBinding == planned.projectBinding && observed.nonAuthoritative == planned.nonAuthoritative
  }

  /** Accepted: a valid plan, bound by digest, a fresh observation, and the same configuration,
      with no ref list of either side repeating a ref. */
  ghost predicate Accepted(digest: Plan -> string, plan: Plan, readback: Readback, window: Window) {
    && ConfigurationValid(plan.configuration) && readback.planDigest == digest(plan)
    && ObservationFresh(readback.observedAt, window)
    && AllRefsDistinct(plan.configuration.rulesets) && AllRefsDistinct(readback.configuration.rulesets)
    && SameConfiguration(plan.configuration, readback.configuration)
  }

  // ----- Comparing one ruleset -----

  /** What the loop body checks of an observed ruleset with the planned id. */
  ghost predicate RulesetMatches(planned: Ruleset, observed: Ruleset) {
    && observed.source == planned.source && (observed.controls.Branch? <==> planned.controls.Branch?)
    && SameDistinct(observed.included, planned.included) && SameDistinct(observed.excluded, planned.excluded)
    && SameDistinct(observed.effectiveProtectedRefs, planned.effectiveProtectedRefs)
    && observed.enforcement == Active && observed.bypassActors == [] && ControlsOn(observed.controls)
  }

  method CompareRuleset(planned: Ruleset, observed: Ruleset) returns (issues: seq<Issue>)
    ensures issues == [] <==> RulesetMatches(planned, observed)
  {
    var issue := Issue(Rulesets, planned.rulesetId);
    issues := [];
    if observed.source != planned.source { issues := issues + [issue]; }
    if observed.controls.Branch? != planned.controls.Branch? { issues := issues + [issue]; }
    var sameIncluded := SetsExactlyEqual(observed.included, planned.included);
    var sameExcluded := SetsExactlyEqual(observed.excluded, planned.excluded);
    if !sameIncluded || !sameExcluded { issues := issues + [issue]; }
    var sameProtected := SetsExactlyEqual(observed.effectiveProtectedRefs, planned.effectiveProtectedRefs);
    if !sameProtected { issues := issues + [issue]; }
    if observed.enforcement != Active { issues := issues + [issue]; }
    if |observed.bypassActors| > 0 { issues := issues + [issue]; }
    if planned.controls.Branch? == observed.controls.Branch? && !ControlsOn(observed.controls) {
      issues := issues + [issue];
    }
  }

  lemma SameDistinctAsSets(left: seq<string>, right: seq<string>)
    ensures SameDistinct(left, right) <==> Distinct(left) && Distinct(right) && ToSet(left) == ToSet(right)
  {
    assert forall ref :: ref in left <==> ref in ToSet(left);
    assert forall ref :: ref in right <==> ref in ToSet(right);
  }

  /** Beside a valid planned ruleset, matching is equality up to the order of refs. */
  lemma MatchesExactly(planned: Ruleset, observed: Ruleset)
    requires RulesetValid(planned) && planned.enforcement == Active && observed.rulesetId == planned.rulesetId
    ensures RulesetMatches(planned, observed) <==>
      RefsDistinct(planned) && RefsDistinct(observed) && View(observed) == View(planned)
  {
    SameDistinctAsSets(observed.included, planned.included);
    SameDistinctAsSets(observed.excluded, planned.excluded);
    SameDistinctAsSets(observed.effectiveProtectedRefs, planned.effectiveProtectedRefs);
  }

  // ----- Comparing the keyed lists -----

  method ReportUnplanned<T, K(==)>(section: Section, planned: seq<T>, observed: seq<T>, keyOf: T -> K)
    returns (issues: seq<Issue>)
    ensures issues == [] <==> AllPlanned(planned, observed, keyOf)
  {
    var unplanned := FindUnplanned(planned, observed, keyOf);
    issues := [];
    for i := 0 to |unplanned|
      invariant |issues| == i
    {
      issues := issues + [Issue(section, "")];
    }
  }

  ghost function RulesetAccept(): (Ruleset, Ruleset) -> bool {
    (planned: Ruleset, observed: Ruleset) => RulesetMatches(planned, observed)
  }

  ghost function EnvironmentAccept(): (Environment, Environment) -> bool {
    (planned: Environment, observed: Environment) => observed.hasProtectionRules && observed.requiresReviewers
  }

  ghost function CheckAccept(): (Check, Check) -> bool {
    (planned: Check, observed: Check) => observed.required
  }

  method CompareRulesets(planned: seq<Ruleset>, observed: seq<Ruleset>) returns (issues: seq<Issue>)
    requires KeysDistinct(observed, RulesetId)
    ensures issues == [] <==> Covers(planned, observed, RulesetId, RulesetAccept())
  {
    hide RulesetMatches;
    issues := ReportUnplanned(Rulesets, planned, observed, RulesetId);
    var byId := IndexBy(observed, RulesetId);
    for i := 0 to |planned|
      invariant issues == [] <==> CoversFirst(planned, observed, RulesetId, RulesetAccept(), i)
    {
      LookupExactly(planned[i], observed, RulesetId, RulesetAccept());
      if planned[i].rulesetId !in byId {
        issues := issues + [Issue(Rulesets, planned[i].rulesetId)];
      } else {
        var found := CompareRuleset(planned[i], byId[planned[i].rulesetId]);
        issues := issues + found;
      }
    }
  }

  method CompareEnvironments(planned: seq<Environment>, observed: seq<Environment>) returns (issues: seq<Issue>)
    requires KeysDistinct(observed, EnvironmentId)
    ensures issues == [] <==> Covers(planned, observed, EnvironmentId, EnvironmentAccept())
  {
    issues := ReportUnplanned(Environments, planned, observed, EnvironmentId);
    var byId := IndexBy(observed, EnvironmentId);
    for i := 0 to |planned|
      invariant issues == [] <==> CoversFirst(planned, observed, EnvironmentId, EnvironmentAccept(), i)
    {
      LookupExactly(planned[i], observed, EnvironmentId, EnvironmentAccept());
      var issue := Issue(Environments, planned[i].environmentId);
      if planned[i].environmentId !in byId {
        issues := issues + [issue];
      } else {
        var found := byId[planned[i].environmentId];
        if !found.hasProtectionRules { issues := issues + [issue]; }
        if !found.requiresReviewers { issues := issues + [issue]; }
      }
    }
  }

  method CompareChecks(planned: seq<Check>, observed: seq<Check>) returns (issues: seq<Issue>)
    requires KeysDistinct(observed, CheckName)
    ensures issues == [] <==> Covers(planned, observed, CheckName, CheckAccept())
  {
    issues := ReportUnplanned(RequiredChecks, planned, observed, CheckName);
    var byName := IndexBy(observed, CheckName);
    for i := 0 to |planned|
      invariant issues == [] <==> CoversFirst(planned, observed, CheckName, CheckAccept(), i)
    {
      LookupExactly(planned[i], observed, CheckName, CheckAccept());
      if planned[i].checkName !in byName || !byName[planned[i].checkName].required {
        issues := issues + [Issue(RequiredChecks, planned[i].checkName)];
      }
    }
  }

  // ----- Covering is corresponding -----

  lemma CoveredRefsDistinct(planned: seq<Ruleset>, observed: seq<Ruleset>)
    requires KeysDistinct(observed, RulesetId)
    requires Covers(planned, observed, RulesetId, RulesetAccept())
    ensures AllRefsDistinct(planned) && AllRefsDistinct(observed)
  {
    forall p | p in planned ensures RefsDistinct(p) {
      var i :| 0 <= i < |planned| && planned[i] == p;
      assert Answered(planned[i], observed, RulesetId, RulesetAccept());
    }
    forall o | o in observed ensures RefsDistinct(o) {
      KeyListed(planned, RulesetId, o.rulesetId);
      var p :| p in planned && RulesetId(p) == RulesetId(o);
      var i :| 0 <= i < |planned| && planned[i] == p;
      assert Answered(planned[i], observed, RulesetId, RulesetAccept());
      var o' :| o' in observed && RulesetId(o') == RulesetId(p) && RulesetMatches(p, o');
      KeyOwner(observed, RulesetId, o, o');
    }
  }

  lemma RulesetsCovered(planned: seq<Ruleset>, observed: seq<Ruleset>)
    requires RulesetsValid(planned) && KeysDistinct(observed, RulesetId)
    requires forall r :: r in planned ==> r.enforcement == Active
    ensures Covers(planned, observed, RulesetId, RulesetAccept()) <==>
      && AllRefsDistinct(planned) && AllRefsDistinct(observed)
      && multiset(Keys(observed, View)) == multiset(Keys(planned, View))
  {
    if Covers(planned, observed, RulesetId, RulesetAccept()) { CoveredRefsDistinct(planned, observed); }
    if AllRefsDistinct(planned) && AllRefsDistinct(observed) {
      forall p, o | p in planned && o in observed && RulesetId(o) == RulesetId(p)
        ensures RulesetAccept()(p, o) <==> View(o) == View(p)
      {
        MatchesExactly(p, o);
      }
      CoversExactly(planned, observed, RulesetId, View, RulesetAccept());
    }
  }

  lemma EnvironmentsCovered(planned: seq<Environment>, observed: seq<Environment>)
    requires EnvironmentsValid(planned) && KeysDistinct(observed, EnvironmentId)
    ensures Covers(planned, observed, EnvironmentId, EnvironmentAccept()) <==> multiset(observed) == multiset(planned)
  {
    KeysItself(planned);
    KeysItself(observed);
    CoversExactly(planned, observed, EnvironmentId, Itself, EnvironmentAccept());
  }

  lemma ChecksCovered(planned: seq<Check>, observed: seq<Check>)
    requires KeysDistinct(planned, CheckName) && KeysDistinct(observed, CheckName)
    requires forall c :: c in planned ==> c.required
    ensures Covers(planned, observed, CheckName, CheckAccept()) <==> multiset(observed) == multiset(planned)
  {
    KeysItself(planned);
    KeysItself(observed);
    CoversExactly(planned, observed, CheckName, Itself, CheckAccept());
  }

  // ----- Contacts -----

  function RoleName(role: Role): string {
    match role
    case SecurityOwner => "security-owner"
    case PlatformOwner => "platform-owner"
    case OnCallAdmin => "on-call-admin"
  }

  /** `${role}:${contactHandle}` */
  function ContactKey(contact: Contact): string { RoleName(contact.role) + ":" + contact.contactHandle }

  /** No role name holds a colon, so the joined key still tells role and handle apart. */
  lemma ContactKeyInjective(a: Contact, b: Contact)
    requires ContactKey(a) == ContactKey(b)
    ensures a == b
  {
    var k := ContactKey(a);
    assert k[0] == RoleName(a.role)[0] && k[0] == RoleName(b.role)[0];
    var n := |RoleName(a.role)| + 1;
    assert k[n..] == a.contactHandle && k[n..] == b.contactHandle;
  }

  ghost predicate SameContacts(planned: seq<Contact>, observed: seq<Contact>) {
    forall key :: key in Keys(planned, ContactKey) <==> key in Keys(observed, ContactKey)
  }

  method CompareContacts(planned: seq<Contact>, observed: seq<Contact>) returns (issues: seq<Issue>)
    ensures issues == [] <==> SameContacts(planned, observed)
  {
    var missing := ReportUnplanned(IncidentContacts, observed, planned, ContactKey);
    var extra := ReportUnplanned(IncidentContacts, planned, observed, ContactKey);
    SameContactsExactly(planned, observed);
    return missing + extra;
  }

  lemma SameContactsExactly(planned: seq<Contact>, observed: seq<Contact>)
    ensures SameContacts(planned, observed) <==>
      AllPlanned(planned, observed, ContactKey) && AllPlanned(observed, planned, ContactKey)
  {
    forall key
      ensures key in Keys(planned, ContactKey) <==> exists c :: c in planned && ContactKey(c) == key
      ensures key in Keys(observed, ContactKey) <==> exists c :: c in observed && ContactKey(c) == key
    {
      KeyListed(planned, ContactKey, key);
      KeyListed(observed, ContactKey, key);
    }
  }

  lemma ContactsCovered(planned: seq<Contact>, observed: seq<Contact>)
    requires KeysDistinct(planned, ContactRole) && KeysDistinct(observed, ContactRole)
    ensures SameContacts(planned, observed) <==> multiset(observed) == multiset(planned)
  {
    forall a, b | ContactKey(a) == ContactKey(b) ensures a == b { ContactKeyInjective(a, b); }
    SameContactsExactly(planned, observed);
    if SameContacts(planned, observed) {
      SameMembers(planned, observed);
      KeysItself(planned);
      KeysItself(observed);
      ViewsDistinct(planned, ContactRole, Itself);
      ViewsDistinct(observed, ContactRole, Itself);
      DistinctSameSet(observed, planned);
    }
    if multiset(observed) == multiset(planned) { KeysPermute(observed, planned, ContactKey); SameElements(Keys(observed, ContactKey), Keys(planned, ContactKey)); }
  }

  lemma SameMembers(planned: seq<Contact>, observed: seq<Contact>)
    requires SameContacts(planned, observed)
    ensures forall c :: c in planned <==> c in observed
  {
    forall c ensures c in planned <==> c in observed {
      KeyListed(planned, ContactKey, ContactKey(c));
      KeyListed(observed, ContactKey, ContactKey(c));
      if c in planned {
        var o :| o in observed && ContactKey(o) == ContactKey(c);
        ContactKeyInjective(o, c);
      }
      if c in observed {
        var p :| p in planned && ContactKey(p) == ContactKey(c);
        ContactKeyInjective(p, c);
      }
    }
  }

  // ----- Single settings -----

  method CompareActions(planned: ActionsPolicy, observed: ActionsPolicy) returns (issues: seq<Issue>)
    ensures issues == [] <==> observed == planned
  {
    issues := [];
    if observed.allowedActions != planned.allowedActions { issues := issues + [Issue(ActionsPolicyField, "allowedActions")]; }
    if observed.defaultWorkflowPermissions != planned.defaultWorkflowPermissions {
      issues := issues + [Issue(ActionsPolicyField, "defaultWorkflowPermissions")];
    }
    if observed.canApprovePullRequestReviews != planned.canApprovePullRequestReviews {
      issues := issues + [Issue(ActionsPolicyField, "canApprovePullRequestReviews")];
    }
    if observed.shaPinningRequired != planned.shaPinningRequired {
      issues := issues + [Issue(ActionsPolicyField, "shaPinningRequired")];
    }
    if observed.requireApprovalForForkPullRequests != planned.requireApprovalForForkPullRequests {
      issues := issues + [Issue(ActionsPolicyField, "requireApprovalForForkPullRequests")];
    }
  }

  method CompareGhas(planned: Ghas, observed: Ghas) returns (issues: seq<Issue>)
    ensures issues == [] <==> observed == planned
  {
    issues := [];
    for i := 0 to 10
      invariant issues == [] <==> forall j :: 0 <= j < i ==> Setting(observed, j) == Setting(planned, j)
    {
      if Setting(observed, i) != Setting(planned, i) { issues := issues + [Issue(GhasField, "")]; }
    }
    if issues == [] { GhasBySettings(observed, planned); }
  }

  method CompareProject(planned: ProjectBinding, observed: ProjectBinding) returns (issues: seq<Issue>)
    ensures issues == [] <==> observed == planned
  {
    issues := [];
    if observed.projectNumber != planned.projectNumber { issues := issues + [Issue(ProjectField, "projectNumber")]; }
    if observed.ownerLogin != planned.ownerLogin { issues := issues + [Issue(ProjectField, "ownerLogin")]; }
    if observed.schemaDigest != planned.schemaDigest { issues := issues + [Issue(ProjectField, "schemaDigest")]; }
    if observed.mutationRequiresExplicitConfirmation != planned.mutationRequiresExplicitConfirmation {
      issues := issues + [Issue(ProjectField, "mutationRequiresExplicitConfirmation")];
    }
  }

  function Claim(marker: Marker, i: nat): bool {
    if i == 0 then marker.cannotApplyRuleset
    else if i == 1 then marker.cannotApplyActionsPolicy
    else if i == 2 then marker.cannotApplyGhasSetting
    else if i == 3 then marker.cannotMutateProject
    else marker.cannotChangeVisibilityOrBilling
  }

  lemma MarkerByClaims(a: Marker, b: Marker)
    requires forall i :: 0 <= i < 5 ==> Claim(a, i) == Claim(b, i)
    ensures a == b
  {
    assert Claim(a, 0) == Claim(b, 0) && Claim(a, 1) == Claim(b, 1) && Claim(a, 2) == Claim(b, 2);
    assert Claim(a, 3) == Claim(b, 3) && Claim(a, 4) == Claim(b, 4);
  }

  method CompareMarker(planned: Marker, observed: Marker) returns (issues: seq<Issue>)
    ensures issues == [] <==> observed == planned
  {
    issues := [];
    for i := 0 to 5
      invariant issues == [] <==> forall j :: 0 <= j < i ==> Claim(observed, j) == Claim(planned, j)
    {
      if Claim(observed, i) != Claim(planned, i) { issues := issues + [Issue(MarkerField, "")]; }
    }
    if issues == [] { MarkerByClaims(observed, planned); }
  }

  // ----- The comparator -----

  ghost predicate ReadbackKeysDistinct(c: Configuration) {
    && KeysDistinct(c.rulesets, RulesetId) && KeysDistinct(c.environments, EnvironmentId)
    && KeysDistinct(c.requiredChecks, CheckName) && KeysDistinct(c.incidentContacts, ContactRole)
  }

  method FindObservedDuplicates(c: Configuration) returns (issues: seq<Issue>)
    ensures issues == [] <==> ReadbackKeysDistinct(c)
  {
    var rulesets := FindDuplicateKeys(c.rulesets, RulesetId);
    issues := ReportDuplicates(Rulesets, rulesets);
    var environments := FindDuplicateKeys(c.environments, EnvironmentId);
    var found := ReportDuplicates(Environments, environments);
    issues := issues + found;
    var checks := FindDuplicateKeys(c.requiredChecks, CheckName);
    found := ReportDuplicates(RequiredChecks, checks);
    issues := issues + found;
    var roles := FindDuplicateKeys(c.incidentContacts, ContactRole);
    if roles != [] { issues := issues + [Issue(IncidentContacts, "")]; }
  }

  /** Everything compared once the keys are known to be distinct. */
  ghost predicate ContentsMatch(planned: Configuration, observed: Configuration) {
    && Covers(planned.rulesets, observed.rulesets, RulesetId, RulesetAccept())
    && Covers(planned.environments, observed.environments, EnvironmentId, EnvironmentAccept())
    && Covers(planned.requiredChecks, observed.requiredChecks, CheckName, CheckAccept())
    && SameContacts(planned.incidentContacts, observed.incidentContacts)
    && observed.actionsPolicy == planned.actionsPolicy && observed.ghas == planned.ghas
    && observed.projectBinding == planned.projectBinding && observed.nonAuthoritative == planned.nonAuthoritative
  }

  method CompareContents(planned: Configuration, observed: Configuration) returns (issues: seq<Issue>)
    requires ReadbackKeysDistinct(observed)
    ensures issues == [] <==> ContentsMatch(planned, observed)
  {
    hide Covers;
    hide SameContacts;
    issues := CompareRulesets(planned.rulesets, observed.rulesets);
    var found := CompareEnvironments(planned.environments, observed.environments);
    issues := issues + found;
    found := CompareChecks(planned.requiredChecks, observed.requiredChecks);
    issues := issues + found;
    found := CompareActions(planned.actionsPolicy, observed.actionsPolicy);
    issues := issues + found;
    found := CompareGhas(planned.ghas, observed.ghas);
    issues := issues + found;
    found := CompareProject(planned.projectBinding, observed.projectBinding);
    issues := issues + found;
    found := CompareContacts(planned.incidentContacts, observed.incidentContacts);
    issues := issues + found;
    found := CompareMarker(planned.nonAuthoritative, observed.nonAuthoritative);
    issues := issues + found;
  }

  function ViewId(view: RulesetView): string { view.rulesetId }

  lemma IdsOfViews(rulesets: seq<Ruleset>)
    ensures Keys(Keys(rulesets, View), ViewId) == Keys(rulesets, RulesetId)
  {
  }

  /** A readback with the configuration of a valid plan repeats no key. */
  lemma SameConfigurationKeys(planned: Configuration, observed: Configuration)
    requires ConfigurationValid(planned) && SameConfiguration(planned, observed)
    ensures ReadbackKeysDistinct(observed)
  {
    IdsOfViews(planned.rulesets);
    IdsOfViews(observed.rulesets);
    KeysPermute(Keys(planned.rulesets, View), Keys(observed.rulesets, View), ViewId);
    KeysPermute(planned.environments, observed.environments, EnvironmentId);
    KeysPermute(planned.requiredChecks, observed.requiredChecks, CheckName);
    KeysPermute(planned.incidentContacts, observed.incidentContacts, ContactRole);
  }

  lemma ContentsExactly(plan: Plan, observed: Configuration)
    requires PlanTyped(plan) && ConfigurationValid(plan.configuration) && ReadbackKeysDistinct(observed)
    requires observed.repository == plan.configuration.repository
    ensures ContentsMatch(plan.configuration, observed) <==>
      && AllRefsDistinct(plan.configuration.rulesets) && AllRefsDistinct(observed.rulesets)
      && SameConfiguration(plan.configuration, observed)
  {
    var planned := plan.configuration;
    RulesetsCovered(planned.rulesets, observed.rulesets);
    EnvironmentsCovered(planned.environments, observed.environments);
    ChecksCovered(planned.requiredChecks, observed.requiredChecks);
    ContactsCovered(planned.incidentContacts, observed.incidentContacts);
  }

  /** No issue exactly for an accepted readback. `driftFound` plays no part. */
  method CompareAdministratorReadback(digest: Plan -> string, plan: Plan, readback: Readback, window: Window)
    returns (issues: seq<Issue>)
    requires PlanTyped(plan)
    ensures issues == [] <==> Accepted(digest, plan, readback, window)
  {
    hide ConfigurationValid;
    hide SameConfiguration;
    issues := ValidateAdministratorPlan(plan);
    if issues != [] { return; }
    var planned, observed := plan.configuration, readback.configuration;
    if readback.planDigest != digest(plan) { return [Issue(PlanDigest, "")]; }
    if observed.repository != planned.repository {
      RepositoryShared(planned, observed);
      return [Issue(RepositoryIdentity, "")];
    }
    if !ObservationFresh(readback.observedAt, window) { return [Issue(ObservedAt, "")]; }
    issues := FindObservedDuplicates(observed);
    if issues != [] {
      if SameConfiguration(planned, observed) { SameConfigurationKeys(planned, observed); }
      return;
    }
    ContentsExactly(plan, observed);
    issues := CompareContents(planned, observed);
  }

  lemma RepositoryShared(planned: Configuration, observed: Configuration)
    ensures SameConfiguration(planned, observed) ==> observed.repository == planned.repository
  {
  }

  // ----- Main results -----

  /** Field by field the same ruleset, its refs in any order. */
  ghost predicate SameRuleset(p: Ruleset, o: Ruleset) {
    && o.rulesetId == p.rulesetId && o.source == p.source && o.enforcement == p.enforcement
    && o.bypassActors == p.bypassActors && o.controls == p.controls
    && (forall ref :: ref in o.included <==> ref in p.included)
    && (forall ref :: ref in o.excluded <==> ref in p.excluded)
    && forall ref :: ref in o.effectiveProtectedRefs <==> ref in p.effectiveProtectedRefs
  }

  lemma SameViewSameRuleset(p: Ruleset, o: Ruleset)
    requires View(o) == View(p)
    ensures SameRuleset(p, o)
  {
    forall ref
      ensures ref in o.included <==> ref in p.included
      ensures ref in o.excluded <==> ref in p.excluded
      ensures ref in o.effectiveProtectedRefs <==> ref in p.effectiveProtectedRefs
    {
      assert ref in ToSet(o.included) <==> ref in ToSet(p.included);
      assert ref in ToSet(o.excluded) <==> ref in ToSet(p.excluded);
      assert ref in ToSet(o.effectiveProtectedRefs) <==> ref in ToSet(p.effectiveProtectedRefs);
    }
  }

  /** What an accepted readback shows: bound and fresh, every planned ruleset found and no other, every
      environment, check and contact as planned and as often, and all else equal. */
  lemma AcceptedMeans(digest: Plan -> string, plan: Plan, readback: Readback, window: Window)
    requires Accepted(digest, plan, readback, window)
    ensures readback.planDigest == digest(plan) && 0 <= window.now - readback.observedAt <= window.maxAgeMs
    ensures var planned, observed := plan.configuration, readback.configuration;
      && (forall p :: p in planned.rulesets ==> exists o :: o in observed.rulesets && SameRuleset(p, o))
      && (forall o :: o in observed.rulesets ==> exists p :: p in planned.rulesets && SameRuleset(p, o))
      && |observed.rulesets| == |planned.rulesets|
      && multiset(observed.environments) == multiset(planned.environments)
      && multiset(observed.requiredChecks) == multiset(planned.requiredChecks)
      && multiset(observed.incidentContacts) == multiset(planned.incidentContacts)
      && observed == planned.(rulesets := observed.rulesets, environments := observed.environments,
           requiredChecks := observed.requiredChecks, incidentContacts := observed.incidentContacts)
  {
    hide ConfigurationValid;
    hide RefsDistinct;
    var planned, observed := plan.configuration.rulesets, readback.configuration.rulesets;
    SameElements(Keys(observed, View), Keys(planned, View));
    forall p | p in planned ensures exists o :: o in observed && SameRuleset(p, o) {
      KeyListed(planned, View, View(p));
      KeyListed(observed, View, View(p));
      var o :| o in observed && View(o) == View(p);
      SameViewSameRuleset(p, o);
    }
    forall o | o in observed ensures exists p :: p in planned && SameRuleset(p, o) {
      KeyListed(planned, View, View(o));
      KeyListed(observed, View, View(o));
      var p :| p in planned && View(p) == View(o);
      SameViewSameRuleset(p, o);
    }
  }

  /** The same readback with its lists in another order. */
  ghost predicate Reordered(a: Readback, b: Readback) {
    && b == a.(configuration := a.configuration.(rulesets := b.configuration.rulesets,
         environments := b.configuration.environments, requiredChecks := b.configuration.requiredChecks,
         incidentContacts := b.configuration.incidentContacts))
    && multiset(a.configuration.rulesets) == multiset(b.configuration.rulesets)
    && multiset(a.configuration.environments) == multiset(b.configuration.environments)
    && multiset(a.configuration.requiredChecks) == multiset(b.configuration.requiredChecks)
    && multiset(a.configuration.incidentContacts) == multiset(b.configuration.incidentContacts)
  }

  lemma VerdictForgetsOrder(digest: Plan -> string, plan: Plan, a: Readback, b: Readback, window: Window)
    requires Reordered(a, b)
    ensures Accepted(digest, plan, a, window) <==> Accepted(digest, plan, b, window)
  {
    hide ConfigurationValid;
    KeysPermute(a.configuration.rulesets, b.configuration.rulesets, View);
    SameElements(a.configuration.rulesets, b.configuration.rulesets);
  }

  /** Validity of a ruleset shows in its view once no ref is repeated. */
  lemma ViewKeepsValid(planned: Ruleset, observed: Ruleset)
    requires RulesetValid(planned) && RefsDistinct(observed) && View(observed) == View(planned)
    ensures RulesetValid(observed)
  {
    forall ref
      ensures ref in observed.included <==> ref in planned.included
      ensures ref in observed.excluded <==> ref in planned.excluded
      ensures ref in observed.effectiveProtectedRefs <==> ref in planned.effectiveProtectedRefs
    {
      assert ref in ToSet(observed.included) <==> ref in ToSet(planned.included);
      assert ref in ToSet(observed.excluded) <==> ref in ToSet(planned.excluded);
      assert ref in ToSet(observed.effectiveProtectedRefs) <==> ref in ToSet(planned.effectiveProtectedRefs);
    }
    assert planned.included[0] in observed.included;
    assert planned.effectiveProtectedRefs[0] in observed.effectiveProtectedRefs;
  }

  lemma RulesetsReadAsPlanned(planned: seq<Ruleset>, observed: seq<Ruleset>)
    requires RulesetsValid(planned) && AllRefsDistinct(observed) && KeysDistinct(observed, RulesetId)
    requires forall r :: r in planned ==> r.enforcement == Active
    requires multiset(Keys(observed, View)) == multiset(Keys(planned, View))
    ensures RulesetsValid(observed) && forall r :: r in observed ==> r.enforcement == Active
  {
    SameElements(Keys(observed, View), Keys(planned, View));
    forall o | o in observed ensures RulesetValid(o) && o.enforcement == Active {
      KeyListed(observed, View, View(o));
      KeyListed(planned, View, View(o));
      var p :| p in planned && View(p) == View(o);
      ViewKeepsValid(p, o);
    }
  }

  function ReadAsPlan(readback: Readback): Plan { Plan(readback.observedAt, readback.configuration) }

  /** An accepted readback would itself pass as a plan. */
  lemma AcceptedReadsAsPlan(digest: Plan -> string, plan: Plan, readback: Readback, window: Window)
    requires PlanTyped(plan) && Accepted(digest, plan, readback, window)
    ensures PlanTyped(ReadAsPlan(readback)) && ConfigurationValid(readback.configuration)
  {
    var planned, observed := plan.configuration, readback.configuration;
    SameConfigurationKeys(planned, observed);
    RulesetsReadAsPlanned(planned.rulesets, observed.rulesets);
    SameElements(planned.environments, observed.environments);
    SameElements(planned.requiredChecks, observed.requiredChecks);
    KeysPermute(planned.requiredChecks, observed.requiredChecks, CheckName);
    SameElements(Keys(planned.requiredChecks, CheckName), Keys(observed.requiredChecks, CheckName));
  }

  /** Some readback is accepted exactly for the valid plans that repeat no ref within a list: the
      validator lets an excluded ref be listed twice, the comparator never matches it. */
  lemma MatchableExactly(digest: Plan -> string, plan: Plan)
    requires PlanTyped(plan)
    ensures (exists readback, window :: Accepted(digest, plan, readback, window)) <==>
      ConfigurationValid(plan.configuration) && AllRefsDistinct(plan.configuration.rulesets)
  {
    if ConfigurationValid(plan.configuration) && AllRefsDistinct(plan.configuration.rulesets) {
      assert Accepted(digest, plan, Readback(0, digest(plan), plan.configuration, false), Window(0, 0));
    }
  }

  function RepeatedExclusion(ref: string, gone: string): Ruleset {
    Ruleset("r", RepositorySource, [ref], [gone, gone], [ref], Active, [], Branch(true, true, true))
  }

  lemma RepeatedExclusionValid(ref: string, gone: string)
    requires IsLiteralRef(ref) && IsLiteralRef(gone) && ref != gone && BRANCH_PREFIX <= ref
    ensures RulesetValid(RepeatedExclusion(ref, gone)) && !RefsDistinct(RepeatedExclusion(ref, gone))
  {
    var r := RepeatedExclusion(ref, gone);
    assert r.included[1..] == [];
    assert Protected(r.included, r.excluded) == [ref];
    assert r.excluded[0] == r.excluded[1];
  }

  /** Input for which the planner returns a plan that no readback can ever match. The planner does
      not consult the schema, which forbids the repetition. */
  function DuplicatedExclusion(): PlanInput {
    PlanInput(0, Repository(1, "n", "o", "r", "o/r"), [RepeatedExclusion("refs/heads/a", "b")],
              [Environment("e", true, true)], ProjectBinding(1, "o", "d", true), [Contact(SecurityOwner, "h")])
  }

  lemma DuplicatedExclusionUnmatchable(digest: Plan -> string)
    ensures Plannable(DuplicatedExclusion())
    ensures ConfigurationValid(Assemble(DuplicatedExclusion()).configuration) && PlanTyped(Assemble(DuplicatedExclusion()))
    ensures forall readback, window :: !Accepted(digest, Assemble(DuplicatedExclusion()), readback, window)
  {
    hide ConfigurationValid;
    hide RulesetValid;
    hide RefsDistinct;
    var input := DuplicatedExclusion();
    var ref := "refs/heads/a";
    assert BRANCH_PREFIX <= ref && ref != "b" && IsLiteralRef(ref) && IsLiteralRef("b");
    RepeatedExclusionValid(ref, "b");
    AssembledExactly(input);
    assert input.rulesets[0] in input.rulesets;
  }
}

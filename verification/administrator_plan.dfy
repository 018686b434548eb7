/** The closed administrator plan and its readback comparator (src/administrator-plan.ts). Plan and
    readback share one configuration type; `PlanTyped` holds what the plan's own type fixes. */
module AdministratorPlan {
  import opened KeyedLists
  import opened Ordering
  import opened Strings
  import opened Wrappers

  datatype Repository = Repository(id: int, nodeId: string, owner: string, name: string, fullName: string)

  datatype Source = RepositorySource | OrganizationSource

  datatype Enforcement = Active | Evaluate | Disabled

  datatype Controls =
    | Branch(requiresPullRequest: bool, requiresCodeownerReview: bool, requiresCurrentHeadApproval: bool)
    | Tag(restrictsTagCreation: bool, restrictsTagUpdate: bool, restrictsTagDeletion: bool)

  datatype Ruleset = Ruleset(
    rulesetId: string, source: Source, included: seq<string>, excluded: seq<string>,
    effectiveProtectedRefs: seq<string>, enforcement: Enforcement, bypassActors: seq<string>, controls: Controls)

  datatype Environment = Environment(environmentId: string, requiresReviewers: bool, hasProtectionRules: bool)

  datatype Check = Check(checkName: string, required: bool)

  datatype ActionsPolicy = ActionsPolicy(
    allowedActions: string, defaultWorkflowPermissions: string, canApprovePullRequestReviews: bool,
    shaPinningRequired: bool, requireApprovalForForkPullRequests: bool)

  datatype Ghas = Ghas(
    advancedSecurity: bool, dependabotAlerts: bool, dependabotSecurityUpdates: bool, secretScanning: bool,
    secretScanningPushProtection: bool, secretScanningValidityChecks: bool, secretScanningNonProviderPatterns: bool,
    codeScanningDefaultSetup: bool, delegatedAlertDismissal: bool, delegatedBypass: bool)

  datatype ProjectBinding = ProjectBinding(
    projectNumber: int, ownerLogin: string, schemaDigest: string, mutationRequiresExplicitConfirmation: bool)

  datatype Role = SecurityOwner | PlatformOwner | OnCallAdmin

  datatype Contact = Contact(role: Role, contactHandle: string)

  datatype Marker = Marker(
    cannotApplyRuleset: bool, cannotApplyActionsPolicy: bool, cannotApplyGhasSetting: bool,
    cannotMutateProject: bool, cannotChangeVisibilityOrBilling: bool)

  datatype Configuration = Configuration(
    repository: Repository, rulesets: seq<Ruleset>, environments: seq<Environment>, requiredChecks: seq<Check>,
    actionsPolicy: ActionsPolicy, ghas: Ghas, projectBinding: ProjectBinding, incidentContacts: seq<Contact>,
    nonAuthoritative: Marker)

  datatype Plan = Plan(generatedAt: int, configuration: Configuration)

  datatype Readback = Readback(observedAt: int, planDigest: string, configuration: Configuration, driftFound: bool)

  /** Where in the document an issue lies, and for which entry of a list. */
  datatype Section =
    | PlanDigest | RepositoryIdentity | ObservedAt | Rulesets | Environments | RequiredChecks | ActionsPolicyField
    | GhasField | ProjectField | IncidentContacts | MarkerField

  datatype Issue = Issue(section: Section, entry: string)

  // ----- Literal refs and ref sets -----

  const REQUIRED_CHECK_NAMES: seq<string> := [
    "typecheck", "build", "test", "validate:schemas", "validate:runtime", "validate:workflows", "validate:gh-aw",
    "validate:packaging", "validate:demos", "validate:hardening", "codeql", "dependency-review"
  ]

  predicate IsLiteralRef(ref: string) {
    forall i :: 0 <= i < |ref| ==> !IsWhitespace(ref[i]) && ref[i] !in "*?[]"
  }

  /** Character by character: a ref is literal when no character is white space or a pattern sign. */
  lemma LiteralRefExactly(c: char, left: string, right: string)
    ensures IsLiteralRef([c]) <==> c != '*' && c != '?' && c != '[' && c != ']' && !IsWhitespace(c)
    ensures IsLiteralRef(left + right) <==> IsLiteralRef(left) && IsLiteralRef(right)
  {
    var all := left + right;
    assert [c][0] == c;
    if IsLiteralRef(all) {
      forall i | 0 <= i < |left| ensures !IsWhitespace(left[i]) && left[i] !in "*?[]" { assert all[i] == left[i]; }
      forall i | 0 <= i < |right| ensures !IsWhitespace(right[i]) && right[i] !in "*?[]" { assert all[|left| + i] == right[i]; }
    }
  }

  function NonLiteral(refs: seq<string>): (r: seq<string>)
    ensures r == [] <==> forall ref :: ref in refs ==> IsLiteralRef(ref)
  {
    if refs == [] then [] else (if IsLiteralRef(refs[0]) then [] else [refs[0]]) + NonLiteral(refs[1..])
  }

  /** computeEffectiveProtectedRefs */
  function Protected(included: seq<string>, excluded: seq<string>): (refs: seq<string>)
    ensures forall ref :: ref in refs <==> ref in included && ref !in excluded
    ensures Distinct(included) ==> Distinct(refs)
  {
    if included == [] then []
    else
      var rest := Protected(included[1..], excluded);
      assert Distinct(included) ==> Distinct(included[1..]) && included[0] !in included[1..];
      if included[0] in excluded then rest else [included[0]] + rest
  }

  // ----- The plan validator -----

  const BRANCH_PREFIX := "refs/heads/"
  const TAG_PREFIX := "refs/tags/"

  function RefPrefix(controls: Controls): string { if controls.Branch? then BRANCH_PREFIX else TAG_PREFIX }

  predicate IsLetter(c: char, lower: char, upper: char) { c == lower || c == upper }

  /** The test /main/i. */
  predicate NamesMain(rulesetId: string) {
    exists i :: 0 <= i && i + 4 <= |rulesetId| &&
      IsLetter(rulesetId[i], 'm', 'M') && IsLetter(rulesetId[i + 1], 'a', 'A') &&
      IsLetter(rulesetId[i + 2], 'i', 'I') && IsLetter(rulesetId[i + 3], 'n', 'N')
  }

  predicate ControlsOn(controls: Controls) {
    match controls
    case Branch(pullRequest, codeowner, currentHead) => pullRequest && codeowner && currentHead
    case Tag(creation, update, deletion) => creation && update && deletion
  }

  predicate AllLiteral(ruleset: Ruleset) {
    forall ref :: ref in ruleset.included + ruleset.excluded + ruleset.effectiveProtectedRefs ==> IsLiteralRef(ref)
  }

  /** The protected refs are exactly the included refs not excluded, each listed once. */
  ghost predicate ResolvesToProtected(ruleset: Ruleset) {
    SameDistinct(ruleset.effectiveProtectedRefs, Protected(ruleset.included, ruleset.excluded))
  }

  predicate NameMatchesRefs(ruleset: Ruleset) {
    NamesMain(ruleset.rulesetId) && ruleset.controls.Branch? ==> "refs/heads/main" in ruleset.effectiveProtectedRefs
  }

  predicate InNamespace(ruleset: Ruleset) {
    forall ref :: ref in ruleset.effectiveProtectedRefs ==> RefPrefix(ruleset.controls) <= ref
  }

  ghost predicate RulesetValid(ruleset: Ruleset) {
    && ruleset.bypassActors == [] && ruleset.included != [] && AllLiteral(ruleset)
    && ResolvesToProtected(ruleset) && ruleset.effectiveProtectedRefs != []
    && InNamespace(ruleset) && NameMatchesRefs(ruleset) && ControlsOn(ruleset.controls)
  }

  /** What a valid ruleset is, ref by ref. */
  lemma RulesetMeans(ruleset: Ruleset)
    requires RulesetValid(ruleset)
    ensures ruleset.bypassActors == [] && ruleset.included != [] && ruleset.effectiveProtectedRefs != []
    ensures Distinct(ruleset.effectiveProtectedRefs)
    ensures forall ref :: ref in ruleset.effectiveProtectedRefs <==> ref in ruleset.included && ref !in ruleset.excluded
    ensures forall ref :: ref in ruleset.effectiveProtectedRefs ==>
      if ruleset.controls.Branch? then "refs/heads/" <= ref else "refs/tags/" <= ref
    ensures match ruleset.controls
      case Branch(pullRequest, codeowner, currentHead) => pullRequest && codeowner && currentHead
      case Tag(creation, update, deletion) => creation && update && deletion
  {
    hide AllLiteral;
    hide NamesMain;
  }

  /** A branch ruleset with "main" or "MAIN" anywhere in its name protects the main branch. */
  lemma NamedMeans(ruleset: Ruleset, left: string, word: string, right: string)
    requires RulesetValid(ruleset) && ruleset.controls.Branch?
    requires ruleset.rulesetId == left + word + right && (word == "main" || word == "MAIN")
    ensures "refs/heads/main" in ruleset.effectiveProtectedRefs
  {
    hide AllLiteral;
    hide ResolvesToProtected;
    hide InNamespace;
    var id, at := ruleset.rulesetId, |left|;
    assert id[at] == word[0] && id[at + 1] == word[1] && id[at + 2] == word[2] && id[at + 3] == word[3];
    assert at + 4 <= |id|;
  }

  predicate EnvironmentValid(environment: Environment) {
    environment.requiresReviewers && environment.hasProtectionRules
  }

  predicate ActionsValid(policy: ActionsPolicy) {
    && (policy.allowedActions == "local_only" || policy.allowedActions == "selected")
    && policy.defaultWorkflowPermissions == "read" && !policy.canApprovePullRequestReviews
    && policy.shaPinningRequired && policy.requireApprovalForForkPullRequests
  }

  const REQUIRED_GHAS := Ghas(true, true, true, true, true, true, true, true, false, false)

  function RulesetId(ruleset: Ruleset): string { ruleset.rulesetId }
  function EnvironmentId(environment: Environment): string { environment.environmentId }
  function CheckName(check: Check): string { check.checkName }
  function ContactRole(contact: Contact): Role { contact.role }

  ghost predicate ChecksValid(checks: seq<Check>) {
    KeysDistinct(checks, CheckName) && forall name :: name in REQUIRED_CHECK_NAMES ==> name in Keys(checks, CheckName)
  }

  ghost predicate RulesetsValid(rulesets: seq<Ruleset>) {
    KeysDistinct(rulesets, RulesetId) && forall r :: r in rulesets ==> RulesetValid(r)
  }

  ghost predicate EnvironmentsValid(environments: seq<Environment>) {
    KeysDistinct(environments, EnvironmentId) && forall e :: e in environments ==> EnvironmentValid(e)
  }

  ghost predicate ConfigurationValid(c: Configuration) {
    && ChecksValid(c.requiredChecks) && RulesetsValid(c.rulesets) && EnvironmentsValid(c.environments)
    && KeysDistinct(c.incidentContacts, ContactRole) && ActionsValid(c.actionsPolicy) && c.ghas == REQUIRED_GHAS
  }

  method ValidateChecks(checks: seq<Check>) returns (issues: seq<Issue>)
    ensures issues == [] <==> ChecksValid(checks)
  {
    issues := [];
    var observed := ToSet(Keys(checks, CheckName));
    SetSizeTellsDistinct(Keys(checks, CheckName));
    if |observed| != |checks| { issues := [Issue(RequiredChecks, "")]; }
    for i := 0 to |REQUIRED_CHECK_NAMES|
      invariant issues == [] <==> KeysDistinct(checks, CheckName) && forall j :: 0 <= j < i ==> REQUIRED_CHECK_NAMES[j] in observed
    {
      if REQUIRED_CHECK_NAMES[i] !in observed { issues := issues + [Issue(RequiredChecks, REQUIRED_CHECK_NAMES[i])]; }
    }
  }

  method ReportDuplicates(section: Section, duplicates: seq<string>) returns (issues: seq<Issue>)
    ensures issues == [] <==> duplicates == []
  {
    issues := [];
    for i := 0 to |duplicates|
      invariant |issues| == i
    {
      issues := issues + [Issue(section, duplicates[i])];
    }
  }

  method ValidateRulesets(rulesets: seq<Ruleset>) returns (issues: seq<Issue>)
    ensures issues == [] <==> RulesetsValid(rulesets)
  {
    hide RulesetValid;
    var duplicates := FindDuplicateKeys(rulesets, RulesetId);
    issues := ReportDuplicates(Rulesets, duplicates);
    for i := 0 to |rulesets|
      invariant issues == [] <==> KeysDistinct(rulesets, RulesetId) && forall j :: 0 <= j < i ==> RulesetValid(rulesets[j])
    {
      var found := ValidateRuleset(rulesets[i]);
      issues := issues + found;
    }
  }

  method ValidateRuleset(ruleset: Ruleset) returns (issues: seq<Issue>)
    ensures issues == [] <==> RulesetValid(ruleset)
  {
    var issue := Issue(Rulesets, ruleset.rulesetId);
    issues := [];
    if |ruleset.bypassActors| > 0 { issues := issues + [issue]; }
    if |ruleset.included| == 0 { issues := issues + [issue]; }
    if NonLiteral(ruleset.included + ruleset.excluded + ruleset.effectiveProtectedRefs) != [] {
      return issues + [issue];
    }
    var resolved := SetsExactlyEqual(ruleset.effectiveProtectedRefs, Protected(ruleset.included, ruleset.excluded));
    if !resolved { issues := issues + [issue]; }
    if |ruleset.effectiveProtectedRefs| == 0 { issues := issues + [issue]; }
    var misplaced := CheckNamespace(ruleset);
    issues := issues + misplaced;
    if NamesMain(ruleset.rulesetId) && ruleset.controls.Branch? && "refs/heads/main" !in ruleset.effectiveProtectedRefs {
      issues := issues + [issue];
    }
    if !ControlsOn(ruleset.controls) { issues := issues + [issue]; }
  }

  method CheckNamespace(ruleset: Ruleset) returns (issues: seq<Issue>)
    ensures issues == [] <==> InNamespace(ruleset)
  {
    issues := [];
    var refs := ruleset.effectiveProtectedRefs;
    for i := 0 to |refs|
      invariant issues == [] <==> forall j :: 0 <= j < i ==> RefPrefix(ruleset.controls) <= refs[j]
    {
      if !(RefPrefix(ruleset.controls) <= refs[i]) { issues := issues + [Issue(Rulesets, ruleset.rulesetId)]; }
    }
    assert forall j :: 0 <= j < |refs| ==> refs[j] in refs;
  }

  method ValidateEnvironments(environments: seq<Environment>) returns (issues: seq<Issue>)
    ensures issues == [] <==> EnvironmentsValid(environments)
  {
    var duplicates := FindDuplicateKeys(environments, EnvironmentId);
    issues := ReportDuplicates(Environments, duplicates);
    for i := 0 to |environments|
      invariant issues == [] <==>
        KeysDistinct(environments, EnvironmentId) && forall j :: 0 <= j < i ==> EnvironmentValid(environments[j])
    {
      var issue := Issue(Environments, environments[i].environmentId);
      if !environments[i].requiresReviewers { issues := issues + [issue]; }
      if !environments[i].hasProtectionRules { issues := issues + [issue]; }
    }
  }

  method ValidateActions(policy: ActionsPolicy) returns (issues: seq<Issue>)
    ensures issues == [] <==> ActionsValid(policy)
  {
    issues := [];
    if policy.allowedActions != "local_only" && policy.allowedActions != "selected" {
      issues := issues + [Issue(ActionsPolicyField, "allowedActions")];
    }
    if policy.defaultWorkflowPermissions != "read" {
      issues := issues + [Issue(ActionsPolicyField, "defaultWorkflowPermissions")];
    }
    if policy.canApprovePullRequestReviews { issues := issues + [Issue(ActionsPolicyField, "canApprovePullRequestReviews")]; }
    if !policy.shaPinningRequired { issues := issues + [Issue(ActionsPolicyField, "shaPinningRequired")]; }
    if !policy.requireApprovalForForkPullRequests {
      issues := issues + [Issue(ActionsPolicyField, "requireApprovalForForkPullRequests")];
    }
  }

  /** The settings in declaration order; the first eight must be on, the last two off. */
  function Setting(ghas: Ghas, i: nat): bool {
    if i == 0 then ghas.advancedSecurity
    else if i == 1 then ghas.dependabotAlerts
    else if i == 2 then ghas.dependabotSecurityUpdates
    else if i == 3 then ghas.secretScanning
    else if i == 4 then ghas.secretScanningPushProtection
    else if i == 5 then ghas.secretScanningValidityChecks
    else if i == 6 then ghas.secretScanningNonProviderPatterns
    else if i == 7 then ghas.codeScanningDefaultSetup
    else if i == 8 then ghas.delegatedAlertDismissal
    else ghas.delegatedBypass
  }

  lemma GhasFirstHalf(a: Ghas, b: Ghas)
    requires forall i :: 0 <= i < 10 ==> Setting(a, i) == Setting(b, i)
    ensures a.advancedSecurity == b.advancedSecurity && a.dependabotAlerts == b.dependabotAlerts
    ensures a.dependabotSecurityUpdates == b.dependabotSecurityUpdates && a.secretScanning == b.secretScanning
    ensures a.secretScanningPushProtection == b.secretScanningPushProtection
  {
    assert Setting(a, 0) == Setting(b, 0) && Setting(a, 1) == Setting(b, 1) && Setting(a, 2) == Setting(b, 2);
    assert Setting(a, 3) == Setting(b, 3) && Setting(a, 4) == Setting(b, 4);
  }

  lemma GhasBySettings(a: Ghas, b: Ghas)
    requires forall i :: 0 <= i < 10 ==> Setting(a, i) == Setting(b, i)
    ensures a == b
  {
    GhasFirstHalf(a, b);
    assert Setting(a, 5) == Setting(b, 5) && Setting(a, 6) == Setting(b, 6) && Setting(a, 7) == Setting(b, 7);
    assert Setting(a, 8) == Setting(b, 8) && Setting(a, 9) == Setting(b, 9);
  }

  method ValidateGhas(ghas: Ghas) returns (issues: seq<Issue>)
    ensures issues == [] <==> ghas == REQUIRED_GHAS
  {
    issues := [];
    for i := 0 to 8
      invariant issues == [] <==> forall j :: 0 <= j < i ==> Setting(ghas, j)
    {
      if !Setting(ghas, i) { issues := issues + [Issue(GhasField, "")]; }
    }
    for i := 8 to 10
      invariant issues == [] <==>
        (forall j :: 0 <= j < 8 ==> Setting(ghas, j)) && forall j :: 8 <= j < i ==> !Setting(ghas, j)
    {
      if Setting(ghas, i) { issues := issues + [Issue(GhasField, "")]; }
    }
    if issues == [] {
      forall i | 0 <= i < 10 ensures Setting(ghas, i) == Setting(REQUIRED_GHAS, i) {}
      GhasBySettings(ghas, REQUIRED_GHAS);
    }
  }

  method ValidateAdministratorPlan(plan: Plan) returns (issues: seq<Issue>)
    ensures issues == [] <==> ConfigurationValid(plan.configuration)
  {
    var c := plan.configuration;
    issues := ValidateChecks(c.requiredChecks);
    var found := ValidateRulesets(c.rulesets);
    issues := issues + found;
    found := ValidateEnvironments(c.environments);
    issues := issues + found;
    var repeatedRoles := FindDuplicateKeys(c.incidentContacts, ContactRole);
    if repeatedRoles != [] { issues := issues + [Issue(IncidentContacts, "")]; }
    found := ValidateActions(c.actionsPolicy);
    issues := issues + found;
    found := ValidateGhas(c.ghas);
    issues := issues + found;
  }

  // ----- Assembling a plan -----

  datatype PlanInput = PlanInput(
    generatedAt: int, repository: Repository, rulesets: seq<Ruleset>, environments: seq<Environment>,
    projectBinding: ProjectBinding, incidentContacts: seq<Contact>)

  function RequiredChecksOf(names: seq<string>): (checks: seq<Check>)
    ensures |checks| == |names| && forall i :: 0 <= i < |names| ==> checks[i] == Check(names[i], true)
  {
    seq(|names|, i requires 0 <= i < |names| => Check(names[i], true))
  }

  /** The checks, Actions policy, GHAS settings and marker are fixed by this function. */
  function Assemble(input: PlanInput): Plan {
    Plan(input.generatedAt,
         Configuration(input.repository, input.rulesets, input.environments, RequiredChecksOf(REQUIRED_CHECK_NAMES),
                       ActionsPolicy("selected", "read", false, true, true), REQUIRED_GHAS, input.projectBinding,
                       input.incidentContacts, Marker(true, true, true, true, true)))
  }

  /** The names fall into groups of equal length, told apart at one position. */
  lemma RequiredNamesDistinct()
    ensures Distinct(REQUIRED_CHECK_NAMES)
  {
    var n := REQUIRED_CHECK_NAMES;
    assert |n[0]| == 9 && |n[1]| == 5 && |n[2]| == 4 && |n[10]| == 6 && |n[11]| == 17;
    assert |n[3]| == |n[4]| == 16 && n[3][9] != n[4][9];
    assert |n[6]| == |n[8]| == 14 && n[6][9] != n[8][9];
    assert |n[5]| == |n[7]| == |n[9]| == 18 && n[5][9] == 'w' && n[7][9] == 'p' && n[9][9] == 'h';
  }

  /** The part of a valid configuration that the caller supplies. */
  ghost predicate InputValid(input: PlanInput) {
    && RulesetsValid(input.rulesets) && EnvironmentsValid(input.environments)
    && KeysDistinct(input.incidentContacts, ContactRole)
  }

  /** What the caller supplies decides alone whether an assembled plan is valid. */
  lemma AssembledExactly(input: PlanInput)
    ensures ConfigurationValid(Assemble(input).configuration) <==> InputValid(input)
  {
    RequiredNamesDistinct();
    assert Keys(RequiredChecksOf(REQUIRED_CHECK_NAMES), CheckName) == REQUIRED_CHECK_NAMES;
  }

  /** What a planned document says beside the caller's part: twelve required checks, the strictest
      Actions policy, every GHAS protection on and both delegations off, no authority. */
  ghost predicate PlannedFor(input: PlanInput, plan: Plan) {
    var c := plan.configuration;
    && plan.generatedAt == input.generatedAt && c.repository == input.repository
    && c.rulesets == input.rulesets && c.environments == input.environments
    && c.projectBinding == input.projectBinding && c.incidentContacts == input.incidentContacts
    && |c.requiredChecks| == 12 && (forall check :: check in c.requiredChecks ==> check.required)
    && (forall name :: Check(name, true) in c.requiredChecks <==> name in {
          "typecheck", "build", "test", "validate:schemas", "validate:runtime", "validate:workflows", "validate:gh-aw",
          "validate:packaging", "validate:demos", "validate:hardening", "codeql", "dependency-review"})
    && c.actionsPolicy.allowedActions == "selected" && c.actionsPolicy.defaultWorkflowPermissions == "read"
    && !c.actionsPolicy.canApprovePullRequestReviews && c.actionsPolicy.shaPinningRequired
    && c.actionsPolicy.requireApprovalForForkPullRequests
    && c.ghas.advancedSecurity && c.ghas.dependabotAlerts && c.ghas.dependabotSecurityUpdates && c.ghas.secretScanning
    && c.ghas.secretScanningPushProtection && c.ghas.secretScanningValidityChecks
    && c.ghas.secretScanningNonProviderPatterns && c.ghas.codeScanningDefaultSetup
    && !c.ghas.delegatedAlertDismissal && !c.ghas.delegatedBypass
    && c.nonAuthoritative.cannotApplyRuleset && c.nonAuthoritative.cannotApplyActionsPolicy
    && c.nonAuthoritative.cannotApplyGhasSetting && c.nonAuthoritative.cannotMutateProject
    && c.nonAuthoritative.cannotChangeVisibilityOrBilling
  }

  lemma AssembledFor(input: PlanInput)
    ensures PlannedFor(input, Assemble(input))
  {
    var checks := RequiredChecksOf(REQUIRED_CHECK_NAMES);
    forall name ensures Check(name, true) in checks <==> name in REQUIRED_CHECK_NAMES {
      if name in REQUIRED_CHECK_NAMES {
        var i :| 0 <= i < |REQUIRED_CHECK_NAMES| && REQUIRED_CHECK_NAMES[i] == name;
        assert checks[i] == Check(name, true);
      }
    }
  }

  ghost predicate Plannable(input: PlanInput) {
    input.rulesets != [] && input.incidentContacts != [] && InputValid(input)
  }

  method PlanAdministratorConfiguration(input: PlanInput) returns (r: Result<Plan, seq<Issue>>)
    ensures r.Ok? <==> Plannable(input)
    ensures r.Ok? ==> r.value == Assemble(input) && ConfigurationValid(r.value.configuration)
    ensures r.Ok? ==> PlannedFor(input, r.value)
    ensures r.Err? ==> r.error != []
    ensures input.rulesets == [] ==> r == Err([Issue(Rulesets, "")])
    ensures input.rulesets != [] && input.incidentContacts == [] ==> r == Err([Issue(IncidentContacts, "")])
  {
    if |input.rulesets| == 0 { return Err([Issue(Rulesets, "")]); }
    if |input.incidentContacts| == 0 { return Err([Issue(IncidentContacts, "")]); }
    AssembledExactly(input);
    AssembledFor(input);
    hide PlannedFor;
    var plan := Assemble(input);
    var issues := ValidateAdministratorPlan(plan);
    return if |issues| > 0 then Err(issues) else Ok(plan);
  }
}

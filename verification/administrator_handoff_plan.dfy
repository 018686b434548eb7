/** The administrator handoff plan (src/administrator-handoff.ts): a fixed document over a control
    catalogue, its planner and its validator. */
module AdministratorHandoffPlan {
  import opened AdministratorCatalogue
  import opened Wrappers

  datatype Protocol = Protocol(
    exactTargetIdentifiersRequired: bool, expectedCountsAndCurrentValuesRequired: bool,
    closedDesiredValuesRequired: bool, canonicalPlanDigestRequired: bool,
    separateExplicitHumanConfirmationRequired: bool, freshPreApplyReadbackRequired: bool,
    maximumApplyAttempts: int, completePostApplyReadbackRequired: bool,
    retryAfterAmbiguousAcknowledgement: bool, trustedAdapterVerificationRequired: bool,
    durableAttemptClaimRequired: bool, attemptReceiptRequired: bool)

  const APPLY_PROTOCOL := Protocol(true, true, true, true, true, true, 1, true, false, true, true, true)

  const PROHIBITED_EFFECTS: seq<string> := [
    "automatic-approval", "automatic-mark-ready", "automatic-merge", "automatic-issue-close",
    "automatic-project-transition", "automatic-deployment", "automatic-publication", "automatic-license-decision",
    "automatic-visibility-change", "pat-fallback", "model-job-credential-fallback",
    "blind-retry-after-ambiguous-acknowledgement"
  ]

  const AUTHORITY_ORDER: seq<string> := [
    "lifecycle-graph", "work-accord-and-phase-contracts", "policy-compiler-and-capability-registry",
    "control-kernel", "trusted-adapter", "single-writer", "model-output-untrusted-advisory"
  ]

  const SOURCE_DIGEST_KEYS: set<string> := {
    "administratorConfigurationPlan", "customerStarterCoreSelection", "customerStarterDemoSelection",
    "deploymentTopologyPlan", "durableAdapterMapping", "githubAppRegistrationPlan", "licenseBytes",
    "openSourceReadiness", "syntheticCanaryEvidence"
  }

  datatype Readiness = Readiness(
    repository: string, credentiallessSyntheticSandbox: string, appBackedSandbox: string, production: string,
    liveCanaryStop: string)

  const HANDOFF_READINESS := Readiness(
    "requires-exact-head-validation", "requires-synthetic-canary",
    "blocked-until-complete-administrator-readback-and-live-canary", "customer-approval-required", "human-review")

  datatype Marker = Marker(
    cannotApplyAdministration: bool, cannotCreateTransferOrInstallApp: bool, cannotCreateReadOrRotateKeys: bool,
    cannotEnableBillingOrInference: bool, cannotDeployPublishApproveMergeOrClose: bool)

  const NON_AUTHORITATIVE := Marker(true, true, true, true, true)

  datatype Control<C> = Control(
    controlId: C, sequence: int, requiredBindings: seq<Binding>, prerequisites: seq<C>, terms: Terms, details: Details,
    prohibitedEffects: seq<string>)

  datatype HandoffPlan<C> = HandoffPlan(
    evidenceEpoch: string, authorityOrder: seq<string>, sourceDigests: map<string, string>,
    durableAdapterPortCount: int, controls: seq<Control<C>>, applyProtocol: Protocol, readiness: Readiness,
    prohibitedEffects: seq<string>, nonAuthoritative: Marker)

  datatype Digests<!C> = Digests(
    plan: HandoffPlan<C> -> string, controls: seq<Control<C>> -> string, protocol: Protocol -> string,
    readiness: Readiness -> string, marker: Marker -> string)

  ghost predicate CollisionFree<C(!new)>(d: Digests<C>) {
    && (forall a, b :: d.controls(a) == d.controls(b) ==> a == b)
    && (forall a, b :: d.protocol(a) == d.protocol(b) ==> a == b)
    && (forall a, b :: d.readiness(a) == d.readiness(b) ==> a == b)
    && (forall a, b :: d.marker(a) == d.marker(b) ==> a == b)
  }

  /** /^sha256:[0-9a-f]{64}$/ */
  predicate IsSha256(s: string) {
    |s| == 71 && "sha256:" <= s && forall i :: 7 <= i < 71 ==> '0' <= s[i] <= '9' || 'a' <= s[i] <= 'f'
  }

  /** The prefix and sixty-four lower-case hexadecimal digits, nothing else. */
  lemma Sha256Exactly(s: string)
    ensures IsSha256(s) <==>
      exists hex: string :: |hex| == 64 && (forall c :: c in hex ==> c in "0123456789abcdef") && s == "sha256:" + hex
  {
    if IsSha256(s) {
      var hex := s[7..];
      forall c | c in hex ensures c in "0123456789abcdef" {
        var i :| 0 <= i < 64 && hex[i] == c;
        assert s[i + 7] == c;
        HexDigit(c);
      }
      assert s == "sha256:" + hex;
    }
    if hex: string :| |hex| == 64 && (forall c :: c in hex ==> c in "0123456789abcdef") && s == "sha256:" + hex {
      forall i | 7 <= i < 71 ensures '0' <= s[i] <= '9' || 'a' <= s[i] <= 'f' {
        assert s[i] == hex[i - 7] && hex[i - 7] in hex;
        HexDigit(s[i]);
      }
    }
  }

  lemma HexDigit(c: char)
    ensures c in "0123456789abcdef" <==> '0' <= c <= '9' || 'a' <= c <= 'f'
  {
    var digits := "0123456789abcdef";
    if '0' <= c <= '9' { assert digits[c as int - '0' as int] == c; }
    if 'a' <= c <= 'f' { assert digits[c as int - 'a' as int + 10] == c; }
  }

  /** The controls of a catalogue as the plan carries them, numbered from 1. */
  function ControlsOf<C(==)>(catalogue: Catalogue<C>): (controls: seq<Control<C>>)
    ensures |controls| == |catalogue.order|
    ensures forall i :: 0 <= i < |controls| ==> controls[i].controlId == catalogue.order[i] && controls[i].sequence == i + 1
  {
    seq(|catalogue.order|, i requires 0 <= i < |catalogue.order| =>
      var c := catalogue.order[i];
      Control(c, i + 1, catalogue.bindings(c), catalogue.prerequisites(c), catalogue.terms(c), catalogue.details(c),
              PROHIBITED_EFFECTS))
  }

  function Ids<C>(controls: seq<Control<C>>): (ids: seq<C>)
    ensures |ids| == |controls| && forall i :: 0 <= i < |ids| ==> ids[i] == controls[i].controlId
  {
    seq(|controls|, i requires 0 <= i < |controls| => controls[i].controlId)
  }

  predicate SourcesValid(sourceDigests: map<string, string>) {
    sourceDigests.Keys == SOURCE_DIGEST_KEYS && forall k :: k in sourceDigests ==> IsSha256(sourceDigests[k])
  }

  /** Everything but the epoch and the nine source digests is the one fixed document. */
  predicate PlanTrusted<C(==)>(catalogue: Catalogue<C>, plan: HandoffPlan<C>) {
    SourcesValid(plan.sourceDigests) && plan == PlanOf(catalogue, plan.evidenceEpoch, plan.sourceDigests)
  }

  function PlanOf<C(==)>(catalogue: Catalogue<C>, evidenceEpoch: string, sourceDigests: map<string, string>): HandoffPlan<C> {
    HandoffPlan(evidenceEpoch, AUTHORITY_ORDER, sourceDigests, 15, ControlsOf(catalogue), APPLY_PROTOCOL,
                HANDOFF_READINESS, PROHIBITED_EFFECTS, NON_AUTHORITATIVE)
  }

  datatype Issue =
    | AuthorityOrderIssue | SourceDigestsIssue | PortCountIssue | ControlsIssue | EffectsIssue | ProtocolIssue
    | ReadinessIssue | MarkerIssue

  method ValidateAdministratorHandoffPlan<C(==,!new)>(d: Digests<C>, catalogue: Catalogue<C>, plan: HandoffPlan<C>)
    returns (issues: seq<Issue>)
    requires CollisionFree(d)
    ensures issues == [] <==> PlanTrusted(catalogue, plan)
  {
    hide IsSha256;
    hide ControlsOf;
    issues := [];
    if plan.authorityOrder != AUTHORITY_ORDER { issues := issues + [AuthorityOrderIssue]; }
    if plan.sourceDigests.Keys != SOURCE_DIGEST_KEYS { return issues + [SourceDigestsIssue]; }
    if exists k :: k in plan.sourceDigests && !IsSha256(plan.sourceDigests[k]) { issues := issues + [SourceDigestsIssue]; }
    if plan.durableAdapterPortCount != 15 { issues := issues + [PortCountIssue]; }
    if d.controls(plan.controls) != d.controls(ControlsOf(catalogue)) { issues := issues + [ControlsIssue]; }
    if plan.prohibitedEffects != PROHIBITED_EFFECTS { issues := issues + [EffectsIssue]; }
    if d.protocol(plan.applyProtocol) != d.protocol(APPLY_PROTOCOL) { issues := issues + [ProtocolIssue]; }
    if d.readiness(plan.readiness) != d.readiness(HANDOFF_READINESS) { issues := issues + [ReadinessIssue]; }
    if d.marker(plan.nonAuthoritative) != d.marker(NON_AUTHORITATIVE) { issues := issues + [MarkerIssue]; }
  }

  method PlanAdministratorHandoff<C(==,!new)>(d: Digests<C>, catalogue: Catalogue<C>, evidenceEpoch: string,
    sourceDigests: map<string, string>) returns (r: Result<HandoffPlan<C>, seq<Issue>>)
    requires CollisionFree(d)
    ensures r.Ok? <==> SourcesValid(sourceDigests)
    ensures r.Ok? ==> PlanTrusted(catalogue, r.value) && r.value.evidenceEpoch == evidenceEpoch && r.value.sourceDigests == sourceDigests
  {
    var plan := PlanOf(catalogue, evidenceEpoch, sourceDigests);
    var issues := ValidateAdministratorHandoffPlan(d, catalogue, plan);
    return if |issues| > 0 then Err(issues) else Ok(plan);
  }

  /** A trusted plan lists exactly the controls of the catalogue, in sequence. */
  lemma TrustedLists<C>(catalogue: Catalogue<C>, plan: HandoffPlan<C>)
    requires PlanTrusted(catalogue, plan)
    ensures Ids(plan.controls) == catalogue.order
  {
  }
}

/** Actor and human-gate authorisation (src/authorization.ts). A timestamp that does not parse is
    None. */
module Authorization {
  import opened Ordering
  import opened Wrappers

  type Digest = string

  datatype Code = UnauthorizedActor | HumanGateMissing | IndependenceRequired | HumanGateStale | CurrentHeadStale

  datatype Rule =
    | KnownClass | IdentityKind | CurrentRole | RouteClass | ValidEvidence | HumanActor | IndependentActor | CurrentTime
    | CurrentAccord | CurrentActivationLease | CurrentHead

  datatype Refusal = Refusal(code: Code, rule: Rule)

  datatype Actor = Actor(id: string, actorClass: string, human: bool, bot: bool, roles: seq<string>, authorizationDigest: Digest)

  datatype ActorRule = ActorRule(actorClass: string, human: bool, requiredRoles: seq<string>)

  datatype Policy = Policy(actorRules: seq<ActorRule>, independentGates: seq<string>)

  datatype GateEvidence = GateEvidence(
    gate: string, actor: Actor, valid: bool, workAccordDigest: Digest, activationLeaseDigest: Option<Digest>,
    currentHead: Option<Digest>, observedAt: Option<int>, expiresAt: Option<int>)

  datatype GateInput = GateInput(
    gate: string, policy: Policy, requesterId: string, workAccordDigest: Digest, activationLeaseDigest: Option<Digest>,
    currentHead: Option<Digest>, gateEvidence: seq<GateEvidence>, evaluatedAt: Option<int>, expectedActor: Option<Actor>)

  datatype Route = Route(actorClasses: seq<string>, humanGate: Option<string>)

  // ----- Identity -----

  function FindRule(rules: seq<ActorRule>, actorClass: string): Option<ActorRule> {
    if rules == [] then None
    else if rules[0].actorClass == actorClass then Some(rules[0])
    else FindRule(rules[1..], actorClass)
  }

  function AuthorizeIdentity(policy: Policy, actor: Actor): Option<Refusal> {
    match FindRule(policy.actorRules, actor.actorClass)
    case None => Some(Refusal(UnauthorizedActor, KnownClass))
    case Some(rule) =>
      if rule.human != actor.human || (rule.human && actor.bot) then Some(Refusal(UnauthorizedActor, IdentityKind))
      else if exists role :: role in rule.requiredRoles && role !in actor.roles then Some(Refusal(UnauthorizedActor, CurrentRole))
      else None
  }

  // ----- One piece of evidence -----

  const ACTIVATE := "activate"
  const APPROVE_CURRENT_HEAD := "approve-current-head"

  function ValidateHumanGateEvidence(input: GateInput, e: GateEvidence): Option<Refusal> {
    if !e.valid then Some(Refusal(HumanGateMissing, ValidEvidence))
    else if AuthorizeIdentity(input.policy, e.actor).Some? then AuthorizeIdentity(input.policy, e.actor)
    else if !e.actor.human || e.actor.bot then Some(Refusal(UnauthorizedActor, HumanActor))
    else if input.gate in input.policy.independentGates && e.actor.id == input.requesterId then
      Some(Refusal(IndependenceRequired, IndependentActor))
    else if e.observedAt == None || e.expiresAt == None || input.evaluatedAt == None
            || e.observedAt.value > input.evaluatedAt.value || input.evaluatedAt.value >= e.expiresAt.value then
      Some(Refusal(HumanGateStale, CurrentTime))
    else if e.workAccordDigest != input.workAccordDigest then Some(Refusal(HumanGateStale, CurrentAccord))
    else if input.gate == ACTIVATE && (input.activationLeaseDigest == None || e.activationLeaseDigest != input.activationLeaseDigest) then
      Some(Refusal(HumanGateStale, CurrentActivationLease))
    else if input.gate == APPROVE_CURRENT_HEAD && (input.currentHead == None || e.currentHead != input.currentHead) then
      Some(Refusal(CurrentHeadStale, CurrentHead))
    else None
  }

  predicate IsCandidate(input: GateInput, e: GateEvidence) {
    && e.gate == input.gate
    && (input.expectedActor.Some? ==>
          e.actor.id == input.expectedActor.value.id
          && e.actor.authorizationDigest == input.expectedActor.value.authorizationDigest)
  }

  function Candidates(input: GateInput, evidence: seq<GateEvidence>): (r: seq<GateEvidence>)
    ensures forall e :: e in r <==> e in evidence && IsCandidate(input, e)
  {
    if evidence == [] then []
    else (if IsCandidate(input, evidence[0]) then [evidence[0]] else []) + Candidates(input, evidence[1..])
  }

  /** The first candidate is the first piece of evidence that is one. */
  lemma {:induction false} FirstCandidate(input: GateInput, evidence: seq<GateEvidence>)
    requires Candidates(input, evidence) != []
    ensures exists i :: 0 <= i < |evidence| && FirstIs(input, evidence, i) && evidence[i] == Candidates(input, evidence)[0]
  {
    if IsCandidate(input, evidence[0]) {
      assert FirstIs(input, evidence, 0);
    } else {
      var rest := evidence[1..];
      FirstCandidate(input, rest);
      var i :| 0 <= i < |rest| && FirstIs(input, rest, i) && rest[i] == Candidates(input, rest)[0];
      forall j | 0 <= j < i + 1 ensures !IsCandidate(input, evidence[j]) { if j > 0 { assert rest[j - 1] == evidence[j]; } }
      assert FirstIs(input, evidence, i + 1);
    }
  }

  predicate FirstIs(input: GateInput, evidence: seq<GateEvidence>, i: nat)
    requires i < |evidence|
  {
    IsCandidate(input, evidence[i]) && forall j :: 0 <= j < i ==> !IsCandidate(input, evidence[j])
  }

  /** Some piece of the evidence opens the gate. */
  ghost predicate GateOpen(input: GateInput) {
    exists e :: e in input.gateEvidence && IsCandidate(input, e) && ValidateHumanGateEvidence(input, e) == None
  }

  /** Tries the candidates in turn; if none passes, reports why the first one failed. */
  method AuthorizeHumanGate(input: GateInput) returns (refusal: Option<Refusal>)
    ensures refusal == None <==> GateOpen(input)
    ensures refusal.Some? ==> refusal == GateRefusal(input)
  {
    var candidates := Candidates(input, input.gateEvidence);
    if |candidates| == 0 { return Some(Refusal(HumanGateMissing, ValidEvidence)); }
    var refusals: seq<Refusal> := [];
    for i := 0 to |candidates|
      invariant |refusals| == i
      invariant forall j :: 0 <= j < i ==> ValidateHumanGateEvidence(input, candidates[j]) == Some(refusals[j])
    {
      var candidateRefusal := ValidateHumanGateEvidence(input, candidates[i]);
      if candidateRefusal == None {
        assert candidates[i] in candidates;
        return None;
      }
      refusals := refusals + [candidateRefusal.value];
    }
    return Some(refusals[0]);
  }

  /** What is said when a gate stays shut: what the first piece of evidence for it lacks. */
  function GateRefusal(input: GateInput): Option<Refusal> {
    var candidates := Candidates(input, input.gateEvidence);
    if candidates == [] then Some(Refusal(HumanGateMissing, ValidEvidence))
    else ValidateHumanGateEvidence(input, candidates[0])
  }

  method AuthorizeActor(actor: Actor, route: Route, input: GateInput) returns (refusal: Option<Refusal>)
    ensures refusal == None <==>
      && actor.actorClass in route.actorClasses && AuthorizeIdentity(input.policy, actor) == None
      && (route.humanGate.Some? ==> GateOpen(input.(gate := route.humanGate.value, expectedActor := Some(actor))))
    ensures actor.actorClass !in route.actorClasses ==> refusal == Some(Refusal(UnauthorizedActor, RouteClass))
    ensures actor.actorClass in route.actorClasses && AuthorizeIdentity(input.policy, actor).Some? ==>
      refusal == AuthorizeIdentity(input.policy, actor)
    ensures refusal.Some? && actor.actorClass in route.actorClasses && AuthorizeIdentity(input.policy, actor) == None ==>
      route.humanGate.Some? && refusal == GateRefusal(input.(gate := route.humanGate.value, expectedActor := Some(actor)))
  {
    if actor.actorClass !in route.actorClasses { return Some(Refusal(UnauthorizedActor, RouteClass)); }
    var identityRefusal := AuthorizeIdentity(input.policy, actor);
    if identityRefusal.Some? || route.humanGate == None { return identityRefusal; }
    refusal := AuthorizeHumanGate(input.(gate := route.humanGate.value, expectedActor := Some(actor)));
  }

  // ----- Main results -----

  /** The order of the evidence decides nothing but which refusal is reported. */
  lemma GateForgetsOrder(input: GateInput, other: GateInput)
    requires other == input.(gateEvidence := other.gateEvidence)
    requires multiset(other.gateEvidence) == multiset(input.gateEvidence)
    ensures GateOpen(other) <==> GateOpen(input)
  {
    SameElements(input.gateEvidence, other.gateEvidence);
    MoreEvidenceHelps(input, other);
    MoreEvidenceHelps(other, input);
  }

  /** Adding evidence, however bad, never closes an open gate. */
  lemma MoreEvidenceHelps(input: GateInput, other: GateInput)
    requires other == input.(gateEvidence := other.gateEvidence)
    requires forall e :: e in input.gateEvidence ==> e in other.gateEvidence
    ensures GateOpen(input) ==> GateOpen(other)
  {
    if GateOpen(input) {
      var e :| e in input.gateEvidence && IsCandidate(input, e) && ValidateHumanGateEvidence(input, e) == None;
      assert IsCandidate(other, e) && ValidateHumanGateEvidence(other, e) == ValidateHumanGateEvidence(input, e);
    }
  }

  /** The first rule for the actor's class fits the actor: human or not as it says, no bot where a
      human is asked for, every required role held. */
  ghost predicate IdentityAuthorized(policy: Policy, actor: Actor) {
    exists i :: 0 <= i < |policy.actorRules| && FirstFor(policy.actorRules, actor.actorClass, i)
      && RuleFits(policy.actorRules[i], actor)
  }

  predicate FirstFor(rules: seq<ActorRule>, actorClass: string, i: nat)
    requires i < |rules|
  {
    rules[i].actorClass == actorClass && forall j :: 0 <= j < i ==> rules[j].actorClass != actorClass
  }

  predicate RuleFits(rule: ActorRule, actor: Actor) {
    && rule.human == actor.human && !(actor.human && actor.bot)
    && forall role :: role in rule.requiredRoles ==> role in actor.roles
  }

  lemma {:induction false} FindRuleFinds(rules: seq<ActorRule>, actorClass: string)
    ensures FindRule(rules, actorClass) == None <==> forall i :: 0 <= i < |rules| ==> rules[i].actorClass != actorClass
    ensures FindRule(rules, actorClass).Some? ==>
      exists i :: 0 <= i < |rules| && FirstFor(rules, actorClass, i) && rules[i] == FindRule(rules, actorClass).value
  {
    if rules != [] {
      var rest := rules[1..];
      if rules[0].actorClass == actorClass {
        assert FirstFor(rules, actorClass, 0);
      } else {
        FindRuleFinds(rest, actorClass);
        if FindRule(rest, actorClass).Some? {
          var i :| 0 <= i < |rest| && FirstFor(rest, actorClass, i) && rest[i] == FindRule(rest, actorClass).value;
          forall j | 0 <= j < i + 1 ensures rules[j].actorClass != actorClass { if j > 0 { assert rest[j - 1] == rules[j]; } }
          assert FirstFor(rules, actorClass, i + 1);
        } else {
          forall j | 0 <= j < |rules| ensures rules[j].actorClass != actorClass { if j > 0 { assert rest[j - 1] == rules[j]; } }
        }
      }
    }
  }

  lemma IdentityExactly(policy: Policy, actor: Actor)
    ensures AuthorizeIdentity(policy, actor) == None <==> IdentityAuthorized(policy, actor)
  {
    FindRuleFinds(policy.actorRules, actor.actorClass);
    if IdentityAuthorized(policy, actor) {
      var i :| 0 <= i < |policy.actorRules| && FirstFor(policy.actorRules, actor.actorClass, i)
        && RuleFits(policy.actorRules[i], actor);
      var j :| 0 <= j < |policy.actorRules| && FirstFor(policy.actorRules, actor.actorClass, j)
        && policy.actorRules[j] == FindRule(policy.actorRules, actor.actorClass).value;
      assert !(i < j) && !(j < i);
    }
  }

  /** Which refusal an unauthorised identity gets: no rule for its class, the wrong kind, or a role
      missing. */
  lemma IdentityRefusals(policy: Policy, actor: Actor)
    ensures AuthorizeIdentity(policy, actor) == Some(Refusal(UnauthorizedActor, KnownClass)) <==>
      forall rule :: rule in policy.actorRules ==> rule.actorClass != actor.actorClass
    ensures AuthorizeIdentity(policy, actor) == Some(Refusal(UnauthorizedActor, IdentityKind)) <==>
      exists i :: 0 <= i < |policy.actorRules| && FirstFor(policy.actorRules, actor.actorClass, i)
        && (policy.actorRules[i].human != actor.human || (actor.human && actor.bot))
    ensures AuthorizeIdentity(policy, actor) == Some(Refusal(UnauthorizedActor, CurrentRole)) <==>
      exists i :: 0 <= i < |policy.actorRules| && FirstFor(policy.actorRules, actor.actorClass, i)
        && policy.actorRules[i].human == actor.human && !(actor.human && actor.bot)
        && exists role :: role in policy.actorRules[i].requiredRoles && role !in actor.roles
  {
    var rules := policy.actorRules;
    FindRuleFinds(rules, actor.actorClass);
    if FindRule(rules, actor.actorClass).Some? {
      var first :| 0 <= first < |rules| && FirstFor(rules, actor.actorClass, first)
        && rules[first] == FindRule(rules, actor.actorClass).value;
      assert rules[first] in rules;
      forall i | 0 <= i < |rules| && FirstFor(rules, actor.actorClass, i) ensures i == first {
        assert !(i < first) && !(first < i);
      }
    } else {
      assert forall i :: 0 <= i < |rules| ==> !FirstFor(rules, actor.actorClass, i);
    }
  }

  /** Grounds for turning a piece of evidence down, in the order they are looked at. */
  function Grounds(input: GateInput, e: GateEvidence): seq<(bool, Refusal)> {
    var identity := AuthorizeIdentity(input.policy, e.actor);
    [
      (!e.valid, Refusal(HumanGateMissing, ValidEvidence)),
      (identity.Some?, if identity.Some? then identity.value else Refusal(UnauthorizedActor, KnownClass)),
      (!e.actor.human || e.actor.bot, Refusal(UnauthorizedActor, HumanActor)),
      (input.gate in input.policy.independentGates && e.actor.id == input.requesterId,
       Refusal(IndependenceRequired, IndependentActor)),
      (!CurrentAt(e, input.evaluatedAt), Refusal(HumanGateStale, CurrentTime)),
      (e.workAccordDigest != input.workAccordDigest, Refusal(HumanGateStale, CurrentAccord)),
      (input.gate == "activate" && (input.activationLeaseDigest == None || e.activationLeaseDigest != input.activationLeaseDigest),
       Refusal(HumanGateStale, CurrentActivationLease)),
      (input.gate == "approve-current-head" && (input.currentHead == None || e.currentHead != input.currentHead),
       Refusal(CurrentHeadStale, CurrentHead))
    ]
  }

  /** Evidence is turned down on the first ground that holds, and accepted when none does. */
  lemma EvidenceRefusals(input: GateInput, e: GateEvidence)
    ensures var grounds, refusal := Grounds(input, e), ValidateHumanGateEvidence(input, e);
      && (refusal == None <==> forall i :: 0 <= i < |grounds| ==> !grounds[i].0)
      && forall i :: 0 <= i < |grounds| && grounds[i].0 && (forall j :: 0 <= j < i ==> !grounds[j].0) ==>
           refusal == Some(grounds[i].1)
  {
    hide AuthorizeIdentity;
    var grounds, refusal := Grounds(input, e), ValidateHumanGateEvidence(input, e);
    assert refusal == None <==>
      !grounds[0].0 && !grounds[1].0 && !grounds[2].0 && !grounds[3].0 && !grounds[4].0 && !grounds[5].0
      && !grounds[6].0 && !grounds[7].0;
    forall i | 0 <= i < |grounds| && grounds[i].0 && (forall j :: 0 <= j < i ==> !grounds[j].0)
      ensures refusal == Some(grounds[i].1)
    {
      assert i > 0 ==> !grounds[0].0;
      assert i > 1 ==> !grounds[1].0;
      assert i > 2 ==> !grounds[2].0;
      assert i > 3 ==> !grounds[3].0;
      assert i > 4 ==> !grounds[4].0;
      assert i > 5 ==> !grounds[5].0;
      assert i > 6 ==> !grounds[6].0;
    }
  }

  /** A statement of an authorised human, from the expected actor if there is one and not from the
      requester of an independent gate, current at the moment of evaluation, and bound to the accord
      and to what the gate is about. */
  ghost predicate Opens(input: GateInput, e: GateEvidence) {
    && e.valid && IsCandidate(input, e)
    && e.actor.human && IdentityAuthorized(input.policy, e.actor)
    && !(input.gate in input.policy.independentGates && e.actor.id == input.requesterId)
    && CurrentAt(e, input.evaluatedAt)
    && e.workAccordDigest == input.workAccordDigest
    && (input.gate == ACTIVATE ==> input.activationLeaseDigest.Some? && e.activationLeaseDigest == input.activationLeaseDigest)
    && (input.gate == APPROVE_CURRENT_HEAD ==> input.currentHead.Some? && e.currentHead == input.currentHead)
  }

  predicate CurrentAt(e: GateEvidence, at: Option<int>) {
    at.Some? && e.observedAt.Some? && e.expiresAt.Some? && e.observedAt.value <= at.value < e.expiresAt.value
  }

  /** A gate is open exactly when some piece of evidence is such a statement. */
  lemma GateOpensExactly(input: GateInput)
    ensures GateOpen(input) <==> exists e :: e in input.gateEvidence && Opens(input, e)
  {
    hide AuthorizeIdentity;
    hide IdentityAuthorized;
    forall e | e in input.gateEvidence
      ensures IsCandidate(input, e) && ValidateHumanGateEvidence(input, e) == None <==> Opens(input, e)
    {
      IdentityExactly(input.policy, e.actor);
      if IdentityAuthorized(input.policy, e.actor) { HumansAreNoBots(input.policy, e.actor); }
    }
  }

  lemma HumansAreNoBots(policy: Policy, actor: Actor)
    requires IdentityAuthorized(policy, actor)
    ensures !(actor.human && actor.bot)
  {
  }

  /** Once every statement has expired the gate is shut, and no later moment opens it again. */
  lemma ExpiredGateStaysShut(input: GateInput, later: int)
    requires input.evaluatedAt.Some? && input.evaluatedAt.value <= later
    requires forall e :: e in input.gateEvidence ==> e.expiresAt.Some? && e.expiresAt.value <= input.evaluatedAt.value
    ensures !GateOpen(input.(evaluatedAt := Some(later)))
  {
    GateOpensExactly(input.(evaluatedAt := Some(later)));
  }

  /** For an independent gate the requester can never supply the opening evidence: with the requester
      as expected actor the gate stays shut. */
  lemma RequesterNeverOpensIndependentGate(input: GateInput)
    requires input.gate in input.policy.independentGates
    requires input.expectedActor.Some? && input.expectedActor.value.id == input.requesterId
    ensures !GateOpen(input)
  {
    GateOpensExactly(input);
  }
}

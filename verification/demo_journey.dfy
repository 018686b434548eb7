/** The receipt, artifact and fence chain of a simulated demo journey (scripts/simulate-demos.ts).
    The kernel's snapshots and results are parameters; times are milliseconds. */
module DemoJourney {
  import opened Wrappers

  type Digest = string

  datatype ExecutionKind = ModelStage | DeterministicStage | HumanStage

  datatype Stage = Stage(stageId: string, ordinal: int, executionKind: ExecutionKind, coreState: string)

  datatype RuntimeBinding = RuntimeBinding(agent: string, capability: string, workflow: string)

  datatype Core = Core(stateVersion: int, receiptHead: Option<Digest>, snapshotDigest: Digest)

  datatype KernelResult = KernelResult(receiptDigest: Digest, resultDigest: Digest)

  /** The kernel path: a core binding per state reached, an applied result per transition, and the
      state and core of its final snapshot. */
  datatype Kernel = Kernel(
    cores: map<string, Core>, results: map<(string, string), KernelResult>, finalState: string, finalCore: Core)

  datatype Invocation = Invocation(
    stageId: string, startedAt: int, completedAt: int, outputDigest: Digest, calls: int, tokens: int, costUnits: int)

  datatype Artifact = Artifact(
    stageId: string, producer: Option<RuntimeBinding>, inputDigest: Digest, contentDigest: Digest, createdAt: int)

  datatype FenceStatus = Acquired | Released

  datatype Fence = Fence(
    stageId: string, runStateDigest: Digest, previousFenceDigest: Option<Digest>, status: FenceStatus, acquiredAt: int,
    expiresAt: int, releasedAt: Option<int>)

  datatype Receipt = Receipt(
    stageId: string, stageOrdinal: int, nextStageId: string, nextStageOrdinal: int,
    previousStageReceiptDigest: Option<Digest>, artifactEnvelopeDigest: Digest, runStateDigest: Digest,
    runFenceDigest: Option<Digest>, releasedRunFenceDigest: Option<Digest>, coreBefore: Core, coreAfter: Core,
    kernelTransitionReceiptDigest: Option<Digest>, appliedKernelResultDigest: Option<Digest>, completedAt: int)

  /** NOW, and the digests of the documents and of the texts named after a stage. */
  datatype Env = Env(
    now: int,
    output: string -> Digest,
    input: string -> Digest,
    artifactText: string -> Digest,
    runState: string -> Digest,
    artifact: Artifact -> Digest,
    fence: Fence -> Digest,
    receipt: Receipt -> Digest)

  datatype Usage = Usage(calls: int, tokens: int, costUnits: int)

  datatype RunState = RunState(
    core: Core, currentStageId: string, currentStageOrdinal: int, previousStageReceiptDigest: Option<Digest>,
    completedStageReceiptDigests: seq<Digest>)

  datatype Journey = Journey(
    receipts: seq<Receipt>, artifacts: seq<Artifact>, fences: seq<Fence>, runState: RunState, usage: Usage)

  datatype JourneyError =
    | NotAtHumanReview | NoHumanStage | EvidenceIncomplete | BindingMissing | CoreStateMissing | KernelResultMissing

  // ----- The fake model -----

  function InvocationOf(env: Env, stage: Stage): Invocation {
    var startedAt := env.now + stage.ordinal * 10;
    Invocation(stage.stageId, startedAt, startedAt + 1, env.output(stage.stageId), 1, 100, 1)
  }

  class HermeticFakeModel {
    var invocations: seq<Invocation>

    constructor ()
      ensures invocations == []
    {
      invocations := [];
    }

    method Invoke(env: Env, stage: Stage, bindingPresent: bool) returns (r: Result<Invocation, JourneyError>)
      modifies this
      ensures r.Ok? <==> bindingPresent
      ensures r.Ok? ==> r.value == InvocationOf(env, stage) && invocations == old(invocations) + [r.value]
      ensures r.Err? ==> invocations == old(invocations)
    {
      if !bindingPresent { return Err(BindingMissing); }
      var startedAt := env.now + stage.ordinal * 10;
      var completedAt := startedAt + 1;
      var invocation := Invocation(stage.stageId, startedAt, completedAt, env.output(stage.stageId), 1, 100, 1);
      invocations := invocations + [invocation];
      return Ok(invocation);
    }
  }

  // ----- What each stage contributes -----

  predicate IsModel(stage: Stage) { stage.executionKind == ModelStage }

  function CompletedAt(env: Env, stage: Stage): int { env.now + stage.ordinal * 10 + 1 }

  function ArtifactOf(env: Env, stage: Stage, bindings: seq<RuntimeBinding>): Artifact {
    Artifact(stage.stageId,
             if IsModel(stage) && bindings != [] then Some(bindings[0]) else None,
             if IsModel(stage) then env.output(stage.stageId) else env.input(stage.stageId),
             if IsModel(stage) then env.output(stage.stageId) else env.artifactText(stage.stageId),
             CompletedAt(env, stage))
  }

  function AcquiredOf(env: Env, stage: Stage, previousFence: Option<Digest>): Fence {
    var startedAt := env.now + stage.ordinal * 10;
    Fence(stage.stageId, env.runState(stage.stageId), previousFence, Acquired, startedAt - 1, startedAt + 1 + 60000, None)
  }

  function ReleasedOf(env: Env, acquired: Fence, completedAt: int): Fence {
    acquired.(previousFenceDigest := Some(env.fence(acquired)), status := Released, releasedAt := Some(completedAt))
  }

  /** Both fences of a model stage, none of any other. */
  function FencesOf(env: Env, stage: Stage, previousFence: Option<Digest>): seq<Fence> {
    if IsModel(stage) then
      var acquired := AcquiredOf(env, stage, previousFence);
      [acquired, ReleasedOf(env, acquired, CompletedAt(env, stage))]
    else []
  }

  predicate StageSupported(stage: Stage, next: Stage, bindings: seq<RuntimeBinding>, kernel: Kernel) {
    && (IsModel(stage) ==> bindings != [])
    && stage.coreState in kernel.cores && next.coreState in kernel.cores
    && (stage.coreState != next.coreState ==> (stage.coreState, next.coreState) in kernel.results)
  }

  function ReceiptOf(env: Env, stage: Stage, next: Stage, bindings: seq<RuntimeBinding>, kernel: Kernel,
    previousReceipt: Option<Digest>, fences: seq<Fence>): Receipt
    requires StageSupported(stage, next, bindings, kernel)
  {
    var crosses := stage.coreState != next.coreState;
    Receipt(stage.stageId, stage.ordinal, next.stageId, next.ordinal, previousReceipt,
            env.artifact(ArtifactOf(env, stage, bindings)), env.runState(stage.stageId),
            if |fences| == 2 then Some(env.fence(fences[0])) else None,
            if |fences| == 2 then Some(env.fence(fences[1])) else None,
            kernel.cores[stage.coreState], kernel.cores[next.coreState],
            if crosses then Some(kernel.results[(stage.coreState, next.coreState)].receiptDigest) else None,
            if crosses then Some(kernel.results[(stage.coreState, next.coreState)].resultDigest) else None,
            CompletedAt(env, stage))
  }

  // ----- The loop -----

  /** The fences of the first n stages, in order. */
  function FencesUpTo(env: Env, stages: seq<Stage>, n: nat): seq<Fence>
    requires n <= |stages|
  {
    if n == 0 then []
    else
      var before := FencesUpTo(env, stages, n - 1);
      before + FencesOf(env, stages[n - 1], LastFence(env, before))
  }

  function LastFence(env: Env, fences: seq<Fence>): Option<Digest> {
    if fences == [] then None else Some(env.fence(fences[|fences| - 1]))
  }

  function LastReceipt(env: Env, receipts: seq<Receipt>): Option<Digest> {
    if receipts == [] then None else Some(env.receipt(receipts[|receipts| - 1]))
  }

  predicate SupportedAt(stages: seq<Stage>, bindings: seq<seq<RuntimeBinding>>, kernel: Kernel, i: nat) {
    i + 1 < |stages| && i < |bindings| && StageSupported(stages[i], stages[i + 1], bindings[i], kernel)
  }

  /** The first n stages have all they need. */
  predicate AllSupported(stages: seq<Stage>, bindings: seq<seq<RuntimeBinding>>, kernel: Kernel, n: nat) {
    n < |stages| && n <= |bindings| && forall i :: 0 <= i < n ==> SupportedAt(stages, bindings, kernel, i)
  }

  lemma OneMoreSupported(stages: seq<Stage>, bindings: seq<seq<RuntimeBinding>>, kernel: Kernel, i: nat, n: nat)
    requires i < n < |stages| && AllSupported(stages, bindings, kernel, i)
    ensures i < |bindings| && StageSupported(stages[i], stages[i + 1], bindings[i], kernel) ==>
      AllSupported(stages, bindings, kernel, i + 1)
    ensures !(i < |bindings| && StageSupported(stages[i], stages[i + 1], bindings[i], kernel)) ==>
      !AllSupported(stages, bindings, kernel, n)
  {
    assert SupportedAt(stages, bindings, kernel, i) <==>
      i < |bindings| && StageSupported(stages[i], stages[i + 1], bindings[i], kernel);
  }

  lemma NothingSupported(env: Env, stages: seq<Stage>, bindings: seq<seq<RuntimeBinding>>, kernel: Kernel)
    ensures stages != [] ==> AllSupported(stages, bindings, kernel, 0) && ReceiptsUpTo(env, stages, bindings, kernel, 0) == []
    ensures ModelStages(stages[..0]) == [] && ArtifactsUpTo(env, stages, bindings, 0) == [] && FencesUpTo(env, stages, 0) == []
  {
  }

  function ReceiptsUpTo(env: Env, stages: seq<Stage>, bindings: seq<seq<RuntimeBinding>>, kernel: Kernel, n: nat): (r: seq<Receipt>)
    requires AllSupported(stages, bindings, kernel, n)
    ensures |r| == n
  {
    if n == 0 then []
    else
      assert SupportedAt(stages, bindings, kernel, n - 1);
      var before := ReceiptsUpTo(env, stages, bindings, kernel, n - 1);
      var fences := FencesOf(env, stages[n - 1], LastFence(env, FencesUpTo(env, stages, n - 1)));
      before + [ReceiptOf(env, stages[n - 1], stages[n], bindings[n - 1], kernel, LastReceipt(env, before), fences)]
  }

  function ArtifactsUpTo(env: Env, stages: seq<Stage>, bindings: seq<seq<RuntimeBinding>>, n: nat): (r: seq<Artifact>)
    requires n <= |stages| && n <= |bindings|
    ensures |r| == n && forall i :: 0 <= i < n ==> r[i] == ArtifactOf(env, stages[i], bindings[i])
  {
    seq(n, i requires 0 <= i < n => ArtifactOf(env, stages[i], bindings[i]))
  }

  function ModelStages(stages: seq<Stage>): (r: seq<Stage>)
    ensures |r| <= |stages|
  {
    if stages == [] then []
    else ModelStages(stages[..|stages| - 1]) + if IsModel(stages[|stages| - 1]) then [stages[|stages| - 1]] else []
  }

  function InvocationsOf(env: Env, stages: seq<Stage>): (r: seq<Invocation>)
    ensures |r| == |stages| && forall i :: 0 <= i < |stages| ==> r[i] == InvocationOf(env, stages[i])
  {
    seq(|stages|, i requires 0 <= i < |stages| => InvocationOf(env, stages[i]))
  }

  /** The first human stage, or the length. */
  function HumanIndex(stages: seq<Stage>): (n: nat)
    ensures n <= |stages|
    ensures n < |stages| ==> stages[n].executionKind == HumanStage
    ensures forall i :: 0 <= i < n ==> stages[i].executionKind != HumanStage
  {
    if stages == [] || stages[0].executionKind == HumanStage then 0 else 1 + HumanIndex(stages[1..])
  }

  predicate JourneyRuns(stages: seq<Stage>, bindings: seq<seq<RuntimeBinding>>, kernel: Kernel) {
    && kernel.finalState == "HUMAN_REVIEW"
    && 1 <= HumanIndex(stages) < |stages| && AllSupported(stages, bindings, kernel, HumanIndex(stages))
  }

  function ReceiptDigests(env: Env, receipts: seq<Receipt>): (digests: seq<Digest>)
    ensures |digests| == |receipts| && forall i :: 0 <= i < |receipts| ==> digests[i] == env.receipt(receipts[i])
  {
    seq(|receipts|, i requires 0 <= i < |receipts| => env.receipt(receipts[i]))
  }

  /** What the budget records when a model used before `prior` serves so many stages more. */
  function UsageAfter(prior: seq<Invocation>, stages: nat): Usage {
    Usage(|prior| + stages, SumTokens(prior) + 100 * stages, SumCost(prior) + stages)
  }

  /** One iteration: artifact, receipt and fences of stage `index`. */
  method RunStage(env: Env, model: HermeticFakeModel, stage: Stage, next: Stage, bindings: seq<RuntimeBinding>, kernel: Kernel,
    previousReceipt: Option<Digest>, previousFence: Option<Digest>)
    returns (r: Result<(Artifact, Receipt, seq<Fence>), JourneyError>)
    modifies model
    ensures r.Ok? <==> StageSupported(stage, next, bindings, kernel)
    ensures r.Ok? ==> r.value == (
      ArtifactOf(env, stage, bindings),
      ReceiptOf(env, stage, next, bindings, kernel, previousReceipt, FencesOf(env, stage, previousFence)),
      FencesOf(env, stage, previousFence))
    ensures r.Ok? ==>
      model.invocations == old(model.invocations) + if IsModel(stage) then [InvocationOf(env, stage)] else []
  {
    var modelInvocation: Option<Invocation> := None;
    if IsModel(stage) {
      var invoked := model.Invoke(env, stage, bindings != []);
      if invoked.Err? { return Err(invoked.error); }
      modelInvocation := Some(invoked.value);
    }
    var completedAt := if modelInvocation.Some? then modelInvocation.value.completedAt else env.now + stage.ordinal * 10 + 1;
    var artifact := Artifact(
      stage.stageId,
      if IsModel(stage) && bindings != [] then Some(bindings[0]) else None,
      if modelInvocation.Some? then modelInvocation.value.outputDigest else env.input(stage.stageId),
      if modelInvocation.Some? then modelInvocation.value.outputDigest else env.artifactText(stage.stageId),
      completedAt);
    var runStateDigest := env.runState(stage.stageId);
    var fences: seq<Fence> := [];
    if modelInvocation.Some? {
      var acquired := Fence(stage.stageId, runStateDigest, previousFence, Acquired, modelInvocation.value.startedAt - 1,
                            modelInvocation.value.completedAt + 60000, None);
      var released := acquired.(previousFenceDigest := Some(env.fence(acquired)), status := Released,
                                releasedAt := Some(modelInvocation.value.completedAt));
      fences := [acquired, released];
    }
    if stage.coreState !in kernel.cores { return Err(CoreStateMissing); }
    var before := kernel.cores[stage.coreState];
    if stage.coreState != next.coreState && next.coreState !in kernel.cores { return Err(CoreStateMissing); }
    var after := if stage.coreState == next.coreState then before else kernel.cores[next.coreState];
    var crossesCore := stage.coreState != next.coreState;
    if crossesCore && (stage.coreState, next.coreState) !in kernel.results { return Err(KernelResultMissing); }
    var receipt := Receipt(
      stage.stageId, stage.ordinal, next.stageId, next.ordinal, previousReceipt, env.artifact(artifact), runStateDigest,
      if fences != [] then Some(env.fence(fences[0])) else None,
      if |fences| > 1 then Some(env.fence(fences[1])) else None,
      before, after,
      if crossesCore then Some(kernel.results[(stage.coreState, next.coreState)].receiptDigest) else None,
      if crossesCore then Some(kernel.results[(stage.coreState, next.coreState)].resultDigest) else None,
      completedAt);
    return Ok((artifact, receipt, fences));
  }

  function SumTokens(invocations: seq<Invocation>): int {
    if invocations == [] then 0 else SumTokens(invocations[..|invocations| - 1]) + invocations[|invocations| - 1].tokens
  }

  function SumCost(invocations: seq<Invocation>): int {
    if invocations == [] then 0 else SumCost(invocations[..|invocations| - 1]) + invocations[|invocations| - 1].costUnits
  }

  /** The two reductions over the model's invocations. */
  method UsageOf(invocations: seq<Invocation>) returns (usage: Usage)
    ensures usage == Usage(|invocations|, SumTokens(invocations), SumCost(invocations))
  {
    var tokens, costUnits := 0, 0;
    for i := 0 to |invocations|
      invariant tokens == SumTokens(invocations[..i]) && costUnits == SumCost(invocations[..i])
    {
      assert invocations[..i + 1][..i] == invocations[..i];
      tokens := tokens + invocations[i].tokens;
      costUnits := costUnits + invocations[i].costUnits;
    }
    assert invocations[..|invocations|] == invocations;
    return Usage(|invocations|, tokens, costUnits);
  }

  // ----- What artifact and receipt of a stage show -----

  /** A model stage hands on what the model put out and names its producer; any other stage has the
      texts named after it. */
  predicate ArtifactShows(env: Env, stage: Stage, bindings: seq<RuntimeBinding>, artifact: Artifact) {
    && artifact.stageId == stage.stageId && artifact.createdAt == env.now + 10 * stage.ordinal + 1
    && (stage.executionKind == ModelStage ==>
          bindings != [] && artifact.producer == Some(bindings[0])
          && artifact.inputDigest == artifact.contentDigest == env.output(stage.stageId))
    && (stage.executionKind != ModelStage ==>
          artifact.producer == None && artifact.inputDigest == env.input(stage.stageId)
          && artifact.contentDigest == env.artifactText(stage.stageId))
  }

  /** The cores the stage leads from and to, and the applied result in between if they differ. */
  predicate ReceiptShows(env: Env, stage: Stage, next: Stage, kernel: Kernel, artifact: Artifact, receipt: Receipt) {
    && receipt.stageId == stage.stageId && receipt.stageOrdinal == stage.ordinal
    && receipt.nextStageId == next.stageId && receipt.nextStageOrdinal == next.ordinal
    && receipt.artifactEnvelopeDigest == env.artifact(artifact) && receipt.runStateDigest == env.runState(stage.stageId)
    && receipt.completedAt == artifact.createdAt
    && stage.coreState in kernel.cores && receipt.coreBefore == kernel.cores[stage.coreState]
    && next.coreState in kernel.cores && receipt.coreAfter == kernel.cores[next.coreState]
    && if stage.coreState == next.coreState
       then receipt.kernelTransitionReceiptDigest == None && receipt.appliedKernelResultDigest == None
       else
         && (stage.coreState, next.coreState) in kernel.results
         && var result := kernel.results[(stage.coreState, next.coreState)];
           receipt.kernelTransitionReceiptDigest == Some(result.receiptDigest)
           && receipt.appliedKernelResultDigest == Some(result.resultDigest)
  }

  /** Artifact and receipt of every stage before the human one. */
  ghost predicate StagesShown(env: Env, stages: seq<Stage>, bindings: seq<seq<RuntimeBinding>>, kernel: Kernel, n: nat,
    artifacts: seq<Artifact>, receipts: seq<Receipt>)
    requires n < |stages| && n <= |bindings|
  {
    && |artifacts| == n == |receipts|
    && forall i :: 0 <= i < n ==>
      ArtifactShows(env, stages[i], bindings[i], artifacts[i])
      && ReceiptShows(env, stages[i], stages[i + 1], kernel, artifacts[i], receipts[i])
  }

  lemma StageShows(env: Env, stage: Stage, next: Stage, bindings: seq<RuntimeBinding>, kernel: Kernel,
    previousReceipt: Option<Digest>, fences: seq<Fence>)
    requires StageSupported(stage, next, bindings, kernel)
    ensures ArtifactShows(env, stage, bindings, ArtifactOf(env, stage, bindings))
    ensures ReceiptShows(env, stage, next, kernel, ArtifactOf(env, stage, bindings),
      ReceiptOf(env, stage, next, bindings, kernel, previousReceipt, fences))
  {
  }

  lemma JourneyShows(env: Env, stages: seq<Stage>, bindings: seq<seq<RuntimeBinding>>, kernel: Kernel, n: nat)
    requires AllSupported(stages, bindings, kernel, n)
    ensures StagesShown(env, stages, bindings, kernel, n, ArtifactsUpTo(env, stages, bindings, n),
      ReceiptsUpTo(env, stages, bindings, kernel, n))
  {
    hide ArtifactOf;
    hide ReceiptOf;
    hide ArtifactShows;
    hide ReceiptShows;
    hide ReceiptsUpTo;
    hide StageSupported;
    var artifacts, receipts := ArtifactsUpTo(env, stages, bindings, n), ReceiptsUpTo(env, stages, bindings, kernel, n);
    forall i | 0 <= i < n
      ensures ArtifactShows(env, stages[i], bindings[i], artifacts[i])
      ensures ReceiptShows(env, stages[i], stages[i + 1], kernel, artifacts[i], receipts[i])
    {
      ReceiptAt(env, stages, bindings, kernel, n, i);
      StageShows(env, stages[i], stages[i + 1], bindings[i], kernel,
        LastReceipt(env, ReceiptsUpTo(env, stages, bindings, kernel, i)),
        FencesOf(env, stages[i], LastFence(env, FencesUpTo(env, stages, i))));
    }
  }

  method FullJourneyReconstruction(env: Env, stages: seq<Stage>, bindings: seq<seq<RuntimeBinding>>, kernel: Kernel,
    model: HermeticFakeModel) returns (r: Result<Journey, JourneyError>)
    modifies model
    ensures r.Ok? <==> JourneyRuns(stages, bindings, kernel)
    ensures r.Ok? ==>
      var n := HumanIndex(stages);
      && r.value.receipts == ReceiptsUpTo(env, stages, bindings, kernel, n)
      && r.value.artifacts == ArtifactsUpTo(env, stages, bindings, n)
      && n < |stages| && n <= |bindings|
      && StagesShown(env, stages, bindings, kernel, n, r.value.artifacts, r.value.receipts)
      && r.value.fences == FencesUpTo(env, stages, n)
      && r.value.runState == RunState(kernel.finalCore, stages[n].stageId, stages[n].ordinal,
                                      LastReceipt(env, r.value.receipts), ReceiptDigests(env, r.value.receipts))
      && model.invocations == old(model.invocations) + InvocationsOf(env, ModelStages(stages[..n]))
      && r.value.usage == UsageAfter(old(model.invocations), |ModelStages(stages[..n])|)
  {
    hide StageSupported;
    hide AllSupported;
    hide ReceiptOf;
    hide ArtifactOf;
    hide InvocationOf;
    hide ModelStages;
    hide ReceiptsUpTo;
    hide FencesUpTo;
    hide ArtifactsUpTo;
    hide StagesShown;
    if kernel.finalState != "HUMAN_REVIEW" { return Err(NotAtHumanReview); }
    NothingSupported(env, stages, bindings, kernel);
    var humanIndex := HumanIndex(stages);
    if humanIndex == |stages| || humanIndex < 1 { return Err(NoHumanStage); }
    var receipts: seq<Receipt> := [];
    var artifacts: seq<Artifact> := [];
    var fences: seq<Fence> := [];
    var previousReceipt: Option<Digest> := None;
    var previousFence: Option<Digest> := None;
    assert model.invocations + [] == model.invocations;
    for index := 0 to humanIndex
      invariant AllSupported(stages, bindings, kernel, index) && index <= |bindings|
      invariant receipts == ReceiptsUpTo(env, stages, bindings, kernel, index)
      invariant artifacts == ArtifactsUpTo(env, stages, bindings, index)
      invariant fences == FencesUpTo(env, stages, index)
      invariant previousReceipt == LastReceipt(env, receipts) && previousFence == LastFence(env, fences)
      invariant model.invocations == old(model.invocations) + InvocationsOf(env, ModelStages(stages[..index]))
    {
      OneMoreSupported(stages, bindings, kernel, index, humanIndex);
      if index >= |bindings| { return Err(EvidenceIncomplete); }
      ghost var invoked := model.invocations;
      var done := RunStage(env, model, stages[index], stages[index + 1], bindings[index], kernel, previousReceipt, previousFence);
      if done.Err? { return Err(done.error); }
      InvocationsGrow(env, stages, index);
      StepGrows(env, stages, bindings, kernel, index);
      LastAfter(env, receipts, done.value.1, fences, done.value.2);
      artifacts := artifacts + [done.value.0];
      receipts := receipts + [done.value.1];
      fences := fences + done.value.2;
      if done.value.2 != [] { previousFence := Some(env.fence(done.value.2[1])); }
      previousReceipt := Some(env.receipt(done.value.1));
    }
    var currentStage := stages[humanIndex];
    var runState := RunState(kernel.finalCore, currentStage.stageId, currentStage.ordinal, previousReceipt,
                             ReceiptDigests(env, receipts));
    var usage := UsageOf(model.invocations);
    UsageAdds(env, old(model.invocations), ModelStages(stages[..humanIndex]));
    JourneyShows(env, stages, bindings, kernel, humanIndex);
    return Ok(Journey(receipts, artifacts, fences, runState, usage));
  }

  lemma StepGrows(env: Env, stages: seq<Stage>, bindings: seq<seq<RuntimeBinding>>, kernel: Kernel, i: nat)
    requires AllSupported(stages, bindings, kernel, i) && AllSupported(stages, bindings, kernel, i + 1)
    ensures StageSupported(stages[i], stages[i + 1], bindings[i], kernel)
    ensures var receipts, fences := ReceiptsUpTo(env, stages, bindings, kernel, i), FencesUpTo(env, stages, i);
      var added := FencesOf(env, stages[i], LastFence(env, fences));
      && FencesUpTo(env, stages, i + 1) == fences + added
      && ReceiptsUpTo(env, stages, bindings, kernel, i + 1) ==
         receipts + [ReceiptOf(env, stages[i], stages[i + 1], bindings[i], kernel, LastReceipt(env, receipts), added)]
    ensures ArtifactsUpTo(env, stages, bindings, i + 1) ==
      ArtifactsUpTo(env, stages, bindings, i) + [ArtifactOf(env, stages[i], bindings[i])]
  {
    assert SupportedAt(stages, bindings, kernel, i);
    hide ReceiptOf;
    hide ArtifactOf;
    hide FencesOf;
    hide StageSupported;
    hide ReceiptsUpTo;
    hide ArtifactsUpTo;
    hide LastReceipt;
    ReceiptsStep(env, stages, bindings, kernel, i + 1);
    ArtifactsStep(env, stages, bindings, i);
  }

  lemma ReceiptsStep(env: Env, stages: seq<Stage>, bindings: seq<seq<RuntimeBinding>>, kernel: Kernel, n: nat)
    requires n > 0 && AllSupported(stages, bindings, kernel, n)
    ensures AllSupported(stages, bindings, kernel, n - 1)
    ensures StageSupported(stages[n - 1], stages[n], bindings[n - 1], kernel)
    ensures var receipts := ReceiptsUpTo(env, stages, bindings, kernel, n - 1);
      ReceiptsUpTo(env, stages, bindings, kernel, n) ==
        receipts + [ReceiptOf(env, stages[n - 1], stages[n], bindings[n - 1], kernel, LastReceipt(env, receipts),
                              FencesOf(env, stages[n - 1], LastFence(env, FencesUpTo(env, stages, n - 1))))]
  {
    assert SupportedAt(stages, bindings, kernel, n - 1);
    hide ReceiptOf;
    hide FencesOf;
    hide FencesUpTo;
    hide StageSupported;
  }

  lemma ArtifactsStep(env: Env, stages: seq<Stage>, bindings: seq<seq<RuntimeBinding>>, i: nat)
    requires i < |stages| && i < |bindings|
    ensures ArtifactsUpTo(env, stages, bindings, i + 1) ==
      ArtifactsUpTo(env, stages, bindings, i) + [ArtifactOf(env, stages[i], bindings[i])]
  {
    hide ArtifactOf;
  }

  lemma LastAfter(env: Env, receipts: seq<Receipt>, receipt: Receipt, fences: seq<Fence>, added: seq<Fence>)
    requires |added| == 2 || added == []
    ensures LastReceipt(env, receipts + [receipt]) == Some(env.receipt(receipt))
    ensures LastFence(env, fences + added) == if added == [] then LastFence(env, fences) else Some(env.fence(added[1]))
  {
    if added == [] { assert fences + added == fences; }
  }

  lemma InvocationsGrow(env: Env, stages: seq<Stage>, i: nat)
    requires i < |stages|
    ensures InvocationsOf(env, ModelStages(stages[..i + 1])) ==
      InvocationsOf(env, ModelStages(stages[..i])) + if IsModel(stages[i]) then [InvocationOf(env, stages[i])] else []
  {
    assert stages[..i + 1][..i] == stages[..i];
  }

  // ----- Receipts -----

  /** Each receipt names the digest of the one before it, and the core it leaves is the core the
      next one finds. */
  ghost predicate ReceiptsLinked(env: Env, receipts: seq<Receipt>) {
    forall i :: 0 <= i < |receipts| ==> LinkedAt(env, receipts, i)
  }

  predicate LinkedAt(env: Env, receipts: seq<Receipt>, i: nat)
    requires i < |receipts|
  {
    if i == 0 then receipts[i].previousStageReceiptDigest == None
    else
      var before := receipts[i - 1];
      && receipts[i].previousStageReceiptDigest == Some(env.receipt(before))
      && before.coreAfter == receipts[i].coreBefore
      && before.nextStageId == receipts[i].stageId && before.nextStageOrdinal == receipts[i].stageOrdinal
  }

  lemma FewerSupported(stages: seq<Stage>, bindings: seq<seq<RuntimeBinding>>, kernel: Kernel, n: nat, i: nat)
    requires AllSupported(stages, bindings, kernel, n) && i <= n
    ensures AllSupported(stages, bindings, kernel, i)
  {
  }

  lemma {:induction false} ReceiptsPrefix(env: Env, stages: seq<Stage>, bindings: seq<seq<RuntimeBinding>>, kernel: Kernel, n: nat, i: nat)
    requires AllSupported(stages, bindings, kernel, n) && i <= n
    ensures AllSupported(stages, bindings, kernel, i)
    ensures ReceiptsUpTo(env, stages, bindings, kernel, n)[..i] == ReceiptsUpTo(env, stages, bindings, kernel, i)
    decreases n
  {
    hide ReceiptOf;
    hide ReceiptsUpTo;
    hide AllSupported;
    FewerSupported(stages, bindings, kernel, n, i);
    if i < n {
      FewerSupported(stages, bindings, kernel, n, n - 1);
      StepGrows(env, stages, bindings, kernel, n - 1);
      ReceiptsPrefix(env, stages, bindings, kernel, n - 1, i);
      PrefixOfJoin(ReceiptsUpTo(env, stages, bindings, kernel, n - 1), ReceiptsUpTo(env, stages, bindings, kernel, n)[n - 1..], i);
      assert ReceiptsUpTo(env, stages, bindings, kernel, n) ==
        ReceiptsUpTo(env, stages, bindings, kernel, n - 1) + ReceiptsUpTo(env, stages, bindings, kernel, n)[n - 1..];
    }
  }

  lemma PrefixOfJoin<T>(xs: seq<T>, ys: seq<T>, i: nat)
    requires i <= |xs|
    ensures (xs + ys)[..i] == xs[..i]
  {
  }

  lemma ReceiptAt(env: Env, stages: seq<Stage>, bindings: seq<seq<RuntimeBinding>>, kernel: Kernel, n: nat, i: nat)
    requires AllSupported(stages, bindings, kernel, n) && i < n
    ensures AllSupported(stages, bindings, kernel, i) && StageSupported(stages[i], stages[i + 1], bindings[i], kernel)
    ensures ReceiptsUpTo(env, stages, bindings, kernel, n)[..i] == ReceiptsUpTo(env, stages, bindings, kernel, i)
    ensures ReceiptsUpTo(env, stages, bindings, kernel, n)[i] ==
      ReceiptOf(env, stages[i], stages[i + 1], bindings[i], kernel, LastReceipt(env, ReceiptsUpTo(env, stages, bindings, kernel, i)),
        FencesOf(env, stages[i], LastFence(env, FencesUpTo(env, stages, i))))
  {
    hide ReceiptOf;
    hide ReceiptsUpTo;
    hide StageSupported;
    hide FencesOf;
    hide AllSupported;
    ReceiptsPrefix(env, stages, bindings, kernel, n, i);
    ReceiptsPrefix(env, stages, bindings, kernel, n, i + 1);
    StepGrows(env, stages, bindings, kernel, i);
    assert ReceiptsUpTo(env, stages, bindings, kernel, n)[..i + 1][i] == ReceiptsUpTo(env, stages, bindings, kernel, n)[i];
  }

  /** The receipts of every journey that runs form one chain over the kernel's states. */
  lemma JourneyReceiptsLinked(env: Env, stages: seq<Stage>, bindings: seq<seq<RuntimeBinding>>, kernel: Kernel, n: nat)
    requires AllSupported(stages, bindings, kernel, n)
    ensures ReceiptsLinked(env, ReceiptsUpTo(env, stages, bindings, kernel, n))
  {
    hide FencesOf;
    var receipts := ReceiptsUpTo(env, stages, bindings, kernel, n);
    forall i | 0 <= i < n ensures LinkedAt(env, receipts, i) {
      ReceiptAt(env, stages, bindings, kernel, n, i);
      if i > 0 {
        ReceiptAt(env, stages, bindings, kernel, n, i - 1);
        var before := ReceiptsUpTo(env, stages, bindings, kernel, i);
        assert before[i - 1] == receipts[..i][i - 1];
      }
    }
  }

  /** The run state lists the chain: each completed digest is the one the next receipt names, and
      the run state itself names the last. */
  lemma RunStateClosesChain(env: Env, stages: seq<Stage>, bindings: seq<seq<RuntimeBinding>>, kernel: Kernel, n: nat)
    requires AllSupported(stages, bindings, kernel, n) && n > 0
    ensures var receipts := ReceiptsUpTo(env, stages, bindings, kernel, n);
      var completed := ReceiptDigests(env, receipts);
      && receipts[0].previousStageReceiptDigest == None
      && (forall i :: 0 < i < n ==> receipts[i].previousStageReceiptDigest == Some(completed[i - 1]))
      && LastReceipt(env, receipts) == Some(completed[n - 1])
  {
    JourneyReceiptsLinked(env, stages, bindings, kernel, n);
    var receipts := ReceiptsUpTo(env, stages, bindings, kernel, n);
    assert LinkedAt(env, receipts, 0);
    forall i | 0 < i < n ensures receipts[i].previousStageReceiptDigest == Some(env.receipt(receipts[i - 1])) {
      assert LinkedAt(env, receipts, i);
    }
  }

  // ----- Fences -----

  predicate OrdinalsIncrease(stages: seq<Stage>) {
    forall i, j :: 0 <= i < j < |stages| ==> stages[i].ordinal < stages[j].ordinal
  }

  /** Fence pair m: acquired then released by the same holder, around the invocation of its stage. */
  ghost predicate PairAround(env: Env, fences: seq<Fence>, invocations: seq<Invocation>, m: nat)
    requires 2 * m + 1 < |fences| && m < |invocations|
  {
    var acquired, released, invocation := fences[2 * m], fences[2 * m + 1], invocations[m];
    && acquired.status == Acquired && released.status == Released && acquired.releasedAt == None
    && released == ReleasedOf(env, acquired, invocation.completedAt)
    && acquired.stageId == invocation.stageId && acquired.runStateDigest == env.runState(invocation.stageId)
    && acquired.acquiredAt == invocation.startedAt - 1
    && acquired.expiresAt == released.expiresAt == invocation.completedAt + 60000
    && acquired.acquiredAt < invocation.startedAt < invocation.completedAt
    && released.releasedAt == Some(invocation.completedAt) && invocation.completedAt < released.expiresAt
  }

  predicate FenceFollows(env: Env, fences: seq<Fence>, k: nat)
    requires k < |fences|
  {
    fences[k].previousFenceDigest == LastFence(env, fences[..k])
  }

  ghost predicate FencesChained(env: Env, fences: seq<Fence>) {
    forall k :: 0 <= k < |fences| ==> FenceFollows(env, fences, k)
  }

  /** The fences built so far: two for each model stage, chained, each pair around its invocation. */
  ghost predicate FencesGood(env: Env, fences: seq<Fence>, invocations: seq<Invocation>) {
    && |fences| == 2 * |invocations| && FencesChained(env, fences)
    && forall m :: 0 <= m < |invocations| ==> PairAround(env, fences, invocations, m)
  }

  lemma FencesGrow(env: Env, fences: seq<Fence>, invocations: seq<Invocation>, stage: Stage)
    requires FencesGood(env, fences, invocations) && IsModel(stage)
    ensures FencesGood(env, fences + FencesOf(env, stage, LastFence(env, fences)), invocations + [InvocationOf(env, stage)])
  {
    var pair := FencesOf(env, stage, LastFence(env, fences));
    var fences', invocations' := fences + pair, invocations + [InvocationOf(env, stage)];
    forall m | 0 <= m < |invocations'| ensures PairAround(env, fences', invocations', m) {
      if m < |invocations| { assert PairAround(env, fences, invocations, m); }
    }
    ChainGrows(env, fences, pair[0]);
    ChainGrows(env, fences + [pair[0]], pair[1]);
    assert fences + [pair[0]] + [pair[1]] == fences';
  }

  lemma ChainGrows(env: Env, fences: seq<Fence>, fence: Fence)
    requires FencesChained(env, fences) && fence.previousFenceDigest == LastFence(env, fences)
    ensures FencesChained(env, fences + [fence])
  {
    forall k | 0 <= k < |fences| + 1 ensures FenceFollows(env, fences + [fence], k) {
      assert (fences + [fence])[..k] == fences[..k];
      if k < |fences| { assert FenceFollows(env, fences, k); } else { assert fences[..k] == fences; }
    }
  }

  lemma FencesStep(env: Env, stages: seq<Stage>, n: nat)
    requires 0 < n <= |stages|
    ensures FencesUpTo(env, stages, n) ==
      FencesUpTo(env, stages, n - 1) + FencesOf(env, stages[n - 1], LastFence(env, FencesUpTo(env, stages, n - 1)))
    ensures ModelStages(stages[..n]) == ModelStages(stages[..n - 1]) + if IsModel(stages[n - 1]) then [stages[n - 1]] else []
  {
    assert stages[..n][..n - 1] == stages[..n - 1];
  }

  lemma {:induction false} JourneyFencesGood(env: Env, stages: seq<Stage>, n: nat)
    requires n <= |stages|
    ensures FencesGood(env, FencesUpTo(env, stages, n), InvocationsOf(env, ModelStages(stages[..n])))
  {
    hide FencesGood;
    hide FencesOf;
    hide FencesUpTo;
    hide ModelStages;
    hide InvocationOf;
    NoStages(env, stages);
    if n > 0 {
      JourneyFencesGood(env, stages, n - 1);
      InvocationsGrow(env, stages, n - 1);
      FencesStep(env, stages, n);
      var before, invocations := FencesUpTo(env, stages, n - 1), InvocationsOf(env, ModelStages(stages[..n - 1]));
      if IsModel(stages[n - 1]) {
        FencesGrow(env, before, invocations, stages[n - 1]);
      } else {
        NoFencesFor(env, stages[n - 1], LastFence(env, before));
        assert before + [] == before && invocations + [] == invocations;
      }
    }
  }

  lemma NoStages(env: Env, stages: seq<Stage>)
    ensures FencesGood(env, FencesUpTo(env, stages, 0), InvocationsOf(env, ModelStages(stages[..0])))
  {
    NoFences(env);
    assert InvocationsOf(env, ModelStages(stages[..0])) == [];
  }

  lemma NoFences(env: Env)
    ensures FencesGood(env, [], [])
  {
  }

  lemma NoFencesFor(env: Env, stage: Stage, previous: Option<Digest>)
    requires !IsModel(stage)
    ensures FencesOf(env, stage, previous) == []
  {
  }

  lemma {:induction false} ModelStagesIncrease(stages: seq<Stage>)
    requires OrdinalsIncrease(stages)
    ensures OrdinalsIncrease(ModelStages(stages))
    ensures forall s :: s in ModelStages(stages) ==> s in stages
    decreases |stages|
  {
    if stages != [] {
      var n := |stages| - 1;
      ModelStagesIncrease(stages[..n]);
      var front := ModelStages(stages[..n]);
      forall i | 0 <= i < |front| ensures front[i].ordinal < stages[n].ordinal {
        assert front[i] in stages[..n];
        var j :| 0 <= j < n && stages[..n][j] == front[i];
      }
    }
  }

  /** With increasing ordinals the fence windows are disjoint: each is released before the next is
      acquired. */
  lemma WindowsDisjoint(env: Env, stages: seq<Stage>, n: nat, l: nat, m: nat)
    requires n <= |stages| && OrdinalsIncrease(stages)
    requires l < m < |InvocationsOf(env, ModelStages(stages[..n]))|
    ensures var fences := FencesUpTo(env, stages, n);
      && 2 * m + 1 < |fences| && fences[2 * l + 1].releasedAt.Some?
      && fences[2 * l].acquiredAt < fences[2 * l + 1].releasedAt.value < fences[2 * m].acquiredAt
  {
    JourneyFencesGood(env, stages, n);
    ModelStagesIncrease(stages[..n]);
    AcquiredTimes(env, stages, n, m);
    var models, fences := ModelStages(stages[..n]), FencesUpTo(env, stages, n);
    var invocations := InvocationsOf(env, models);
    assert PairAround(env, fences, invocations, l) && PairAround(env, fences, invocations, m);
    assert models[l].ordinal < models[m].ordinal;
  }

  lemma {:induction false} AcquiredTimes(env: Env, stages: seq<Stage>, n: nat, m: nat)
    requires n <= |stages| && m < |ModelStages(stages[..n])|
    ensures 2 * m < |FencesUpTo(env, stages, n)|
    ensures FencesUpTo(env, stages, n)[2 * m].acquiredAt == env.now + ModelStages(stages[..n])[m].ordinal * 10 - 1
  {
    hide FencesUpTo;
    hide ModelStages;
    FenceCount(env, stages, n);
    if n == 0 {
      NoStages(env, stages);
    } else {
      FenceCount(env, stages, n - 1);
      FencesStep(env, stages, n);
      var models := ModelStages(stages[..n - 1]);
      if m < |models| {
        AcquiredTimes(env, stages, n - 1, m);
      } else {
        NewFenceTime(env, FencesUpTo(env, stages, n - 1), stages[n - 1]);
      }
    }
  }

  lemma FenceCount(env: Env, stages: seq<Stage>, n: nat)
    requires n <= |stages|
    ensures |FencesUpTo(env, stages, n)| == 2 * |ModelStages(stages[..n])|
  {
    JourneyFencesGood(env, stages, n);
  }

  lemma NewFenceTime(env: Env, fences: seq<Fence>, stage: Stage)
    requires IsModel(stage)
    ensures var after := fences + FencesOf(env, stage, LastFence(env, fences));
      |after| > |fences| && after[|fences|].acquiredAt == env.now + stage.ordinal * 10 - 1
  {
  }

  /** The receipt of a model stage carries the digests of its own two fences. */
  lemma ReceiptBindsFences(env: Env, stages: seq<Stage>, bindings: seq<seq<RuntimeBinding>>, kernel: Kernel, n: nat, i: nat)
    requires AllSupported(stages, bindings, kernel, n) && i < n
    ensures var receipt, before := ReceiptsUpTo(env, stages, bindings, kernel, n)[i], FencesUpTo(env, stages, i);
      && FencesUpTo(env, stages, i + 1) == before + FencesOf(env, stages[i], LastFence(env, before))
      && receipt.runFenceDigest == (if IsModel(stages[i]) then Some(env.fence(FencesUpTo(env, stages, i + 1)[|before|])) else None)
      && receipt.releasedRunFenceDigest == (if IsModel(stages[i]) then Some(env.fence(FencesUpTo(env, stages, i + 1)[|before| + 1])) else None)
      && receipt.artifactEnvelopeDigest == env.artifact(ArtifactsUpTo(env, stages, bindings, n)[i])
  {
    ReceiptAt(env, stages, bindings, kernel, n, i);
  }

  // ----- Budget -----

  /** One call, 100 tokens and one cost unit for each model stage. */
  lemma {:induction false} UsageAdds(env: Env, prior: seq<Invocation>, stages: seq<Stage>)
    ensures var all := prior + InvocationsOf(env, stages);
      Usage(|all|, SumTokens(all), SumCost(all)) == UsageAfter(prior, |stages|)
    decreases |stages|
  {
    var all := prior + InvocationsOf(env, stages);
    if stages == [] {
      assert all == prior;
    } else {
      var n := |stages| - 1;
      UsageAdds(env, prior, stages[..n]);
      assert all[..|all| - 1] == prior + InvocationsOf(env, stages[..n]);
    }
  }
}

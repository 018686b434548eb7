/** Bounded execution in a sandbox worktree (src/bounded-worktree.ts): target authorisation, the
    write loop and its post-checks. Files are a map from path to bytes. */
module BoundedWorktree {
  import opened Bits
  import opened GitListing
  import opened Glob
  import opened Ordering
  import opened RepositoryPath
  import opened Wrappers

  type Digest = string
  type Tree = map<string, seq<Byte>>

  datatype ErrorCode = GrantInvalid | TargetDenied | PatchInvalid | VerificationFailed

  datatype Operation = Create | Modify

  datatype Target = Target(slot: string, path: string, operation: Operation, expectedDigest: Option<Digest>, maxBytes: int)

  datatype Accord = Accord(
    repositoryId: int, workItemNodeId: string, maxPatchBytes: int, maxLoops: int, maxCostUnits: int,
    allowedPaths: seq<string>, requestedCapabilities: seq<string>, verificationCommands: seq<string>)

  datatype Grant = Grant(
    repositoryId: int, workItemNodeId: string, workAccordDigest: Digest, baseSha: string, targets: seq<Target>,
    verificationCommandIds: seq<string>, maxFiles: int, maxPatchBytes: int, maxTurns: int, maxCostUnits: int,
    expiresAt: int)

  datatype Change = Change(slot: string, content: string)

  datatype Patch = Patch(summary: string, changes: seq<Change>)

  datatype FileRecord = FileRecord(
    slot: string, path: string, operation: Operation, beforeDigest: Option<Digest>, afterDigest: Digest, bytes: nat)

  datatype ValidatedPatch = ValidatedPatch(
    diff: seq<Byte>, treeDigest: Digest, tree: Tree, files: seq<FileRecord>)

  datatype VerificationCommand = VerificationCommand(
    id: string, executable: string, args: seq<string>, timeoutMs: int, maxOutputBytes: int)

  /** Everything the source takes from libraries, Git and the runner. `protectedScopes` is
      ENGINEERING_TCB_PATHS, `commands` the fixed verification registry, and `isolated` says
      whether the runner may start more than Git. `untrackable` is what `git add` refuses to
      start tracking, ignored and reserved names; the base decides, since ignore files are
      protected and no change writes one. `review` stands for the summary, numstat and whitespace
      checks on the staged difference; the verification runner is assumed not to touch the index. */
  datatype Env = Env(
    lower: string -> string,
    protectedScopes: seq<string>,
    commands: map<string, VerificationCommand>,
    isolated: bool,
    accordDigest: Accord -> Digest,
    contentDigest: seq<Byte> -> Digest,
    entriesDigest: seq<(string, Digest)> -> Digest,
    pathLeq: (string, string) -> bool,
    review: (Tree, Tree) -> bool,
    diff: (Tree, Tree) -> seq<Byte>,
    untrackable: (Tree, string) -> bool,
    verify: (Tree, VerificationCommand) -> bool)

  // ----- Targets -----

  const DEMO_TCB: map<string, set<string>> := map[
    "demo.app-modernization.implementation@1.0.0" := {
      "src/modernized/application.ts",
      "tests/modernized/application.test.ts"
    },
    "demo.security-dependency-remediation.patch-implementation@1.0.0" := {
      "vendor/mist-lru/package.json",
      "vendor/mist-lru/package-lock.json",
      "src/cache-key.ts",
      "tests/cache-key.test.ts"
    }
  ]

  const MAX_SAFE_INTEGER := 0x1f_ffff_ffff_ffff

  predicate PositiveSafe(n: int) { 0 < n <= MAX_SAFE_INTEGER }

  predicate IsSha(s: string) { |s| == 40 && forall i :: 0 <= i < 40 ==> s[i] in "0123456789abcdef" }

  predicate IsSlot(s: string) {
    && 1 <= |s| <= 63 && 'a' <= s[0] <= 'z'
    && forall i :: 0 <= i < |s| ==> 'a' <= s[i] <= 'z' || '0' <= s[i] <= '9' || s[i] == '-'
  }

  predicate IsProtected(env: Env, path: string) {
    exists i :: 0 <= i < |env.protectedScopes| &&
      GlobMatches(env.lower(env.protectedScopes[i]), env.lower(path))
  }

  function DemoCapabilities(capabilities: seq<string>): seq<string> {
    if capabilities == [] then []
    else (if capabilities[0] in DEMO_TCB then [capabilities[0]] else []) + DemoCapabilities(capabilities[1..])
  }

  /** The protected paths a demo may still write: those of its capability, if it has just one. */
  function AuthorizedDemoPaths(accord: Accord): set<string> {
    var demo := DemoCapabilities(accord.requestedCapabilities);
    if |demo| == 1 && demo[0] in DEMO_TCB then DEMO_TCB[demo[0]] else {}
  }

  predicate InScope(accord: Accord, path: string) {
    exists i :: 0 <= i < |accord.allowedPaths| && GlobMatches(accord.allowedPaths[i], path)
  }

  predicate TargetAuthorized(env: Env, accord: Accord, demoPaths: set<string>, target: Target) {
    && IsCanonical(target.path) && IsSlot(target.slot)
    && (IsProtected(env, target.path) ==> target.path in demoPaths)
    && InScope(accord, target.path)
    && PositiveSafe(target.maxBytes)
    && (target.operation == Create <==> target.expectedDigest == None)
  }

  predicate WithinBudget(env: Env, accord: Accord, grant: Grant) {
    && grant.repositoryId == accord.repositoryId && grant.workItemNodeId == accord.workItemNodeId
    && grant.workAccordDigest == env.accordDigest(accord) && IsSha(grant.baseSha)
    && PositiveSafe(grant.maxFiles) && PositiveSafe(grant.maxPatchBytes)
    && PositiveSafe(grant.maxTurns) && PositiveSafe(grant.maxCostUnits)
    && grant.maxPatchBytes <= accord.maxPatchBytes && grant.maxTurns <= accord.maxLoops
    && grant.maxCostUnits <= accord.maxCostUnits
    && 0 < |grant.targets| <= grant.maxFiles
  }

  /** Target j shares no slot or path with an earlier one, not even after lower-casing. */
  ghost predicate NewAmong(env: Env, targets: seq<Target>, j: nat)
    requires j < |targets|
  {
    forall i :: 0 <= i < j ==>
      && targets[i].slot != targets[j].slot && targets[i].path != targets[j].path
      && env.lower(targets[i].path) != env.lower(targets[j].path)
  }

  ghost predicate TargetSetValid(env: Env, accord: Accord, grant: Grant) {
    WithinBudget(env, accord, grant) && TargetsValid(env, accord, AuthorizedDemoPaths(accord), grant.targets)
  }

  ghost predicate TargetsValid(env: Env, accord: Accord, demoPaths: set<string>, targets: seq<Target>) {
    forall i :: 0 <= i < |targets| ==> TargetAuthorized(env, accord, demoPaths, targets[i]) && NewAmong(env, targets, i)
  }

  function SlotMap(targets: seq<Target>): map<string, Target> {
    if targets == [] then map[]
    else
      var last := targets[|targets| - 1];
      SlotMap(targets[..|targets| - 1])[last.slot := last]
  }

  lemma {:induction false} SlotMapKeys(targets: seq<Target>)
    ensures forall slot :: slot in SlotMap(targets) <==> exists i :: 0 <= i < |targets| && targets[i].slot == slot
    ensures forall slot :: slot in SlotMap(targets) ==> SlotMap(targets)[slot] in targets && SlotMap(targets)[slot].slot == slot
  {
    if targets != [] {
      var n := |targets| - 1;
      SlotMapKeys(targets[..n]);
      forall slot ensures slot in SlotMap(targets) <==> exists i :: 0 <= i < |targets| && targets[i].slot == slot {
        if slot in SlotMap(targets[..n]) {
          var i :| 0 <= i < n && targets[..n][i].slot == slot;
          assert targets[i].slot == slot;
        }
        if i :| 0 <= i < |targets| && targets[i].slot == slot {
          if i < n { assert targets[..n][i].slot == slot; }
        }
      }
    }
  }

  method ValidateTargetSet(env: Env, accord: Accord, grant: Grant) returns (r: Result<map<string, Target>, ErrorCode>)
    ensures r.Ok? <==> TargetSetValid(env, accord, grant)
    ensures r.Err? ==> r.error == GrantInvalid || (r.error == TargetDenied && WithinBudget(env, accord, grant))
    ensures r.Ok? ==> r.value == SlotMap(grant.targets)
  {
    if !WithinBudget(env, accord, grant) { return Err(GrantInvalid); }
    r := CollectTargets(env, accord, AuthorizedDemoPaths(accord), grant.targets);
  }

  lemma EmptySlotMap()
    ensures SlotMap([]) == map[]
  {
  }

  method CollectTargets(env: Env, accord: Accord, demoPaths: set<string>, targets: seq<Target>)
    returns (r: Result<map<string, Target>, ErrorCode>)
    ensures r.Ok? <==> TargetsValid(env, accord, demoPaths, targets)
    ensures r.Err? ==> r.error in {GrantInvalid, TargetDenied}
    ensures r.Ok? ==> r.value == SlotMap(targets)
  {
    hide TargetAuthorized;
    hide IsCanonical;
    hide IsSlot;
    hide IsProtected;
    hide InScope;
    hide SlotMap;
    EmptySlotMap();
    var bySlot: map<string, Target> := map[];
    var paths: set<string> := {};
    var foldedPaths: set<string> := {};
    for i := 0 to |targets|
      invariant bySlot == SlotMap(targets[..i])
      invariant paths == Paths(targets[..i]) && foldedPaths == FoldedPaths(env, targets[..i])
      invariant forall j :: 0 <= j < i ==> TargetAuthorized(env, accord, demoPaths, targets[j]) && NewAmong(env, targets, j)
    {
      var target := targets[i];
      SeenExactly(env, targets, i);
      OneMore(env, targets, i);
      var repeated := target.slot in bySlot || target.path in paths || env.lower(target.path) in foldedPaths;
      var refusal := CheckTarget(env, accord, demoPaths, target, repeated);
      if refusal.Some? { return Err(refusal.value); }
      bySlot := bySlot[target.slot := target];
      paths := paths + {target.path};
      foldedPaths := foldedPaths + {env.lower(target.path)};
    }
    assert targets[..|targets|] == targets;
    return Ok(bySlot);
  }

  function Paths(targets: seq<Target>): (r: set<string>)
    ensures forall p :: p in r <==> exists j :: 0 <= j < |targets| && targets[j].path == p
  {
    set j | 0 <= j < |targets| :: targets[j].path
  }

  function FoldedPaths(env: Env, targets: seq<Target>): (r: set<string>)
    ensures forall p :: p in r <==> exists j :: 0 <= j < |targets| && env.lower(targets[j].path) == p
  {
    set j | 0 <= j < |targets| :: env.lower(targets[j].path)
  }

  /** The three collections tell whether target i repeats an earlier one. */
  lemma SeenExactly(env: Env, targets: seq<Target>, i: nat)
    requires i < |targets|
    ensures NewAmong(env, targets, i) <==>
      && targets[i].slot !in SlotMap(targets[..i]) && targets[i].path !in Paths(targets[..i])
      && env.lower(targets[i].path) !in FoldedPaths(env, targets[..i])
  {
    SlotMapKeys(targets[..i]);
    assert forall j :: 0 <= j < i ==> targets[..i][j] == targets[j];
  }

  lemma OneMore(env: Env, targets: seq<Target>, i: nat)
    requires i < |targets|
    ensures SlotMap(targets[..i + 1]) == SlotMap(targets[..i])[targets[i].slot := targets[i]]
    ensures Paths(targets[..i + 1]) == Paths(targets[..i]) + {targets[i].path}
    ensures FoldedPaths(env, targets[..i + 1]) == FoldedPaths(env, targets[..i]) + {env.lower(targets[i].path)}
  {
    var before, after := targets[..i], targets[..i + 1];
    assert after[..i] == before && after == before + [targets[i]];
    forall p ensures p in Paths(after) <==> p in Paths(before) || p == targets[i].path {
      if p in Paths(before) { var j :| 0 <= j < i && before[j].path == p; assert after[j].path == p; }
      if p == targets[i].path { assert after[i].path == p; }
      if p in Paths(after) { var j :| 0 <= j < i + 1 && after[j].path == p; assert j < i ==> before[j].path == p; }
    }
    forall p ensures p in FoldedPaths(env, after) <==> p in FoldedPaths(env, before) || p == env.lower(targets[i].path) {
      if p in FoldedPaths(env, before) { var j :| 0 <= j < i && env.lower(before[j].path) == p; assert after[j] == before[j]; }
      if p == env.lower(targets[i].path) { assert env.lower(after[i].path) == p; }
      if p in FoldedPaths(env, after) { var j :| 0 <= j < i + 1 && env.lower(after[j].path) == p; assert j < i ==> before[j] == after[j]; }
    }
  }

  /** The checks on one target; `repeated` says whether it shares slot or path with an earlier one.
      A target that may not be written is denied, whatever its limits. */
  method CheckTarget(env: Env, accord: Accord, demoPaths: set<string>, target: Target, repeated: bool)
    returns (refusal: Option<ErrorCode>)
    ensures refusal == None <==> TargetAuthorized(env, accord, demoPaths, target) && !repeated
    ensures refusal == Some(TargetDenied) <==>
      || !IsCanonical(target.path) || !IsSlot(target.slot) || repeated || !InScope(accord, target.path)
      || (IsProtected(env, target.path) && target.path !in demoPaths)
    ensures refusal.Some? ==> refusal.value in {TargetDenied, GrantInvalid}
  {
    if !IsCanonical(target.path) { return Some(TargetDenied); }
    if !IsSlot(target.slot) || repeated || (IsProtected(env, target.path) && target.path !in demoPaths)
       || !InScope(accord, target.path)
    {
      return Some(TargetDenied);
    }
    if !PositiveSafe(target.maxBytes) { return Some(GrantInvalid); }
    if (target.operation == Create && target.expectedDigest != None) ||
       (target.operation == Modify && target.expectedDigest == None)
    {
      return Some(GrantInvalid);
    }
    return None;
  }

  ghost predicate GrantValid(env: Env, accord: Accord, grant: Grant, now: int, expectedBaseSha: Option<string>) {
    && now < grant.expiresAt
    && (expectedBaseSha.Some? ==> grant.baseSha == expectedBaseSha.value)
    && TargetSetValid(env, accord, grant)
    && grant.verificationCommandIds != [] && accord.verificationCommands != []
    && Distinct(grant.verificationCommandIds) && Distinct(accord.verificationCommands)
    && (forall c :: c in grant.verificationCommandIds ==> c in env.commands)
    && (forall c :: c in accord.verificationCommands ==> c in grant.verificationCommandIds)
  }

  method ValidateBoundedExecutionGrant(env: Env, accord: Accord, grant: Grant, now: int, expectedBaseSha: Option<string>)
    returns (r: Result<(), ErrorCode>)
    ensures r.Ok? <==> GrantValid(env, accord, grant, now, expectedBaseSha)
    ensures r.Err? ==> r.error in {GrantInvalid, TargetDenied}
    ensures now >= grant.expiresAt ==> r == Err(GrantInvalid)
  {
    if now >= grant.expiresAt || (expectedBaseSha.Some? && grant.baseSha != expectedBaseSha.value) {
      return Err(GrantInvalid);
    }
    var targets := ValidateTargetSet(env, accord, grant);
    if targets.Err? { return Err(targets.error); }
    var allowed, required := grant.verificationCommandIds, accord.verificationCommands;
    SetSizeTellsDistinct(allowed);
    SetSizeTellsDistinct(required);
    if allowed == [] || required == [] || |ToSet(allowed)| != |allowed| || |ToSet(required)| != |required| ||
       (exists c :: c in allowed && c !in env.commands) ||
       (exists c :: c in required && (c !in allowed || c !in env.commands))
    {
      return Err(GrantInvalid);
    }
    return Ok(());
  }

  // ----- Patch shape -----

  ghost predicate PatchValid(patch: Patch, targets: map<string, Target>) {
    && patch.summary != "" && 0 < |patch.changes| <= |targets|
    && (forall i :: 0 <= i < |patch.changes| ==> ChangeShaped(targets, patch.changes[i]))
    && (forall i, j :: 0 <= i < j < |patch.changes| ==> patch.changes[i].slot != patch.changes[j].slot)
  }

  predicate ChangeShaped(targets: map<string, Target>, change: Change) {
    change.slot in targets && NUL !in change.content
  }

  function SlotsOf(changes: seq<Change>): set<string> {
    if changes == [] then {} else SlotsOf(changes[..|changes| - 1]) + {changes[|changes| - 1].slot}
  }

  lemma {:induction false} SlotsOfExactly(changes: seq<Change>, slot: string)
    ensures slot in SlotsOf(changes) <==> exists i :: 0 <= i < |changes| && changes[i].slot == slot
  {
    if changes != [] {
      var front := changes[..|changes| - 1];
      SlotsOfExactly(front, slot);
      forall i | 0 <= i < |front| ensures front[i] == changes[i] {}
    }
  }

  /** Change i as the loop sees it, with the slots before it already taken. */
  ghost predicate ChangeValid(targets: map<string, Target>, changes: seq<Change>, i: nat)
    requires i < |changes|
  {
    ChangeShaped(targets, changes[i]) && changes[i].slot !in SlotsOf(changes[..i])
  }

  ghost predicate ChangesValid(targets: map<string, Target>, changes: seq<Change>) {
    forall i :: 0 <= i < |changes| ==> ChangeValid(targets, changes, i)
  }

  lemma SlotTaken(changes: seq<Change>, i: nat)
    requires i < |changes|
    ensures changes[i].slot in SlotsOf(changes[..i]) <==> exists j :: 0 <= j < i && changes[j].slot == changes[i].slot
  {
    SlotsOfExactly(changes[..i], changes[i].slot);
    forall j | 0 <= j < i ensures changes[..i][j] == changes[j] {}
  }

  lemma ChangesValidExactly(patch: Patch, targets: map<string, Target>)
    requires patch.summary != "" && 0 < |patch.changes| <= |targets|
    ensures ChangesValid(targets, patch.changes) <==> PatchValid(patch, targets)
  {
    var changes := patch.changes;
    if ChangesValid(targets, changes) {
      forall i, j | 0 <= i < j < |changes| ensures changes[i].slot != changes[j].slot {
        assert ChangeValid(targets, changes, j);
        SlotTaken(changes, j);
      }
      forall i | 0 <= i < |changes| ensures ChangeShaped(targets, changes[i]) { assert ChangeValid(targets, changes, i); }
    }
    if PatchValid(patch, targets) {
      forall i | 0 <= i < |changes| ensures ChangeValid(targets, changes, i) { SlotTaken(changes, i); }
    }
  }

  method ValidateTargetFreePatch(patch: Patch, targets: map<string, Target>) returns (r: Result<(), ErrorCode>)
    ensures r.Ok? <==> PatchValid(patch, targets)
    ensures r.Err? ==> r.error == PatchInvalid
  {
    if patch.summary == "" || patch.changes == [] || |patch.changes| > |targets| { return Err(PatchInvalid); }
    ChangesValidExactly(patch, targets);
    var valid := CheckChanges(targets, patch.changes);
    return if valid then Ok(()) else Err(PatchInvalid);
  }

  method CheckChanges(targets: map<string, Target>, changes: seq<Change>) returns (valid: bool)
    ensures valid <==> ChangesValid(targets, changes)
  {
    var slots: set<string> := {};
    for i := 0 to |changes|
      invariant slots == SlotsOf(changes[..i])
      invariant forall j :: 0 <= j < i ==> ChangeValid(targets, changes, j)
    {
      var change := changes[i];
      if change.slot !in targets || change.slot in slots || NUL in change.content {
        assert !ChangeValid(targets, changes, i);
        return false;
      }
      assert changes[..i + 1][..i] == changes[..i];
      slots := slots + {change.slot};
    }
    return true;
  }

  // ----- Writing -----

  predicate DirectoryExists(files: Tree, path: string) { exists p :: p in files && path + "/" <= p }

  /** Walking down to a path: no component above it is a file, none is missing unless parents may
      be created, and the path itself is not a directory. */
  predicate ComponentsAllow(files: Tree, path: string, allowMissing: bool) {
    && !DirectoryExists(files, path)
    && forall i :: 0 <= i < |path| && path[i] == '/' ==>
      path[..i] !in files && (allowMissing || DirectoryExists(files, path[..i]))
  }

  /** Where path.resolve writes: one trailing slash is dropped. */
  function FileName(path: string): string { if EndsInSlash(path) then path[..|path| - 1] else path }

  /** assertNoSymlinkComponents. A trailing slash adds an empty last component, for which the name
      before it would have to be a directory and the whole a regular file; only a name that does
      not exist yet gets past that. */
  predicate WalkPasses(files: Tree, path: string, allowMissing: bool) {
    if EndsInSlash(path) then allowMissing && FileName(path) !in files && ComponentsAllow(files, FileName(path), true)
    else ComponentsAllow(files, path, allowMissing)
  }

  /** `git add` takes the path: it is tracked already or may become so. */
  predicate Trackable(env: Env, base: Tree, tracked: Tree, path: string) {
    path in tracked || !env.untrackable(base, path)
  }

  predicate MeetsPrecondition(env: Env, files: Tree, target: Target) {
    match target.operation
    case Create => target.path !in files
    case Modify => target.path in files && Some(env.contentDigest(files[target.path])) == target.expectedDigest
  }

  /** The iteration gets as far as writing. */
  predicate WriteReached(env: Env, files: Tree, target: Target, content: string) {
    && WalkPasses(files, target.path, target.operation == Create)
    && MeetsPrecondition(env, files, target.(path := FileName(target.path)))
    && |Utf8(content)| <= target.maxBytes
  }

  function RecordOf(env: Env, files: Tree, target: Target, content: string): FileRecord {
    FileRecord(target.slot, target.path, target.operation,
               if target.path in files then Some(env.contentDigest(files[target.path])) else None,
               env.contentDigest(Utf8(content)), |Utf8(content)|)
  }

  /** The sandbox: worktree files and Git index over a fixed head commit. */
  class Worktree {
    const head: Tree
    var files: Tree
    var index: Tree

    /** `git reset --hard` */
    constructor (base: Tree)
      ensures head == base && files == base && index == base
    {
      head, files, index := base, base, base;
    }

    /** One iteration of the write loop. A path with a trailing slash names the file before the
        slash, which the walk after writing then finds where it wants a directory: such an
        iteration, like one whose path Git does not take, fails with the file already written. */
    method ApplyChange(env: Env, target: Target, content: string) returns (r: Result<FileRecord, ErrorCode>)
      modifies this`files, this`index
      ensures r.Ok? <==>
        && !EndsInSlash(target.path)
        && ComponentsAllow(old(files), target.path, target.operation == Create)
        && MeetsPrecondition(env, old(files), target)
        && |Utf8(content)| <= target.maxBytes
        && Trackable(env, head, old(index), target.path)
      ensures r.Ok? ==>
        && files == old(files)[target.path := Utf8(content)]
        && index == old(index)[target.path := Utf8(content)]
        && r.value == RecordOf(env, old(files), target, content)
      ensures r.Err? ==>
        && index == old(index)
        && files == (if WriteReached(env, old(files), target, content)
                     then old(files)[FileName(target.path) := Utf8(content)] else old(files))
    {
      if !WalkPasses(files, target.path, target.operation == Create) { return Err(TargetDenied); }
      var name := FileName(target.path);
      var exists_ := name in files;
      var beforeDigest := if exists_ then Some(env.contentDigest(files[name])) else None;
      if (target.operation == Create && exists_) ||
         (target.operation == Modify && (!exists_ || beforeDigest != target.expectedDigest))
      {
        return Err(TargetDenied);
      }
      var bytes := Utf8(content);
      if |bytes| > target.maxBytes { return Err(PatchInvalid); }
      WalkAfterWriting(files, target.path, target.operation == Create, bytes);
      files := files[name := bytes];
      if !WalkPasses(files, target.path, false) { return Err(TargetDenied); }
      if !Trackable(env, head, index, target.path) { return Err(PatchInvalid); }
      index := index[target.path := bytes];
      return Ok(FileRecord(target.slot, target.path, target.operation, beforeDigest, env.contentDigest(bytes), |bytes|));
    }
  }

  /** The walk after writing fails exactly for a trailing slash. */
  lemma WalkAfterWriting(files: Tree, path: string, allowMissing: bool, bytes: seq<Byte>)
    requires WalkPasses(files, path, allowMissing)
    ensures WalkPasses(files[FileName(path) := bytes], path, false) <==> !EndsInSlash(path)
  {
    var after := files[FileName(path) := bytes];
    if !EndsInSlash(path) {
      forall p | p in after ensures !(path + "/" <= p) {}
      forall i | 0 <= i < |path| && path[i] == '/'
        ensures path[..i] !in after && DirectoryExists(after, path[..i])
      {
        ComponentIsPrefix(path, i);
        assert path in after;
      }
    }
  }

  /** Paths on which two trees differ, as `git status` and `git diff --name-only` list them. */
  function Differing(a: Tree, b: Tree): set<string> {
    set p | p in a.Keys + b.Keys && ((p in a) != (p in b) || (p in a && p in b && a[p] != b[p]))
  }

  // ----- What the run amounts to -----

  /** The patched slots: path to new bytes. */
  function Overlay(env: Env, targets: map<string, Target>, changes: seq<Change>): Tree
    requires forall i :: 0 <= i < |changes| ==> changes[i].slot in targets
  {
    if changes == [] then map[]
    else
      var last := changes[|changes| - 1];
      Overlay(env, targets, changes[..|changes| - 1])[targets[last.slot].path := Utf8(last.content)]
  }

  /** A tree in which no file lies below another file. */
  ghost predicate IsTree(files: Tree) { forall p, q :: p in files && q in files ==> !(p + "/" <= q) }

  /** A change judged against the base tree alone. */
  ghost predicate ChangeAllowed(env: Env, base: Tree, targets: map<string, Target>, change: Change) {
    && change.slot in targets
    && var target := targets[change.slot];
      && !EndsInSlash(target.path) && IsPlain(target.path)
      && MeetsPrecondition(env, base, target)
      && Trackable(env, base, base, target.path)
      && |Utf8(change.content)| <= target.maxBytes
      && (target.path in base ==> base[target.path] != Utf8(change.content))
  }

  /** The command is a usable entry of the registry, the runner may start it, and it passes. */
  predicate CommandPasses(env: Env, tree: Tree, commandId: string) {
    && commandId in env.commands
    && var command := env.commands[commandId];
      && CommandUsable(command, commandId) && (command.executable == "git" || env.isolated)
      && env.verify(tree, command)
  }

  predicate CommandUsable(command: VerificationCommand, commandId: string) {
    && command.id == commandId && command.executable != ""
    && (forall i :: 0 <= i < |command.args| ==> NUL !in command.args[i])
    && PositiveSafe(command.timeoutMs) && PositiveSafe(command.maxOutputBytes)
  }

  ghost predicate DifferenceAccepted(env: Env, grant: Grant, base: Tree, tree: Tree) {
    && env.review(base, tree)
    && 0 < |env.diff(base, tree)| <= grant.maxPatchBytes
    && forall c :: c in grant.verificationCommandIds ==> CommandPasses(env, tree, c)
  }

  /** When a valid grant and patch succeed on a base tree: every change is allowed on the base
      itself, and the base overridden at the patched paths is still a tree. */
  ghost predicate Accepts(env: Env, grant: Grant, base: Tree, targets: map<string, Target>, changes: seq<Change>) {
    && (forall i :: 0 <= i < |changes| ==> ChangeAllowed(env, base, targets, changes[i]))
    && IsTree(base + Overlay(env, targets, changes))
    && 0 < |changes| <= grant.maxFiles
    && DifferenceAccepted(env, grant, base, base + Overlay(env, targets, changes))
  }

  function RecordsOf(env: Env, base: Tree, targets: map<string, Target>, changes: seq<Change>): (r: seq<FileRecord>)
    requires forall i :: 0 <= i < |changes| ==> changes[i].slot in targets
    ensures |r| == |changes|
    ensures forall i :: 0 <= i < |changes| ==> r[i] == RecordOf(env, base, targets[changes[i].slot], changes[i].content)
  {
    seq(|changes|, i requires 0 <= i < |changes| => RecordOf(env, base, targets[changes[i].slot], changes[i].content))
  }

  function EntriesOf(files: seq<FileRecord>): (r: seq<(string, Digest)>)
    ensures |r| == |files| && forall i :: 0 <= i < |files| ==> r[i] == (files[i].path, files[i].afterDigest)
  {
    seq(|files|, i requires 0 <= i < |files| => (files[i].path, files[i].afterDigest))
  }

  function RecordOrder(env: Env): (FileRecord, FileRecord) -> bool {
    (a: FileRecord, b: FileRecord) => env.pathLeq(a.path, b.path)
  }

  function EntryOrder(env: Env): ((string, Digest), (string, Digest)) -> bool {
    (a: (string, Digest), b: (string, Digest)) => env.pathLeq(a.0, b.0)
  }

  lemma OrdersTotal(env: Env)
    requires TotalOrder(env.pathLeq)
    ensures TotalPreorder(RecordOrder(env)) && TotalPreorder(EntryOrder(env))
  {
    var r, e := RecordOrder(env), EntryOrder(env);
    forall a, b ensures r(a, b) || r(b, a) { assert env.pathLeq(a.path, b.path) || env.pathLeq(b.path, a.path); }
    forall a, b, c | r(a, b) && r(b, c) ensures r(a, c) { assert env.pathLeq(a.path, b.path) && env.pathLeq(b.path, c.path); }
    forall a, b ensures e(a, b) || e(b, a) { assert env.pathLeq(a.0, b.0) || env.pathLeq(b.0, a.0); }
    forall a, b, c | e(a, b) && e(b, c) ensures e(a, c) { assert env.pathLeq(a.0, b.0) && env.pathLeq(b.0, c.0); }
  }

  /** The result of an accepted run. */
  function Outcome(env: Env, base: Tree, targets: map<string, Target>, changes: seq<Change>): ValidatedPatch
    requires forall i :: 0 <= i < |changes| ==> changes[i].slot in targets
  {
    var tree := base + Overlay(env, targets, changes);
    var files := RecordsOf(env, base, targets, changes);
    ValidatedPatch(env.diff(base, tree),
      env.entriesDigest(Sort(EntryOrder(env), EntriesOf(files))),
      tree,
      Sort(RecordOrder(env), files))
  }

  // ----- Facts about the overlay -----

  predicate SlotsKnown(targets: map<string, Target>, changes: seq<Change>) {
    forall i :: 0 <= i < |changes| ==> changes[i].slot in targets
  }

  /** Different changes write different paths. */
  ghost predicate PathsDistinct(targets: map<string, Target>, changes: seq<Change>)
    requires SlotsKnown(targets, changes)
  {
    forall i, j :: 0 <= i < j < |changes| ==> targets[changes[i].slot].path != targets[changes[j].slot].path
  }

  /** Some change writes the path. */
  predicate Writes(targets: map<string, Target>, changes: seq<Change>, path: string)
    requires SlotsKnown(targets, changes)
  {
    exists i :: 0 <= i < |changes| && targets[changes[i].slot].path == path
  }

  lemma WritesOneMore(targets: map<string, Target>, changes: seq<Change>, path: string)
    requires SlotsKnown(targets, changes) && changes != []
    ensures var n := |changes| - 1;
      Writes(targets, changes, path) <==> Writes(targets, changes[..n], path) || targets[changes[n].slot].path == path
  {
    var n := |changes| - 1;
    var front := changes[..n];
    if Writes(targets, front, path) {
      var i :| 0 <= i < |front| && targets[front[i].slot].path == path;
      assert front[i] == changes[i];
    }
    if Writes(targets, changes, path) {
      var i :| 0 <= i < |changes| && targets[changes[i].slot].path == path;
      if i < n { assert front[i] == changes[i]; }
    }
  }

  lemma {:induction false} OverlayPath(env: Env, targets: map<string, Target>, changes: seq<Change>, path: string)
    requires SlotsKnown(targets, changes)
    ensures path in Overlay(env, targets, changes) <==> Writes(targets, changes, path)
  {
    if changes != [] {
      hide Writes;
      OverlayPath(env, targets, changes[..|changes| - 1], path);
      WritesOneMore(targets, changes, path);
    }
  }

  lemma OverlayPaths(env: Env, targets: map<string, Target>, changes: seq<Change>)
    requires SlotsKnown(targets, changes)
    ensures forall i :: 0 <= i < |changes| ==> targets[changes[i].slot].path in Overlay(env, targets, changes)
    ensures forall p :: p in Overlay(env, targets, changes) ==>
      exists i :: 0 <= i < |changes| && targets[changes[i].slot].path == p
  {
    hide Overlay;
    forall i | 0 <= i < |changes| ensures targets[changes[i].slot].path in Overlay(env, targets, changes) {
      assert Writes(targets, changes, targets[changes[i].slot].path);
      OverlayPath(env, targets, changes, targets[changes[i].slot].path);
    }
    forall p | p in Overlay(env, targets, changes)
      ensures exists i :: 0 <= i < |changes| && targets[changes[i].slot].path == p
    {
      OverlayPath(env, targets, changes, p);
    }
  }

  lemma {:induction false} OverlayContents(env: Env, targets: map<string, Target>, changes: seq<Change>)
    requires SlotsKnown(targets, changes) && PathsDistinct(targets, changes)
    ensures forall i :: 0 <= i < |changes| ==>
      var path := targets[changes[i].slot].path;
      path in Overlay(env, targets, changes) && Overlay(env, targets, changes)[path] == Utf8(changes[i].content)
  {
    if changes != [] {
      var n := |changes| - 1;
      var front := changes[..n];
      OverlayContents(env, targets, front);
      forall i | 0 <= i < |changes|
        ensures var path := targets[changes[i].slot].path;
          path in Overlay(env, targets, changes) && Overlay(env, targets, changes)[path] == Utf8(changes[i].content)
      {
        if i < n {
          assert front[i] == changes[i];
          assert targets[changes[i].slot].path != targets[changes[n].slot].path;
        }
      }
    }
  }

  /** The path of the next change has not been written yet. */
  lemma NotYetWritten(env: Env, targets: map<string, Target>, changes: seq<Change>, i: nat)
    requires SlotsKnown(targets, changes) && PathsDistinct(targets, changes) && i < |changes|
    ensures targets[changes[i].slot].path !in Overlay(env, targets, changes[..i])
  {
    var front := changes[..i];
    OverlayPaths(env, targets, front);
    forall j | 0 <= j < |front| ensures targets[front[j].slot].path != targets[changes[i].slot].path {
      assert front[j] == changes[j];
    }
  }

  lemma OverlayGrows(env: Env, base: Tree, targets: map<string, Target>, changes: seq<Change>, i: nat)
    requires SlotsKnown(targets, changes) && i < |changes|
    ensures base + Overlay(env, targets, changes[..i + 1]) ==
      (base + Overlay(env, targets, changes[..i]))[targets[changes[i].slot].path := Utf8(changes[i].content)]
  {
    assert changes[..i + 1][..i] == changes[..i];
  }

  lemma PrefixKeys(env: Env, base: Tree, targets: map<string, Target>, changes: seq<Change>, i: nat)
    requires SlotsKnown(targets, changes) && i <= |changes|
    ensures (base + Overlay(env, targets, changes[..i])).Keys <= (base + Overlay(env, targets, changes)).Keys
  {
    OverlayPaths(env, targets, changes[..i]);
    OverlayPaths(env, targets, changes);
    forall p | p in Overlay(env, targets, changes[..i]) ensures p in Overlay(env, targets, changes) {
      var j :| 0 <= j < i && targets[changes[..i][j].slot].path == p;
      assert changes[..i][j] == changes[j];
    }
  }

  // ----- One step -----

  /** A change judged against the base tree alone, leaving out that it has to change something. */
  ghost predicate Writable(env: Env, base: Tree, target: Target, content: string) {
    && !EndsInSlash(target.path) && MeetsPrecondition(env, base, target)
    && |Utf8(content)| <= target.maxBytes && Trackable(env, base, base, target.path)
  }

  lemma ComponentIsPrefix(p: string, i: nat)
    requires i < |p| && p[i] == '/'
    ensures p[..i] + "/" <= p
  {
    assert p == p[..i] + [p[i]] + p[i + 1..];
  }

  lemma PrefixIsComponent(p: string, q: string)
    requires q + "/" <= p
    ensures |q| < |p| && p[|q|] == '/' && p[..|q|] == q
  {
    assert p[|q|] == (q + "/")[|q|];
  }

  /** Writing a new file passes the component walk exactly when the result is still a tree. */
  lemma CreateKeepsTree(files: Tree, path: string, bytes: seq<Byte>)
    requires IsTree(files) && path !in files
    ensures ComponentsAllow(files, path, true) <==> IsTree(files[path := bytes])
  {
    var after := files[path := bytes];
    if ComponentsAllow(files, path, true) {
      forall p, q | p in after && q in after ensures !(p + "/" <= q) {
        if p + "/" <= q && q == path { PrefixIsComponent(q, p); }
      }
    }
    if IsTree(after) {
      forall q | q in files ensures !(path + "/" <= q) { assert path in after && q in after; }
      assert path in after && forall q :: q in files ==> q in after;
      forall i | 0 <= i < |path| && path[i] == '/' ensures path[..i] !in files { ComponentIsPrefix(path, i); }
    }
  }

  /** Writing an existing file always passes it. */
  lemma ModifyKeepsTree(files: Tree, path: string, bytes: seq<Byte>)
    requires IsTree(files) && path in files
    ensures ComponentsAllow(files, path, false) && IsTree(files[path := bytes])
  {
    forall i | 0 <= i < |path| && path[i] == '/'
      ensures path[..i] !in files && DirectoryExists(files, path[..i])
    {
      ComponentIsPrefix(path, i);
    }
    assert files[path := bytes].Keys == files.Keys;
  }

  /** On a tree reached from the base by writing other paths, the checks of one iteration say
      exactly that the change is writable on the base and the result is still a tree. */
  lemma StepExactly(env: Env, base: Tree, files: Tree, target: Target, content: string)
    requires IsTree(files)
    requires target.path in files <==> target.path in base
    requires target.path in base ==> files[target.path] == base[target.path]
    ensures
      (&& !EndsInSlash(target.path) && ComponentsAllow(files, target.path, target.operation == Create)
       && MeetsPrecondition(env, files, target) && |Utf8(content)| <= target.maxBytes
       && Trackable(env, base, files, target.path))
      <==> Writable(env, base, target, content) && IsTree(files[target.path := Utf8(content)])
    ensures RecordOf(env, files, target, content) == RecordOf(env, base, target, content)
  {
    if target.path in files {
      ModifyKeepsTree(files, target.path, Utf8(content));
    } else {
      CreateKeepsTree(files, target.path, Utf8(content));
    }
  }

  // ----- The write loop -----

  ghost predicate AllWritable(env: Env, base: Tree, targets: map<string, Target>, changes: seq<Change>)
    requires SlotsKnown(targets, changes)
  {
    forall i :: 0 <= i < |changes| ==> Writable(env, base, targets[changes[i].slot], changes[i].content)
  }

  /** What the loop knows before iteration i, and why it may stop there. */
  lemma LoopStep(env: Env, base: Tree, targets: map<string, Target>, changes: seq<Change>, i: nat)
    requires SlotsKnown(targets, changes) && PathsDistinct(targets, changes) && i < |changes|
    requires IsTree(base + Overlay(env, targets, changes[..i]))
    ensures var files := base + Overlay(env, targets, changes[..i]);
      var target, content := targets[changes[i].slot], changes[i].content;
      && ((&& !EndsInSlash(target.path) && ComponentsAllow(files, target.path, target.operation == Create)
           && MeetsPrecondition(env, files, target) && |Utf8(content)| <= target.maxBytes
           && Trackable(env, base, files, target.path))
          <==> Writable(env, base, target, content) && IsTree(base + Overlay(env, targets, changes[..i + 1])))
      && RecordOf(env, files, target, content) == RecordOf(env, base, target, content)
      && files[target.path := Utf8(content)] == base + Overlay(env, targets, changes[..i + 1])
    ensures IsTree(base + Overlay(env, targets, changes)) ==> IsTree(base + Overlay(env, targets, changes[..i + 1]))
  {
    NotYetWritten(env, targets, changes, i);
    OverlayGrows(env, base, targets, changes, i);
    StepExactly(env, base, base + Overlay(env, targets, changes[..i]), targets[changes[i].slot], changes[i].content);
    PrefixKeys(env, base, targets, changes, i + 1);
  }

  lemma RecordsGrow(env: Env, base: Tree, targets: map<string, Target>, changes: seq<Change>, i: nat)
    requires SlotsKnown(targets, changes) && i < |changes|
    ensures RecordsOf(env, base, targets, changes[..i + 1]) ==
      RecordsOf(env, base, targets, changes[..i]) + [RecordOf(env, base, targets[changes[i].slot], changes[i].content)]
  {
    assert changes[..i + 1] == changes[..i] + [changes[i]];
  }

  method WriteChanges(env: Env, worktree: Worktree, targets: map<string, Target>, changes: seq<Change>)
    returns (r: Result<seq<FileRecord>, ErrorCode>)
    requires SlotsKnown(targets, changes) && PathsDistinct(targets, changes)
    requires worktree.files == worktree.head && worktree.index == worktree.head && IsTree(worktree.head)
    modifies worktree`files, worktree`index
    ensures r.Ok? <==>
      AllWritable(env, worktree.head, targets, changes) && IsTree(worktree.head + Overlay(env, targets, changes))
    ensures r.Ok? ==>
      && worktree.files == worktree.head + Overlay(env, targets, changes)
      && worktree.index == worktree.head + Overlay(env, targets, changes)
      && r.value == RecordsOf(env, worktree.head, targets, changes)
  {
    var files: seq<FileRecord> := [];
    ghost var base := worktree.head;
    assert base + map[] == base;
    for i := 0 to |changes|
      invariant worktree.files == base + Overlay(env, targets, changes[..i])
      invariant worktree.index == base + Overlay(env, targets, changes[..i])
      invariant IsTree(base + Overlay(env, targets, changes[..i]))
      invariant forall j :: 0 <= j < i ==> Writable(env, base, targets[changes[j].slot], changes[j].content)
      invariant files == RecordsOf(env, base, targets, changes[..i])
    {
      LoopStep(env, base, targets, changes, i);
      RecordsGrow(env, base, targets, changes, i);
      var record := worktree.ApplyChange(env, targets[changes[i].slot], changes[i].content);
      if record.Err? { return Err(record.error); }
      files := files + [record.value];
    }
    assert changes[..|changes|] == changes;
    return Ok(files);
  }

  // ----- Post-checks -----

  lemma DifferingPaths(base: Tree, overlay: Tree)
    ensures Differing(base + overlay, base) == set p | p in overlay && (p !in base || base[p] != overlay[p])
  {
  }

  /** Git reports as many changed paths as there are changes, and each of them, exactly when
      every change changes something. */
  lemma ChangedExactly(env: Env, base: Tree, targets: map<string, Target>, changes: seq<Change>)
    requires SlotsKnown(targets, changes) && PathsDistinct(targets, changes)
    ensures var changed := Differing(base + Overlay(env, targets, changes), base);
      && changed <= WrittenPaths(targets, changes)
      && |WrittenPaths(targets, changes)| == |changes|
      && ((forall i :: 0 <= i < |changes| ==> targets[changes[i].slot].path in changed)
          <==> forall i :: 0 <= i < |changes| ==> Effective(env, base, targets[changes[i].slot], changes[i].content))
      && ((forall i :: 0 <= i < |changes| ==> targets[changes[i].slot].path in changed)
          ==> changed == WrittenPaths(targets, changes))
  {
    OverlayPaths(env, targets, changes);
    OverlayContents(env, targets, changes);
    DifferingPaths(base, Overlay(env, targets, changes));
    WrittenCount(targets, changes);
  }

  predicate Effective(env: Env, base: Tree, target: Target, content: string) {
    target.path in base ==> base[target.path] != Utf8(content)
  }

  function WrittenPaths(targets: map<string, Target>, changes: seq<Change>): set<string>
    requires SlotsKnown(targets, changes)
  {
    set i | 0 <= i < |changes| :: targets[changes[i].slot].path
  }

  lemma {:induction false} WrittenCount(targets: map<string, Target>, changes: seq<Change>)
    requires SlotsKnown(targets, changes) && PathsDistinct(targets, changes)
    ensures |WrittenPaths(targets, changes)| == |changes|
  {
    var paths := seq(|changes|, i requires 0 <= i < |changes| => targets[changes[i].slot].path);
    assert Distinct(paths);
    SetSizeTellsDistinct(paths);
    assert ToSet(paths) == WrittenPaths(targets, changes) by {
      forall p ensures p in ToSet(paths) <==> p in WrittenPaths(targets, changes) {
        if p in paths { var i :| 0 <= i < |paths| && paths[i] == p; assert targets[changes[i].slot].path == p; }
        if p in WrittenPaths(targets, changes) {
          var i :| 0 <= i < |changes| && targets[changes[i].slot].path == p;
          assert paths[i] == p;
        }
      }
    }
  }

  /** Distinct slots of a valid target set have distinct paths. */
  lemma SlotsToPaths(env: Env, accord: Accord, demoPaths: set<string>, targets: seq<Target>, changes: seq<Change>)
    requires TargetsValid(env, accord, demoPaths, targets) && SlotsKnown(SlotMap(targets), changes)
    requires forall i, j :: 0 <= i < j < |changes| ==> changes[i].slot != changes[j].slot
    ensures PathsDistinct(SlotMap(targets), changes)
  {
    var bySlot := SlotMap(targets);
    SlotMapKeys(targets);
    forall i, j | 0 <= i < j < |changes| ensures bySlot[changes[i].slot].path != bySlot[changes[j].slot].path {
      var a, b := bySlot[changes[i].slot], bySlot[changes[j].slot];
      var m :| 0 <= m < |targets| && targets[m] == a;
      var n :| 0 <= n < |targets| && targets[n] == b;
      assert a.slot != b.slot;
      if m < n { assert NewAmong(env, targets, n); } else { assert NewAmong(env, targets, m); }
    }
  }

  function TargetPaths(targets: map<string, Target>): set<string> { set slot | slot in targets :: targets[slot].path }

  lemma WrittenAreTargets(targets: map<string, Target>, changes: seq<Change>)
    requires SlotsKnown(targets, changes)
    ensures WrittenPaths(targets, changes) <= TargetPaths(targets)
  {
    forall p | p in WrittenPaths(targets, changes) ensures p in TargetPaths(targets) {
      var i :| 0 <= i < |changes| && targets[changes[i].slot].path == p;
      assert changes[i].slot in targets;
    }
  }

  function StatusNames(paths: set<string>): set<string> { set p | p in paths :: StatusName(p) }

  function ListedNames(paths: set<string>): set<string> { set p | p in paths :: ListedName(p) }

  /** The listing of a rename: `old -> new` */
  predicate HasArrow(name: string) {
    exists i :: 0 <= i < |name| - 3 && name[i] == ' ' && name[i + 1] == '-' && name[i + 2] == '>' && name[i + 3] == ' '
  }

  predicate NamesTargets(names: set<string>, targetPaths: set<string>) {
    forall name :: name in names ==> !HasArrow(name) && name in targetPaths
  }

  ghost predicate AllPlain(paths: set<string>) { forall p :: p in paths ==> IsPlain(p) }

  lemma PlainListing(paths: set<string>, targetPaths: set<string>)
    requires AllPlain(paths) && paths <= targetPaths
    ensures StatusNames(paths) == paths && ListedNames(paths) == paths && NamesTargets(paths, targetPaths)
  {
    hide StatusName;
    hide ListedName;
    forall p | p in paths ensures StatusName(p) == p && ListedName(p) == p && !HasArrow(p) { StatusNameExactly(p); }
  }

  lemma SubsetOfSameSize(a: set<string>, b: set<string>)
    requires a <= b && |a| >= |b|
    ensures a == b
  {
    assert |b - a| == |b| - |a|;
  }

  /** Status prints as many different names as it lists files, and every written path among them,
      only if the written paths are what changed and all of them are plain. */
  lemma ListingExactly(differing: set<string>, written: set<string>)
    requires differing <= written
    requires |differing| == |written| == |StatusNames(differing)| && written <= StatusNames(differing)
    ensures differing == written && AllPlain(written)
  {
    SubsetOfSameSize(differing, written);
    SubsetOfSameSize(written, StatusNames(differing));
    OnlyPlainNames(written);
  }

  /** The checks on the names Git prints: `changed` by status, `staged` by the cached difference,
      `indexed` by the index, for the paths written. */
  method CheckListings(maxFiles: int, targetPaths: set<string>, written: set<string>, changed: set<string>,
                       staged: set<string>, indexed: set<string>)
    returns (refusal: Option<ErrorCode>)
    requires changed <= written <= targetPaths && staged == changed && indexed == written
    ensures refusal == None <==> changed == written && 0 < |written| <= maxFiles && AllPlain(written)
  {
    hide StatusNames;
    hide ListedNames;
    hide AllPlain;
    hide NamesTargets;
    var names := StatusNames(changed);
    if changed == written && AllPlain(written) { PlainListing(written, targetPaths); }
    if !NamesTargets(names, targetPaths) { return Some(PatchInvalid); }
    if names == {} || |changed| > maxFiles || |names| != |changed| { return Some(PatchInvalid); }
    if |changed| != |written| || !(written <= names) { return Some(PatchInvalid); }
    ListingExactly(changed, written);
    if |staged| != |written| || |indexed| != |written| ||
       ListedNames(staged) != written || ListedNames(indexed) != written
    {
      return Some(PatchInvalid);
    }
    return None;
  }

  lemma PlainPaths(targets: map<string, Target>, changes: seq<Change>)
    requires SlotsKnown(targets, changes)
    ensures AllPlain(WrittenPaths(targets, changes)) <==>
      forall i :: 0 <= i < |changes| ==> IsPlain(targets[changes[i].slot].path)
  {
    hide IsPlain;
    forall i | 0 <= i < |changes| ensures targets[changes[i].slot].path in WrittenPaths(targets, changes) {}
  }

  /** The checks after a loop that wrote and added every change. */
  method CheckWorkingTree(env: Env, worktree: Worktree, grant: Grant, targets: map<string, Target>, changes: seq<Change>)
    returns (refusal: Option<ErrorCode>)
    requires SlotsKnown(targets, changes) && PathsDistinct(targets, changes)
    requires worktree.files == worktree.head + Overlay(env, targets, changes) && worktree.index == worktree.files
    ensures refusal == None <==>
      && 0 < |changes| <= grant.maxFiles
      && (forall i :: 0 <= i < |changes| ==> Effective(env, worktree.head, targets[changes[i].slot], changes[i].content))
      && forall i :: 0 <= i < |changes| ==> IsPlain(targets[changes[i].slot].path)
  {
    hide Overlay;
    hide Effective;
    hide Differing;
    hide TargetPaths;
    hide IsPlain;
    hide AllPlain;
    ChangedExactly(env, worktree.head, targets, changes);
    OverlayPaths(env, targets, changes);
    WrittenAreTargets(targets, changes);
    PlainPaths(targets, changes);
    var written := WrittenPaths(targets, changes);
    assert forall p :: p in written ==> p in worktree.index;
    refusal := CheckListings(grant.maxFiles, TargetPaths(targets), written,
                             Differing(worktree.files, worktree.head), Differing(worktree.index, worktree.head),
                             set p | p in written && p in worktree.index);
  }

  method RunVerification(env: Env, tree: Tree, commandIds: seq<string>) returns (refusal: Option<ErrorCode>)
    ensures refusal == None <==> forall c :: c in commandIds ==> CommandPasses(env, tree, c)
  {
    for i := 0 to |commandIds|
      invariant forall j :: 0 <= j < i ==> CommandPasses(env, tree, commandIds[j])
    {
      assert commandIds[i] in commandIds;
      if commandIds[i] !in env.commands { return Some(VerificationFailed); }
      var command := env.commands[commandIds[i]];
      if command.id != commandIds[i] || (exists j :: 0 <= j < |command.args| && NUL in command.args[j]) ||
         command.executable == "" || (command.executable != "git" && !env.isolated)
      {
        return Some(VerificationFailed);
      }
      if !PositiveSafe(command.timeoutMs) || !PositiveSafe(command.maxOutputBytes) { return Some(GrantInvalid); }
      if !env.verify(tree, command) { return Some(VerificationFailed); }
    }
    return None;
  }

  ghost predicate RunAccepted(env: Env, base: Tree, accord: Accord, grant: Grant, patch: Patch, now: int) {
    && GrantValid(env, accord, grant, now, None)
    && PatchValid(patch, SlotMap(grant.targets))
    && Accepts(env, grant, base, SlotMap(grant.targets), patch.changes)
  }

  lemma AcceptsInParts(env: Env, grant: Grant, base: Tree, targets: map<string, Target>, changes: seq<Change>)
    requires SlotsKnown(targets, changes)
    ensures Accepts(env, grant, base, targets, changes) <==>
      && AllWritable(env, base, targets, changes) && IsTree(base + Overlay(env, targets, changes))
      && 0 < |changes| <= grant.maxFiles
      && (forall i :: 0 <= i < |changes| ==> Effective(env, base, targets[changes[i].slot], changes[i].content))
      && (forall i :: 0 <= i < |changes| ==> IsPlain(targets[changes[i].slot].path))
      && DifferenceAccepted(env, grant, base, base + Overlay(env, targets, changes))
  {
    forall i | 0 <= i < |changes|
      ensures ChangeAllowed(env, base, targets, changes[i]) <==>
        && Writable(env, base, targets[changes[i].slot], changes[i].content)
        && Effective(env, base, targets[changes[i].slot], changes[i].content) && IsPlain(targets[changes[i].slot].path)
    {
    }
  }

  /** The staged difference, its size, and the verification commands. */
  method CheckDifference(env: Env, grant: Grant, base: Tree, tree: Tree) returns (refusal: Option<ErrorCode>)
    ensures refusal == None <==> DifferenceAccepted(env, grant, base, tree)
  {
    if !env.review(base, tree) { return Some(PatchInvalid); }
    var diff := env.diff(base, tree);
    if diff == [] || |diff| > grant.maxPatchBytes { return Some(PatchInvalid); }
    refusal := RunVerification(env, tree, grant.verificationCommandIds);
  }

  lemma GrantTargets(env: Env, accord: Accord, grant: Grant, now: int)
    requires GrantValid(env, accord, grant, now, None)
    ensures TargetSetValid(env, accord, grant)
  {
  }

  lemma PatchSlots(env: Env, accord: Accord, grant: Grant, patch: Patch)
    requires TargetSetValid(env, accord, grant) && PatchValid(patch, SlotMap(grant.targets))
    ensures SlotsKnown(SlotMap(grant.targets), patch.changes) && PathsDistinct(SlotMap(grant.targets), patch.changes)
  {
    assert forall i :: 0 <= i < |patch.changes| ==> ChangeShaped(SlotMap(grant.targets), patch.changes[i]);
    SlotsToPaths(env, accord, AuthorizedDemoPaths(accord), grant.targets, patch.changes);
  }

  // ----- What the result tells -----

  /** The record of a written file, told from the base and the new tree alone. */
  ghost predicate RecordTells(env: Env, base: Tree, tree: Tree, record: FileRecord) {
    && record.path in tree
    && record.afterDigest == env.contentDigest(tree[record.path]) && record.bytes == |tree[record.path]|
    && record.beforeDigest == (if record.path in base then Some(env.contentDigest(base[record.path])) else None)
    && (record.operation == Create <==> record.path !in base)
    && (record.path in base ==> tree[record.path] != base[record.path])
  }

  /** It carries out a change of the patch on the target granted for the slot of that change. */
  ghost predicate RecordGranted(targets: seq<Target>, changes: seq<Change>, tree: Tree, record: FileRecord) {
    exists target, change :: target in targets && change in changes && target.slot == change.slot
      && record.slot == target.slot && record.path == target.path && record.operation == target.operation
      && record.path in tree && tree[record.path] == Utf8(change.content)
  }

  /** The digests of a tree at some of its paths. */
  function DigestsAt(env: Env, tree: Tree, paths: seq<string>): (r: seq<(string, Digest)>)
    requires forall i :: 0 <= i < |paths| ==> paths[i] in tree
    ensures |r| == |paths| && forall i :: 0 <= i < |paths| ==> r[i] == (paths[i], env.contentDigest(tree[paths[i]]))
  {
    seq(|paths|, i requires 0 <= i < |paths| => (paths[i], env.contentDigest(tree[paths[i]])))
  }

  /** One true record for every path at which the new tree differs from the base, as many as there are
      changes, in path order; nothing deleted; and the tree digest taken over the same paths. */
  ghost predicate ResultTells(env: Env, base: Tree, targets: seq<Target>, changes: seq<Change>, result: ValidatedPatch) {
    var paths := PathsOf(result.files);
    && (forall record :: record in result.files ==>
          RecordTells(env, base, result.tree, record) && RecordGranted(targets, changes, result.tree, record))
    && Distinct(paths) && |result.files| == |changes|
    && (forall p :: p in result.tree <==> p in base || p in paths)
    && (forall p :: p in base && p !in paths ==> result.tree[p] == base[p])
    && (TotalOrder(env.pathLeq) ==> Sorted(env.pathLeq, paths))
    && (forall i :: 0 <= i < |paths| ==> paths[i] in result.tree)
    && result.treeDigest == env.entriesDigest(DigestsAt(env, result.tree, paths))
    && result.diff == env.diff(base, result.tree)
  }

  lemma RecordsTell(env: Env, base: Tree, targets: seq<Target>, changes: seq<Change>, i: nat)
    requires SlotsKnown(SlotMap(targets), changes) && PathsDistinct(SlotMap(targets), changes) && i < |changes|
    requires ChangeAllowed(env, base, SlotMap(targets), changes[i])
    ensures var bySlot := SlotMap(targets);
      var record := RecordsOf(env, base, bySlot, changes)[i];
      var tree := base + Overlay(env, bySlot, changes);
      RecordTells(env, base, tree, record) && RecordGranted(targets, changes, tree, record)
  {
    hide SlotMap;
    hide IsPlain;
    SlotMapKeys(targets);
    OverlayContents(env, SlotMap(targets), changes);
    hide Overlay;
    var target := SlotMap(targets)[changes[i].slot];
    assert changes[i] in changes && target in targets;
  }

  lemma EntriesFirst(record: FileRecord, records: seq<FileRecord>)
    ensures EntriesOf([record] + records) == [(record.path, record.afterDigest)] + EntriesOf(records)
  {
  }

  lemma {:induction false} EntriesInserted(env: Env, record: FileRecord, records: seq<FileRecord>)
    ensures EntriesOf(Insert(RecordOrder(env), record, records)) ==
      Insert(EntryOrder(env), (record.path, record.afterDigest), EntriesOf(records))
    decreases |records|
  {
    hide EntriesOf;
    if records == [] {
      EntriesFirst(record, []);
      assert EntriesOf([]) == [] && [record] + [] == [record];
    } else {
      var first, rest := records[0], records[1..];
      assert records == [first] + rest;
      EntriesFirst(first, rest);
      EntriesFirst(record, records);
      EntriesFirst(first, Insert(RecordOrder(env), record, rest));
      EntriesInserted(env, record, rest);
      assert EntriesOf(records)[1..] == EntriesOf(rest);
    }
  }

  /** Entries of sorted records are the sorted entries. */
  lemma {:induction false} EntriesSorted(env: Env, records: seq<FileRecord>)
    ensures EntriesOf(Sort(RecordOrder(env), records)) == Sort(EntryOrder(env), EntriesOf(records))
  {
    if records != [] {
      assert EntriesOf(records)[1..] == EntriesOf(records[1..]);
      EntriesSorted(env, records[1..]);
      EntriesInserted(env, records[0], Sort(RecordOrder(env), records[1..]));
    }
  }

  lemma PathsSorted(env: Env, records: seq<FileRecord>)
    requires TotalOrder(env.pathLeq)
    ensures Sorted(env.pathLeq, PathsOf(Sort(RecordOrder(env), records)))
  {
    OrdersTotal(env);
    SortSorts(RecordOrder(env), records);
    var sorted := Sort(RecordOrder(env), records);
    forall i, j | 0 <= i < j < |sorted| ensures env.pathLeq(PathsOf(sorted)[i], PathsOf(sorted)[j]) {
      assert RecordOrder(env)(sorted[i], sorted[j]);
    }
  }

  /** The paths recorded are the paths written, each once. */
  lemma PathsRecorded(env: Env, base: Tree, targets: map<string, Target>, changes: seq<Change>)
    requires SlotsKnown(targets, changes) && PathsDistinct(targets, changes)
    ensures var paths := PathsOf(Sort(RecordOrder(env), RecordsOf(env, base, targets, changes)));
      && |paths| == |changes| && Distinct(paths)
      && forall p :: p in paths <==> p in WrittenPaths(targets, changes)
  {
    var records := RecordsOf(env, base, targets, changes);
    var sorted := Sort(RecordOrder(env), records);
    assert |multiset(sorted)| == |multiset(records)|;
    PointwisePermutes(records, sorted, PathsOf(records), PathsOf(sorted));
    assert Distinct(PathsOf(records));
    DistinctPermutes(PathsOf(records), PathsOf(sorted));
    SameElements(PathsOf(records), PathsOf(sorted));
    forall p ensures p in PathsOf(records) <==> p in WrittenPaths(targets, changes) {
      if i :| 0 <= i < |changes| && targets[changes[i].slot].path == p { assert PathsOf(records)[i] == p; }
    }
  }

  lemma AllRecordsTell(env: Env, base: Tree, targets: seq<Target>, changes: seq<Change>)
    requires SlotsKnown(SlotMap(targets), changes) && PathsDistinct(SlotMap(targets), changes)
    requires forall i :: 0 <= i < |changes| ==> ChangeAllowed(env, base, SlotMap(targets), changes[i])
    ensures var result := Outcome(env, base, SlotMap(targets), changes);
      forall record :: record in result.files ==>
        RecordTells(env, base, result.tree, record) && RecordGranted(targets, changes, result.tree, record)
  {
    hide RecordTells;
    hide RecordGranted;
    hide ChangeAllowed;
    hide Overlay;
    var records := RecordsOf(env, base, SlotMap(targets), changes);
    var result := Outcome(env, base, SlotMap(targets), changes);
    SameElements(records, result.files);
    forall record | record in result.files
      ensures RecordTells(env, base, result.tree, record) && RecordGranted(targets, changes, result.tree, record)
    {
      var i :| 0 <= i < |records| && records[i] == record;
      RecordsTell(env, base, targets, changes, i);
    }
  }

  /** The tree digest is taken over the recorded paths and the contents of the new tree. */
  lemma TreeDigestTells(env: Env, base: Tree, targets: map<string, Target>, changes: seq<Change>, result: ValidatedPatch)
    requires SlotsKnown(targets, changes) && result == Outcome(env, base, targets, changes)
    requires forall record :: record in result.files ==> RecordTells(env, base, result.tree, record)
    ensures forall i :: 0 <= i < |result.files| ==> PathsOf(result.files)[i] in result.tree
    ensures result.treeDigest == env.entriesDigest(DigestsAt(env, result.tree, PathsOf(result.files)))
  {
    hide Overlay;
    hide RecordsOf;
    hide TotalOrder;
    var records := RecordsOf(env, base, targets, changes);
    EntriesSorted(env, records);
    forall i | 0 <= i < |result.files|
      ensures PathsOf(result.files)[i] in result.tree
      ensures EntriesOf(result.files)[i] == (PathsOf(result.files)[i], env.contentDigest(result.tree[PathsOf(result.files)[i]]))
    {
      assert result.files[i] in result.files;
    }
    assert EntriesOf(result.files) == DigestsAt(env, result.tree, PathsOf(result.files));
  }

  /** The recorded paths are all that differs between base and tree. */
  lemma OnlyRecordedChange(env: Env, base: Tree, targets: map<string, Target>, changes: seq<Change>)
    requires SlotsKnown(targets, changes) && PathsDistinct(targets, changes)
    ensures var result := Outcome(env, base, targets, changes);
      var paths := PathsOf(result.files);
      && Distinct(paths) && |paths| == |changes|
      && (forall p :: p in result.tree <==> p in base || p in paths)
      && (forall p :: p in base && p !in paths ==> result.tree[p] == base[p])
      && (TotalOrder(env.pathLeq) ==> Sorted(env.pathLeq, paths))
  {
    hide TotalOrder;
    hide RecordsOf;
    hide Overlay;
    hide WrittenPaths;
    PathsRecorded(env, base, targets, changes);
    OthersUntouched(env, base, targets, changes);
    if TotalOrder(env.pathLeq) { PathsSorted(env, RecordsOf(env, base, targets, changes)); }
  }

  lemma OutcomeTells(env: Env, base: Tree, targets: seq<Target>, changes: seq<Change>)
    requires SlotsKnown(SlotMap(targets), changes) && PathsDistinct(SlotMap(targets), changes)
    requires forall i :: 0 <= i < |changes| ==> ChangeAllowed(env, base, SlotMap(targets), changes[i])
    ensures ResultTells(env, base, targets, changes, Outcome(env, base, SlotMap(targets), changes))
  {
    hide RecordTells;
    hide RecordGranted;
    hide ChangeAllowed;
    hide TotalOrder;
    hide SlotMap;
    hide RecordsOf;
    hide Overlay;
    hide Sorted;
    var bySlot := SlotMap(targets);
    AllRecordsTell(env, base, targets, changes);
    TreeDigestTells(env, base, bySlot, changes, Outcome(env, base, bySlot, changes));
    OnlyRecordedChange(env, base, bySlot, changes);
  }

  /** The whole run on a checked-out commit. */
  method ExecuteBoundedWorktree(env: Env, base: Tree, accord: Accord, grant: Grant, patch: Patch, now: int)
    returns (r: Result<ValidatedPatch, ErrorCode>)
    requires IsTree(base)
    ensures r.Ok? <==> RunAccepted(env, base, accord, grant, patch, now)
    ensures r.Ok? ==> r.value == Outcome(env, base, SlotMap(grant.targets), patch.changes)
    ensures r.Ok? ==> ResultTells(env, base, grant.targets, patch.changes, r.value)
    ensures GrantValid(env, accord, grant, now, None) && !PatchValid(patch, SlotMap(grant.targets)) ==> r == Err(PatchInvalid)
    ensures r.Err? && r.error == VerificationFailed ==>
      GrantValid(env, accord, grant, now, None) && PatchValid(patch, SlotMap(grant.targets))
  {
    hide GrantValid;
    hide PatchValid;
    hide DifferenceAccepted;
    hide ResultTells;
    var valid := ValidateBoundedExecutionGrant(env, accord, grant, now, None);
    if valid.Err? { return Err(valid.error); }
    GrantTargets(env, accord, grant, now);
    var collected := ValidateTargetSet(env, accord, grant);
    var targets := collected.value;
    var shape := ValidateTargetFreePatch(patch, targets);
    if shape.Err? { return Err(shape.error); }
    PatchSlots(env, accord, grant, patch);
    AcceptsInParts(env, grant, base, targets, patch.changes);
    var worktree := new Worktree(base);
    var files := WriteChanges(env, worktree, targets, patch.changes);
    if files.Err? { return Err(files.error); }
    var refusal := CheckWorkingTree(env, worktree, grant, targets, patch.changes);
    if refusal.Some? { return Err(refusal.value); }
    var tree := worktree.index;
    var rejected := CheckDifference(env, grant, base, tree);
    if rejected.Some? { return Err(rejected.value); }
    var diff := env.diff(base, tree);
    var entries := EntriesOf(files.value);
    var treeDigest := env.entriesDigest(Sort(EntryOrder(env), entries));
    OutcomeTells(env, base, grant.targets, patch.changes);
    return Ok(ValidatedPatch(diff, treeDigest, tree,
                             Sort(RecordOrder(env), files.value)));
  }

  // ----- A name Git quotes -----

  const SPACED := "d/a b"
  const AMPLE := 1_000_000
  const NEW_FILE_PATCH := Patch("add", [Change("s", "x")])

  function NewFile(path: string): Target { Target("s", path, Create, None, AMPLE) }

  function NewFileAccord(): Accord { Accord(1, "w", AMPLE, AMPLE, AMPLE, ["d/**"], [], ["c"]) }

  function NewFileGrant(env: Env, path: string, now: int): Grant {
    Grant(1, "w", env.accordDigest(NewFileAccord()), seq(40, _ => '0'), [NewFile(path)], ["c"], 1, AMPLE, AMPLE, AMPLE, now + 1)
  }

  /** A canonical path in the allowed scope that nothing else stands against. */
  predicate IsOrdinary(env: Env, path: string) {
    && IsCanonical(path) && !EndsInSlash(path) && "d/" <= path && Run(NotLineTerminator, path[2..])
    && !IsProtected(env, path) && !env.untrackable(map[], path)
  }

  lemma OneMoreCharacter(s: string, segment: string, longer: string, others: seq<string>)
    requires s != "" && s[0] != '/' && Split(s[1..]) == [segment] + others && longer == [s[0]] + segment
    ensures Split(s) == [longer] + others
  {
  }

  lemma SpacedSplits()
    ensures Split(SPACED) == ["d", "a b"]
  {
    hide Split;
    SplitEmpty();
    assert "b"[1..] == "";
    OneMoreCharacter("b", "", "b", []);
    assert " b"[1..] == "b";
    OneMoreCharacter(" b", "b", " b", []);
    assert "a b"[1..] == " b";
    OneMoreCharacter("a b", " b", "a b", []);
    assert "/a b"[1..] == "a b";
    SplitSlash("/a b");
    assert SPACED[1..] == "/a b";
    OneMoreCharacter(SPACED, "", "d", ["a b"]);
  }

  lemma SplitEmpty()
    ensures Split("") == [""]
  {
  }

  lemma SplitSlash(s: string)
    requires s != "" && s[0] == '/'
    ensures Split(s) == [""] + Split(s[1..])
  {
  }

  lemma SpacedIsCanonical()
    ensures IsCanonical(SPACED)
  {
    hide Split;
    hide IsCanonical;
    SpacedSplits();
    CanonicalExactly(SPACED);
  }

  lemma NewFileGrantValid(env: Env, path: string, now: int)
    requires IsOrdinary(env, path) && "c" in env.commands
    ensures GrantValid(env, NewFileAccord(), NewFileGrant(env, path, now), now, None)
    ensures SlotMap(NewFileGrant(env, path, now).targets) == map["s" := NewFile(path)]
  {
    hide IsCanonical;
    hide GlobMatches;
    hide IsProtected;
    PrefixScope("d/", path);
    assert "d/" + "**" == "d/**" && NewFileAccord().allowedPaths[0] == "d/**";
    assert SlotMap([]) == map[] && [NewFile(path)][..0] == [];
    assert TargetAuthorized(env, NewFileAccord(), AuthorizedDemoPaths(NewFileAccord()), NewFile(path));
  }

  lemma NewFileWritten(env: Env, path: string)
    requires IsOrdinary(env, path)
    ensures var targets, changes := map["s" := NewFile(path)], NEW_FILE_PATCH.changes;
      && PatchValid(NEW_FILE_PATCH, targets) && SlotsKnown(targets, changes)
      && AllWritable(env, map[], targets, changes)
      && map[] + Overlay(env, targets, changes) == map[path := Utf8("x")] && IsTree(map[path := Utf8("x")])
      && (ChangeAllowed(env, map[], targets, changes[0]) <==> IsPlain(path))
  {
    hide IsCanonical;
    hide IsProtected;
    hide IsPlain;
    assert Utf8("x") == Utf8Char('x') + Utf8("");
    var changes := NEW_FILE_PATCH.changes;
    assert changes[..0] == [] && Overlay(env, map["s" := NewFile(path)], []) == map[];
  }

  /** Creating one file on an empty base, with every limit ample: grant and patch are valid and the
      write loop goes through, and whether the run is accepted is up to the name and the checks on
      the difference alone. */
  lemma NameDecides(env: Env, path: string, now: int)
    requires IsOrdinary(env, path) && "c" in env.commands
    ensures RunAccepted(env, map[], NewFileAccord(), NewFileGrant(env, path, now), NEW_FILE_PATCH, now) <==>
      IsPlain(path) && DifferenceAccepted(env, NewFileGrant(env, path, now), map[], map[path := Utf8("x")])
  {
    hide IsOrdinary;
    hide GrantValid;
    hide PatchValid;
    hide AllWritable;
    hide IsTree;
    hide IsPlain;
    hide ChangeAllowed;
    hide DifferenceAccepted;
    NewFileGrantValid(env, path, now);
    NewFileWritten(env, path);
  }

  /** So a name with a space is always refused, after it passed the grant, the patch check and the
      write loop. */
  lemma SpacedNameRefused(env: Env, now: int)
    requires !IsProtected(env, SPACED) && "c" in env.commands && !env.untrackable(map[], SPACED)
    ensures var grant, targets := NewFileGrant(env, SPACED, now), map["s" := NewFile(SPACED)];
      && GrantValid(env, NewFileAccord(), grant, now, None) && SlotMap(grant.targets) == targets
      && PatchValid(NEW_FILE_PATCH, targets) && SlotsKnown(targets, NEW_FILE_PATCH.changes)
      && AllWritable(env, map[], targets, NEW_FILE_PATCH.changes)
      && !RunAccepted(env, map[], NewFileAccord(), grant, NEW_FILE_PATCH, now)
  {
    hide IsCanonical;
    hide GrantValid;
    hide PatchValid;
    hide AllWritable;
    hide RunAccepted;
    SpacedIsCanonical();
    assert SPACED[3] == ' ' && !IsPlain(SPACED);
    assert IsOrdinary(env, SPACED);
    NewFileGrantValid(env, SPACED, now);
    NewFileWritten(env, SPACED);
    NameDecides(env, SPACED, now);
  }

  // ----- Main results about accepted runs -----

  /** What the source promises of one written path. */
  ghost predicate WriteAuthorized(env: Env, accord: Accord, base: Tree, tree: Tree, target: Target, content: string) {
    && IsCanonical(target.path) && InScope(accord, target.path)
    && (IsProtected(env, target.path) ==> target.path in AuthorizedDemoPaths(accord))
    && target.path in tree && tree[target.path] == Utf8(content)
    && |tree[target.path]| <= target.maxBytes
    && (target.operation == Create ==> target.path !in base)
    && (target.operation == Modify ==>
          target.path in base && Some(env.contentDigest(base[target.path])) == target.expectedDigest)
  }

  lemma WriteIsAuthorized(env: Env, accord: Accord, base: Tree, tree: Tree, targets: seq<Target>, change: Change)
    requires TargetsValid(env, accord, AuthorizedDemoPaths(accord), targets)
    requires ChangeAllowed(env, base, SlotMap(targets), change)
    requires var path := SlotMap(targets)[change.slot].path;
      path in tree && tree[path] == Utf8(change.content)
    ensures WriteAuthorized(env, accord, base, tree, SlotMap(targets)[change.slot], change.content)
  {
    SlotMapKeys(targets);
    var target := SlotMap(targets)[change.slot];
    var m :| 0 <= m < |targets| && targets[m] == target;
    assert TargetAuthorized(env, accord, AuthorizedDemoPaths(accord), targets[m]);
  }

  lemma DifferentAfterFolding(env: Env, accord: Accord, demoPaths: set<string>, targets: seq<Target>, a: Target, b: Target)
    requires TargetsValid(env, accord, demoPaths, targets) && a in targets && b in targets && a.slot != b.slot
    ensures env.lower(a.path) != env.lower(b.path)
  {
    var m :| 0 <= m < |targets| && targets[m] == a;
    var n :| 0 <= n < |targets| && targets[n] == b;
    if m < n { assert NewAmong(env, targets, n); } else { assert NewAmong(env, targets, m); }
  }

  /** Every path written is canonical, inside an allowed scope, unprotected or on the demo list of
      the accord's one demo capability, and within its byte limit; creates hit only free paths and
      modifies only the expected content; no two paths agree after lower-casing; and nothing else
      changes. */
  ghost predicate WritesAuthorized(env: Env, accord: Accord, base: Tree, tree: Tree, targets: map<string, Target>, changes: seq<Change>)
    requires SlotsKnown(targets, changes)
  {
    && (forall i :: 0 <= i < |changes| ==>
          WriteAuthorized(env, accord, base, tree, targets[changes[i].slot], changes[i].content))
    && (forall i, j :: 0 <= i < j < |changes| ==>
          env.lower(targets[changes[i].slot].path) != env.lower(targets[changes[j].slot].path))
    && tree.Keys == base.Keys + WrittenPaths(targets, changes)
    && (forall p :: p in base && p !in WrittenPaths(targets, changes) ==> tree[p] == base[p])
  }

  lemma WritesAreAuthorized(env: Env, base: Tree, accord: Accord, grant: Grant, patch: Patch, now: int)
    requires RunAccepted(env, base, accord, grant, patch, now)
    ensures SlotsKnown(SlotMap(grant.targets), patch.changes)
    ensures WritesAuthorized(env, accord, base, Outcome(env, base, SlotMap(grant.targets), patch.changes).tree,
                             SlotMap(grant.targets), patch.changes)
  {
    hide GrantValid;
    hide WriteAuthorized;
    hide ChangeAllowed;
    hide DifferenceAccepted;
    hide TargetsValid;
    hide Overlay;
    hide WrittenPaths;
    hide AuthorizedDemoPaths;
    GrantTargets(env, accord, grant, now);
    PatchSlots(env, accord, grant, patch);
    var targets, changes := SlotMap(grant.targets), patch.changes;
    AllWritesAuthorized(env, accord, base, grant.targets, changes);
    AllPathsDiffer(env, accord, AuthorizedDemoPaths(accord), grant.targets, changes);
    OthersUntouched(env, base, targets, changes);
  }

  lemma AllWritesAuthorized(env: Env, accord: Accord, base: Tree, targets: seq<Target>, changes: seq<Change>)
    requires SlotsKnown(SlotMap(targets), changes) && PathsDistinct(SlotMap(targets), changes)
    requires TargetsValid(env, accord, AuthorizedDemoPaths(accord), targets)
    requires forall i :: 0 <= i < |changes| ==> ChangeAllowed(env, base, SlotMap(targets), changes[i])
    ensures forall i :: 0 <= i < |changes| ==>
      WriteAuthorized(env, accord, base, base + Overlay(env, SlotMap(targets), changes),
        SlotMap(targets)[changes[i].slot], changes[i].content)
  {
    var bySlot := SlotMap(targets);
    OverlayContents(env, bySlot, changes);
    forall i | 0 <= i < |changes|
      ensures WriteAuthorized(env, accord, base, base + Overlay(env, bySlot, changes), bySlot[changes[i].slot], changes[i].content)
    {
      WriteIsAuthorized(env, accord, base, base + Overlay(env, bySlot, changes), targets, changes[i]);
    }
  }

  lemma AllPathsDiffer(env: Env, accord: Accord, demoPaths: set<string>, targets: seq<Target>, changes: seq<Change>)
    requires TargetsValid(env, accord, demoPaths, targets) && SlotsKnown(SlotMap(targets), changes)
    requires forall i, j :: 0 <= i < j < |changes| ==> changes[i].slot != changes[j].slot
    ensures forall i, j :: 0 <= i < j < |changes| ==>
      env.lower(SlotMap(targets)[changes[i].slot].path) != env.lower(SlotMap(targets)[changes[j].slot].path)
  {
    SlotMapKeys(targets);
    var bySlot := SlotMap(targets);
    forall i, j | 0 <= i < j < |changes|
      ensures env.lower(bySlot[changes[i].slot].path) != env.lower(bySlot[changes[j].slot].path)
    {
      DifferentAfterFolding(env, accord, demoPaths, targets, bySlot[changes[i].slot], bySlot[changes[j].slot]);
    }
  }

  lemma OthersUntouched(env: Env, base: Tree, targets: map<string, Target>, changes: seq<Change>)
    requires SlotsKnown(targets, changes)
    ensures Overlay(env, targets, changes).Keys == WrittenPaths(targets, changes)
    ensures var tree := base + Overlay(env, targets, changes);
      && tree.Keys == base.Keys + WrittenPaths(targets, changes)
      && (forall p :: p in base && p !in WrittenPaths(targets, changes) ==> tree[p] == base[p])
  {
    OverlayPaths(env, targets, changes);
  }

  /** Overlays of the same changes hold each path of one with its content in the other. */
  lemma OverlayWithin(env: Env, targets: map<string, Target>, a: seq<Change>, b: seq<Change>)
    requires SlotsKnown(targets, a) && SlotsKnown(targets, b)
    requires PathsDistinct(targets, a) && PathsDistinct(targets, b)
    requires forall c :: c in a ==> c in b
    ensures var x, y := Overlay(env, targets, a), Overlay(env, targets, b);
      forall p :: p in x ==> p in y && x[p] == y[p]
  {
    hide Overlay;
    OverlayPaths(env, targets, a);
    OverlayContents(env, targets, a);
    OverlayContents(env, targets, b);
    var x, y := Overlay(env, targets, a), Overlay(env, targets, b);
    forall p | p in x ensures p in y && x[p] == y[p] {
      var i :| 0 <= i < |a| && targets[a[i].slot].path == p;
      assert a[i] in b;
      var j :| 0 <= j < |b| && b[j] == a[i];
    }
  }

  lemma SameOverlay(env: Env, targets: map<string, Target>, a: seq<Change>, b: seq<Change>)
    requires SlotsKnown(targets, a) && SlotsKnown(targets, b)
    requires PathsDistinct(targets, a) && PathsDistinct(targets, b)
    requires forall c :: c in a <==> c in b
    ensures Overlay(env, targets, a) == Overlay(env, targets, b)
  {
    hide Overlay;
    OverlayWithin(env, targets, a, b);
    OverlayWithin(env, targets, b, a);
  }

  lemma PathsStayDistinct(targets: map<string, Target>, a: seq<Change>, b: seq<Change>)
    requires SlotsKnown(targets, a) && SlotsKnown(targets, b)
    requires PathsDistinct(targets, a) && multiset(a) == multiset(b)
    ensures PathsDistinct(targets, b)
  {
    assert Distinct(a) by {
      forall i, j | 0 <= i < j < |a| ensures a[i] != a[j] {
        assert targets[a[i].slot].path != targets[a[j].slot].path;
      }
    }
    DistinctPermutes(a, b);
    SameElements(a, b);
    forall i, j | 0 <= i < j < |b| ensures targets[b[i].slot].path != targets[b[j].slot].path {
      assert b[i] in a && b[j] in a && b[i] != b[j];
      var m :| 0 <= m < |a| && a[m] == b[i];
      var n :| 0 <= n < |a| && a[n] == b[j];
      assert m < n || n < m;
    }
  }

  lemma RecordsPermute(env: Env, base: Tree, targets: map<string, Target>, a: seq<Change>, b: seq<Change>)
    requires SlotsKnown(targets, a) && SlotsKnown(targets, b) && multiset(a) == multiset(b)
    ensures multiset(RecordsOf(env, base, targets, a)) == multiset(RecordsOf(env, base, targets, b))
    ensures multiset(EntriesOf(RecordsOf(env, base, targets, a))) == multiset(EntriesOf(RecordsOf(env, base, targets, b)))
  {
    var ra, rb := RecordsOf(env, base, targets, a), RecordsOf(env, base, targets, b);
    PointwisePermutes(a, b, ra, rb);
    PointwisePermutes(ra, rb, EntriesOf(ra), EntriesOf(rb));
  }

  /** Permuting the changes of a patch changes neither whether the run succeeds nor its result. */
  lemma OrderOfChangesIrrelevant(env: Env, grant: Grant, base: Tree, targets: map<string, Target>, a: seq<Change>, b: seq<Change>)
    requires SlotsKnown(targets, a) && SlotsKnown(targets, b) && PathsDistinct(targets, a)
    requires multiset(a) == multiset(b) && TotalOrder(env.pathLeq)
    ensures Accepts(env, grant, base, targets, a) <==> Accepts(env, grant, base, targets, b)
    ensures Outcome(env, base, targets, a) == Outcome(env, base, targets, b)
  {
    SameElements(a, b);
    PathsStayDistinct(targets, a, b);
    SameOverlay(env, targets, a, b);
    if Accepts(env, grant, base, targets, a) { AllowedPermutes(env, base, targets, a, b); }
    if Accepts(env, grant, base, targets, b) { AllowedPermutes(env, base, targets, b, a); }
    RecordsPermute(env, base, targets, a, b);
    SortedFilesPermute(env, base, targets, a, b);
  }

  lemma AllowedPermutes(env: Env, base: Tree, targets: map<string, Target>, a: seq<Change>, b: seq<Change>)
    requires forall c :: c in a <==> c in b
    requires forall i :: 0 <= i < |a| ==> ChangeAllowed(env, base, targets, a[i])
    ensures forall i :: 0 <= i < |b| ==> ChangeAllowed(env, base, targets, b[i])
  {
    forall i | 0 <= i < |b| ensures ChangeAllowed(env, base, targets, b[i]) {
      assert b[i] in a;
      var j :| 0 <= j < |a| && a[j] == b[i];
    }
  }

  lemma SortedFilesPermute(env: Env, base: Tree, targets: map<string, Target>, a: seq<Change>, b: seq<Change>)
    requires SlotsKnown(targets, a) && SlotsKnown(targets, b) && PathsDistinct(targets, a)
    requires TotalOrder(env.pathLeq)
    requires multiset(RecordsOf(env, base, targets, a)) == multiset(RecordsOf(env, base, targets, b))
    requires multiset(EntriesOf(RecordsOf(env, base, targets, a))) == multiset(EntriesOf(RecordsOf(env, base, targets, b)))
    requires Overlay(env, targets, a) == Overlay(env, targets, b)
    ensures Outcome(env, base, targets, a) == Outcome(env, base, targets, b)
  {
    var files := RecordsOf(env, base, targets, a);
    var entries := EntriesOf(files);
    OrdersTotal(env);
    DistinctPathsSeparate(env, base, targets, a);
    SortForgetsOrder(RecordOrder(env), files, RecordsOf(env, base, targets, b));
    SortForgetsOrder(EntryOrder(env), entries, EntriesOf(RecordsOf(env, base, targets, b)));
  }

  lemma DistinctPathsSeparate(env: Env, base: Tree, targets: map<string, Target>, changes: seq<Change>)
    requires SlotsKnown(targets, changes) && PathsDistinct(targets, changes) && TotalOrder(env.pathLeq)
    ensures var files := RecordsOf(env, base, targets, changes);
      Separates(RecordOrder(env), files) && Separates(EntryOrder(env), EntriesOf(files))
  {
    var files := RecordsOf(env, base, targets, changes);
    assert Distinct(PathsOf(files));
    RecordsSeparate(env, files);
    EntriesSeparate(env, files);
  }

  function PathsOf(files: seq<FileRecord>): (paths: seq<string>)
    ensures |paths| == |files| && forall i :: 0 <= i < |files| ==> paths[i] == files[i].path
  {
    seq(|files|, i requires 0 <= i < |files| => files[i].path)
  }

  lemma RecordsSeparate(env: Env, files: seq<FileRecord>)
    requires Distinct(PathsOf(files)) && TotalOrder(env.pathLeq)
    ensures Separates(RecordOrder(env), files)
  {
    forall x, y | x in files && y in files && RecordOrder(env)(x, y) && RecordOrder(env)(y, x) ensures x == y {
      var i :| 0 <= i < |files| && files[i] == x;
      var j :| 0 <= j < |files| && files[j] == y;
      assert PathsOf(files)[i] == PathsOf(files)[j];
    }
  }

  lemma EntriesSeparate(env: Env, files: seq<FileRecord>)
    requires Distinct(PathsOf(files)) && TotalOrder(env.pathLeq)
    ensures Separates(EntryOrder(env), EntriesOf(files))
  {
    var entries := EntriesOf(files);
    forall x, y | x in entries && y in entries && EntryOrder(env)(x, y) && EntryOrder(env)(y, x) ensures x == y {
      var i :| 0 <= i < |entries| && entries[i] == x;
      var j :| 0 <= j < |entries| && entries[j] == y;
      assert PathsOf(files)[i] == PathsOf(files)[j];
    }
  }
}

/** What an execution grant allows (src/bounded-worktree.ts), in numbers and names: the budget an
    accepted run keeps to, what may be relaxed without losing a grant, and the paths a demo may write. */
module BoundedAuthority {
  import opened BoundedWorktree
  import opened Glob
  import opened Ordering
  import opened RepositoryPath
  import opened Wrappers

  // ----- Budget -----

  /** The command of the registry under this id, well formed, was started and passed. */
  predicate CommandMeans(env: Env, tree: Tree, commandId: string) {
    && commandId in env.commands
    && var command := env.commands[commandId];
      && command.id == commandId && command.executable != ""
      && (forall i :: 0 <= i < |command.args| ==> '\0' !in command.args[i])
      && 0 < command.timeoutMs <= 9_007_199_254_740_991 && 0 < command.maxOutputBytes <= 9_007_199_254_740_991
      && (env.isolated || command.executable == "git") && env.verify(tree, command)
  }

  /** An accepted run keeps to the grant, and the grant to the accord. */
  lemma AcceptedStaysWithin(env: Env, base: Tree, accord: Accord, grant: Grant, patch: Patch, now: int)
    requires RunAccepted(env, base, accord, grant, patch, now)
    ensures SlotsKnown(SlotMap(grant.targets), patch.changes)
    ensures now < grant.expiresAt && grant.repositoryId == accord.repositoryId
    ensures grant.workItemNodeId == accord.workItemNodeId && grant.workAccordDigest == env.accordDigest(accord)
    ensures 0 < |patch.changes| <= |grant.targets| <= grant.maxFiles <= 9_007_199_254_740_991
    ensures var tree := Outcome(env, base, SlotMap(grant.targets), patch.changes).tree;
      && 0 < |env.diff(base, tree)| <= grant.maxPatchBytes <= accord.maxPatchBytes && env.review(base, tree)
      && forall c :: c in accord.verificationCommands ==>
           c in grant.verificationCommandIds && CommandMeans(env, tree, c)
    ensures 0 < grant.maxTurns <= accord.maxLoops && 0 < grant.maxCostUnits <= accord.maxCostUnits
  {
    hide IsTree;
    hide Overlay;
    hide TargetsValid;
    hide ChangeAllowed;
    hide Distinct;
    GrantTargets(env, accord, grant, now);
    PatchSlots(env, accord, grant, patch);
    SlotCount(grant.targets);
    AcceptedCommands(env, grant, base, Outcome(env, base, SlotMap(grant.targets), patch.changes).tree);
  }

  lemma AcceptedCommands(env: Env, grant: Grant, base: Tree, tree: Tree)
    requires DifferenceAccepted(env, grant, base, tree)
    ensures forall c :: c in grant.verificationCommandIds ==> CommandMeans(env, tree, c)
  {
    forall c | c in grant.verificationCommandIds ensures CommandMeans(env, tree, c) {
      assert CommandPasses(env, tree, c);
    }
  }

  lemma {:induction false} SlotCount(targets: seq<Target>)
    ensures |SlotMap(targets)| <= |targets|
  {
    if targets != [] {
      var front, last := SlotMap(targets[..|targets| - 1]), targets[|targets| - 1];
      SlotCount(targets[..|targets| - 1]);
      assert SlotMap(targets).Keys == front.Keys + {last.slot};
    }
  }

  /** A larger budget, more allowed paths and an earlier moment never invalidate a grant. */
  predicate Relaxes(accord: Accord, other: Accord) {
    && other.repositoryId == accord.repositoryId && other.workItemNodeId == accord.workItemNodeId
    && other.maxPatchBytes >= accord.maxPatchBytes && other.maxLoops >= accord.maxLoops
    && other.maxCostUnits >= accord.maxCostUnits && accord.allowedPaths <= other.allowedPaths
    && other.requestedCapabilities == accord.requestedCapabilities
    && other.verificationCommands == accord.verificationCommands
  }

  lemma GrantSurvives(env: Env, accord: Accord, other: Accord, grant: Grant, now: int, earlier: int)
    requires GrantValid(env, accord, grant, now, None) && Relaxes(accord, other) && earlier <= now
    ensures GrantValid(env, other, grant.(workAccordDigest := env.accordDigest(other)), earlier, None)
  {
    hide GlobMatches;
    hide IsCanonical;
    hide Distinct;
    forall i | 0 <= i < |grant.targets|
      ensures TargetAuthorized(env, other, AuthorizedDemoPaths(other), grant.targets[i]) && NewAmong(env, grant.targets, i)
    {
      assert TargetAuthorized(env, accord, AuthorizedDemoPaths(accord), grant.targets[i]);
      ScopeGrows(accord, other, grant.targets[i].path);
    }
  }

  lemma ScopeGrows(accord: Accord, other: Accord, path: string)
    requires InScope(accord, path) && accord.allowedPaths <= other.allowedPaths
    ensures InScope(other, path)
  {
    hide GlobMatches;
    var i :| 0 <= i < |accord.allowedPaths| && GlobMatches(accord.allowedPaths[i], path);
    assert other.allowedPaths[i] == accord.allowedPaths[i];
  }

  // ----- Scopes -----

  /** For scopes without NUL, in scope and protected mean what the globs mean, protected whatever the
      case of the letters. */
  lemma ScopesMean(env: Env, accord: Accord, path: string)
    requires forall i :: 0 <= i < |accord.allowedPaths| ==> NUL !in accord.allowedPaths[i]
    requires forall i :: 0 <= i < |env.protectedScopes| ==> NUL !in env.lower(env.protectedScopes[i])
    ensures InScope(accord, path) <==> exists scope :: scope in accord.allowedPaths && Glob.Glob(scope, path)
    ensures IsProtected(env, path) <==>
      exists scope :: scope in env.protectedScopes && Glob.Glob(env.lower(scope), env.lower(path))
  {
    hide GlobMatches;
    hide Glob.Glob;
    forall i | 0 <= i < |accord.allowedPaths|
      ensures accord.allowedPaths[i] in accord.allowedPaths
      ensures GlobMatches(accord.allowedPaths[i], path) <==> Glob.Glob(accord.allowedPaths[i], path)
    {
      RewriteCorrectExactly(accord.allowedPaths[i]);
    }
    forall i | 0 <= i < |env.protectedScopes|
      ensures env.protectedScopes[i] in env.protectedScopes
      ensures GlobMatches(env.lower(env.protectedScopes[i]), env.lower(path)) <==>
        Glob.Glob(env.lower(env.protectedScopes[i]), env.lower(path))
    {
      RewriteCorrectExactly(env.lower(env.protectedScopes[i]));
    }
  }

  // ----- Demo paths -----

  /** The capability is one of the two demos, and no other entry of the list is. */
  ghost predicate OnlyDemo(capabilities: seq<string>, demo: string) {
    exists i | 0 <= i < |capabilities| :: capabilities[i] == demo &&
      forall j :: 0 <= j < |capabilities| && j != i ==>
        capabilities[j] != "demo.app-modernization.implementation@1.0.0" &&
        capabilities[j] != "demo.security-dependency-remediation.patch-implementation@1.0.0"
  }

  lemma DemosDiffer()
    ensures |"demo.app-modernization.implementation@1.0.0"| == 43
    ensures |"demo.security-dependency-remediation.patch-implementation@1.0.0"| == 63
    ensures DEMO_TCB.Keys == {"demo.app-modernization.implementation@1.0.0",
      "demo.security-dependency-remediation.patch-implementation@1.0.0"}
  {
  }

  lemma {:induction false} NoDemos(capabilities: seq<string>)
    ensures DemoCapabilities(capabilities) == [] <==> forall i :: 0 <= i < |capabilities| ==> capabilities[i] !in DEMO_TCB
  {
    if capabilities != [] {
      NoDemos(capabilities[1..]);
      assert forall i :: 0 < i < |capabilities| ==> capabilities[i] == capabilities[1..][i - 1];
      assert forall i :: 0 <= i < |capabilities[1..]| ==> capabilities[1..][i] == capabilities[i + 1];
    }
  }

  /** The capability stands at one place, and no other place holds a demo. */
  ghost predicate OnlyAt(capabilities: seq<string>, demo: string, i: nat)
    requires i < |capabilities|
  {
    capabilities[i] == demo && forall j :: 0 <= j < |capabilities| && j != i ==> capabilities[j] !in DEMO_TCB
  }

  lemma {:induction false} OneDemo(capabilities: seq<string>, demo: string)
    requires demo in DEMO_TCB
    ensures DemoCapabilities(capabilities) == [demo] <==>
      exists i :: 0 <= i < |capabilities| && OnlyAt(capabilities, demo, i)
  {
    if capabilities != [] {
      var first, rest := capabilities[0], capabilities[1..];
      assert forall i :: 0 <= i < |rest| ==> rest[i] == capabilities[i + 1];
      assert forall i :: 0 < i < |capabilities| ==> capabilities[i] == rest[i - 1];
      if first in DEMO_TCB {
        NoDemos(rest);
        assert OnlyAt(capabilities, demo, 0) <==> first == demo && DemoCapabilities(rest) == [];
        assert forall i :: 0 < i < |capabilities| ==> !OnlyAt(capabilities, demo, i);
        assert DemoCapabilities(capabilities)[0] == first && DemoCapabilities(capabilities)[1..] == DemoCapabilities(rest);
      } else {
        OneDemo(rest, demo);
        if i :| 0 <= i < |rest| && OnlyAt(rest, demo, i) { assert OnlyAt(capabilities, demo, i + 1); }
        if i :| 0 <= i < |capabilities| && OnlyAt(capabilities, demo, i) { assert i > 0 && OnlyAt(rest, demo, i - 1); }
      }
    }
  }

  lemma OnlyDemoExactly(capabilities: seq<string>, demo: string)
    ensures OnlyDemo(capabilities, demo) <==> exists i :: 0 <= i < |capabilities| && OnlyAt(capabilities, demo, i)
  {
    DemosDiffer();
    if OnlyDemo(capabilities, demo) {
      var i :| 0 <= i < |capabilities| && capabilities[i] == demo &&
        forall j :: 0 <= j < |capabilities| && j != i ==>
          capabilities[j] != "demo.app-modernization.implementation@1.0.0" &&
          capabilities[j] != "demo.security-dependency-remediation.patch-implementation@1.0.0";
      assert OnlyAt(capabilities, demo, i);
    }
  }

  /** The protected paths an accord may write: those of its demo, when it asks for just one. */
  lemma DemoPathsExactly(accord: Accord, path: string)
    ensures path in AuthorizedDemoPaths(accord) <==>
      || (OnlyDemo(accord.requestedCapabilities, "demo.app-modernization.implementation@1.0.0")
          && path in ["src/modernized/application.ts", "tests/modernized/application.test.ts"])
      || (OnlyDemo(accord.requestedCapabilities, "demo.security-dependency-remediation.patch-implementation@1.0.0")
          && path in ["vendor/mist-lru/package.json", "vendor/mist-lru/package-lock.json", "src/cache-key.ts",
                      "tests/cache-key.test.ts"])
  {
    hide OnlyDemo;
    hide OnlyAt;
    var capabilities := accord.requestedCapabilities;
    var modernization := "demo.app-modernization.implementation@1.0.0";
    var remediation := "demo.security-dependency-remediation.patch-implementation@1.0.0";
    DemosDiffer();
    assert modernization in DEMO_TCB && remediation in DEMO_TCB;
    OneDemo(capabilities, modernization);
    OneDemo(capabilities, remediation);
    OnlyDemoExactly(capabilities, modernization);
    OnlyDemoExactly(capabilities, remediation);
  }

  // ----- Shapes at their limits -----

  lemma SlotsAtTheirLimits()
    ensures IsSlot("s") && IsSlot("a-9") && IsSlot(seq(63, _ => 'z'))
    ensures !IsSlot("") && !IsSlot(seq(64, _ => 'z')) && !IsSlot("9a") && !IsSlot("-a") && !IsSlot("aB") && !IsSlot("a_b")
  {
    assert "aB"[1] == 'B' && "a_b"[1] == '_' && "9a"[0] == '9' && "-a"[0] == '-';
  }

  lemma ShasAtTheirLimits()
    ensures IsSha(seq(40, _ => '0')) && IsSha(seq(40, _ => 'f')) && !IsSha(seq(39, _ => '0')) && !IsSha(seq(41, _ => '0'))
    ensures !IsSha(seq(40, _ => 'g')) && !IsSha(seq(40, _ => 'F'))
  {
    assert 'g' !in "0123456789abcdef" && 'F' !in "0123456789abcdef" && 'f' in "0123456789abcdef";
    assert seq(40, _ => 'g')[0] == 'g' && seq(40, _ => 'F')[0] == 'F';
  }
}

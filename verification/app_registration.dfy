/** The GitHub App registration plan, its validator and the permission readback comparator
    (src/app-registration-plan.ts). The reviewed manifest is a parameter. */
module AppRegistration {
  import opened Freshness
  import opened KeyedLists
  import opened Ordering
  import opened Strings
  import opened Wrappers
  import AP = AdministratorPlan

  datatype Level = Read | Write

  datatype Scope = OrganizationScope | RepositoryScope

  datatype Grant = Grant(name: string, level: Level, scope: Scope)

  datatype Operation = Operation(operationId: string, permissions: seq<Grant>)

  datatype Manifest = Manifest(version: string, operations: seq<Operation>, denied: seq<string>)

  datatype Marker = Marker(cannotInstallOrTransferApp: bool, cannotAuthenticateApp: bool, cannotMintInstallationToken: bool)

  datatype Plan = Plan(
    generatedAt: int, manifestVersion: string, appName: string, operations: seq<Operation>,
    deniedPermissionNames: seq<string>, leastPrivilegeUnion: seq<Grant>, nonAuthoritative: Marker)

  /** The manifest repeats no operation, no grant within one, and no denied name. */
  ghost predicate ManifestSound(m: Manifest) {
    && KeysDistinct(m.operations, OperationId) && Distinct(m.denied)
    && forall o :: o in m.operations ==> Distinct(o.permissions)
  }

  function OperationId(o: Operation): string { o.operationId }

  // ----- Keys -----

  function ScopeName(s: Scope): string { if s == OrganizationScope then "organization" else "repository" }

  function LevelName(l: Level): string { if l == Read then "read" else "write" }

  function PermissionKey(g: Grant): string { ScopeName(g.scope) + ":" + g.name }

  function PermissionEntryKey(g: Grant): string { PermissionKey(g) + ":" + LevelName(g.level) }

  function Rank(l: Level): nat { if l == Read then 0 else 1 }

  lemma PermissionKeyTells(a: Grant, b: Grant)
    ensures PermissionKey(a) == PermissionKey(b) <==> a.scope == b.scope && a.name == b.name
  {
    if PermissionKey(a) == PermissionKey(b) {
      var k := PermissionKey(a);
      assert k[0] == ScopeName(a.scope)[0] && k[0] == ScopeName(b.scope)[0];
      assert k[|ScopeName(a.scope)| + 1..] == a.name && k[|ScopeName(b.scope)| + 1..] == b.name;
    }
  }

  lemma EntryKeyTells(a: Grant, b: Grant)
    requires PermissionEntryKey(a) == PermissionEntryKey(b)
    ensures a == b
  {
    var k := PermissionEntryKey(a);
    assert k[|k| - 1] == LevelName(a.level)[|LevelName(a.level)| - 1];
    assert k[|k| - 1] == LevelName(b.level)[|LevelName(b.level)| - 1];
    assert k[..|k| - |LevelName(a.level)| - 1] == PermissionKey(a);
    assert k[..|k| - |LevelName(b.level)| - 1] == PermissionKey(b);
    PermissionKeyTells(a, b);
  }

  ghost predicate PermissionsEqual(left: seq<Grant>, right: seq<Grant>) {
    Distinct(left) && multiset(left) == multiset(right)
  }

  lemma EntryKeysDistinct(grants: seq<Grant>)
    ensures KeysDistinct(grants, PermissionEntryKey) <==> Distinct(grants)
  {
    if KeysDistinct(grants, PermissionEntryKey) {
      forall i, j | 0 <= i < j < |grants| ensures grants[i] != grants[j] {
        assert Keys(grants, PermissionEntryKey)[i] != Keys(grants, PermissionEntryKey)[j];
      }
    }
    if Distinct(grants) {
      forall i, j | 0 <= i < j < |grants| ensures Keys(grants, PermissionEntryKey)[i] != Keys(grants, PermissionEntryKey)[j] {
        if PermissionEntryKey(grants[i]) == PermissionEntryKey(grants[j]) { EntryKeyTells(grants[i], grants[j]); }
      }
    }
  }

  lemma EntryKeyListed(grants: seq<Grant>, g: Grant)
    ensures PermissionEntryKey(g) in Keys(grants, PermissionEntryKey) <==> g in grants
  {
    KeyListed(grants, PermissionEntryKey, PermissionEntryKey(g));
    if x :| x in grants && PermissionEntryKey(x) == PermissionEntryKey(g) { EntryKeyTells(x, g); }
  }

  /** Comparing entry keys as sets compares the grants themselves. */
  lemma EqualByEntryKeys(left: seq<Grant>, right: seq<Grant>)
    ensures SameDistinct(Keys(left, PermissionEntryKey), Keys(right, PermissionEntryKey)) <==> PermissionsEqual(left, right)
  {
    EntryKeysDistinct(left);
    EntryKeysDistinct(right);
    if SameDistinct(Keys(left, PermissionEntryKey), Keys(right, PermissionEntryKey)) {
      forall g ensures g in left <==> g in right { EntryKeyListed(left, g); EntryKeyListed(right, g); }
      DistinctSameSet(left, right);
    }
    if PermissionsEqual(left, right) {
      DistinctPermutes(left, right);
      KeysPermute(left, right, PermissionEntryKey);
      SameElements(Keys(left, PermissionEntryKey), Keys(right, PermissionEntryKey));
    }
  }

  method PermissionsExactlyEqual(left: seq<Grant>, right: seq<Grant>) returns (equal: bool)
    ensures equal <==> PermissionsEqual(left, right)
  {
    EqualByEntryKeys(left, right);
    equal := SetsExactlyEqual(Keys(left, PermissionEntryKey), Keys(right, PermissionEntryKey));
  }

  // ----- The least-privilege union -----

  /** Some grant for the same permission reaches the level. */
  predicate Covered(grants: seq<Grant>, p: Grant) {
    exists g :: g in grants && g.scope == p.scope && g.name == p.name && Rank(g.level) >= Rank(p.level)
  }

  function Required(operations: seq<Operation>): (required: seq<Grant>)
    ensures forall p :: p in required <==> exists o :: o in operations && p in o.permissions
  {
    if operations == [] then []
    else
      var front := operations[..|operations| - 1];
      assert operations == front + [operations[|operations| - 1]];
      Required(front) + operations[|operations| - 1].permissions
  }

  function KeyLeq(leq: (string, string) -> bool): (Grant, Grant) -> bool {
    (a: Grant, b: Grant) => leq(PermissionKey(a), PermissionKey(b))
  }

  /** Some operation asks for the permission at that level. */
  predicate AsksFor(operations: seq<Operation>, name: string, scope: Scope, level: Level) {
    exists o :: o in operations && Grant(name, level, scope) in o.permissions
  }

  /** Every permission at the higher of the levels asked for, and no other. */
  ghost predicate HighestLevels(operations: seq<Operation>, grants: seq<Grant>) {
    && (forall name, scope :: Grant(name, Write, scope) in grants <==> AsksFor(operations, name, scope, Write))
    && (forall name, scope ::
          Grant(name, Read, scope) in grants <==>
          AsksFor(operations, name, scope, Read) && !AsksFor(operations, name, scope, Write))
  }

  /** One entry per permission, in key order, each required by some operation, all of them covering
      every operation. */
  ghost predicate IsUnion(leq: (string, string) -> bool, required: seq<Grant>, union: seq<Grant>) {
    && KeysDistinct(union, PermissionKey) && Sorted(KeyLeq(leq), union)
    && (forall g :: g in union ==> g in required)
    && (forall p :: p in required ==> Covered(union, p))
  }

  lemma PickCover(grants: seq<Grant>, p: Grant) returns (g: Grant)
    requires Covered(grants, p)
    ensures g in grants && g.scope == p.scope && g.name == p.name && Rank(g.level) >= Rank(p.level)
    ensures PermissionKey(g) == PermissionKey(p)
  {
    g :| g in grants && g.scope == p.scope && g.name == p.name && Rank(g.level) >= Rank(p.level);
  }

  lemma CoveredThrough(union: seq<Grant>, grants: seq<Grant>, p: Grant)
    requires Covered(union, p) && forall g :: g in union ==> Covered(grants, g)
    ensures Covered(grants, p)
  {
    hide PermissionKey;
    var g := PickCover(union, p);
    var h := PickCover(grants, g);
  }

  /** The union is the least upper bound: a set of grants covers all operations exactly when it
      covers the union. */
  lemma UnionIsLeast(leq: (string, string) -> bool, required: seq<Grant>, union: seq<Grant>, grants: seq<Grant>)
    requires IsUnion(leq, required, union)
    ensures (forall p :: p in required ==> Covered(grants, p)) <==> (forall g :: g in union ==> Covered(grants, g))
  {
    hide Covered;
    if forall g :: g in union ==> Covered(grants, g) {
      forall p | p in required ensures Covered(grants, p) { CoveredThrough(union, grants, p); }
    }
  }

  lemma UnionsShare(leq: (string, string) -> bool, required: seq<Grant>, union: seq<Grant>, other: seq<Grant>, g: Grant)
    requires IsUnion(leq, required, union) && IsUnion(leq, required, other) && g in union
    ensures g in other
  {
    hide Covered;
    hide PermissionKey;
    var h := PickCover(other, g);
    var k := PickCover(union, h);
    KeyOwner(union, PermissionKey, g, k);
    assert g == h;
  }

  lemma DistinctByKey(grants: seq<Grant>)
    requires KeysDistinct(grants, PermissionKey)
    ensures Distinct(grants)
  {
    forall i, j | 0 <= i < j < |grants| ensures grants[i] != grants[j] {
      assert Keys(grants, PermissionKey)[i] != Keys(grants, PermissionKey)[j];
    }
  }

  /** There is one union, whatever the order and repetition of the operations. */
  lemma UnionUnique(leq: (string, string) -> bool, required: seq<Grant>, other: seq<Grant>, union: seq<Grant>, union': seq<Grant>)
    requires TotalOrder(leq) && IsUnion(leq, required, union) && IsUnion(leq, other, union')
    requires forall p :: p in required <==> p in other
    ensures union == union'
  {
    assert IsUnion(leq, required, union');
    forall g ensures g in union <==> g in union' {
      if g in union { UnionsShare(leq, required, union, union', g); }
      if g in union' { UnionsShare(leq, required, union', union, g); }
    }
    DistinctByKey(union);
    DistinctByKey(union');
    DistinctSameSet(union, union');
    forall a, b | a in union && b in union && KeyLeq(leq)(a, b) && KeyLeq(leq)(b, a) ensures a == b {
      KeyOwner(union, PermissionKey, a, b);
    }
    SortedUnique(KeyLeq(leq), union, union');
  }

  /** The Map of the loop: the highest level met so far for each key. */
  ghost predicate MapUnion(byKey: map<string, Grant>, seen: seq<Grant>) {
    && (forall k :: k in byKey ==> PermissionKey(byKey[k]) == k && byKey[k] in seen)
    && (forall p :: p in seen ==> PermissionKey(p) in byKey && Rank(byKey[PermissionKey(p)].level) >= Rank(p.level))
  }

  lemma MapUnionGrows(byKey: map<string, Grant>, seen: seq<Grant>, p: Grant)
    requires MapUnion(byKey, seen)
    ensures var key := PermissionKey(p);
      MapUnion(
        if key !in byKey || Rank(p.level) > Rank(byKey[key].level) then byKey[key := p] else byKey,
        seen + [p])
  {
  }

  method CollectHighest(operations: seq<Operation>) returns (byKey: map<string, Grant>, order: seq<string>)
    ensures MapUnion(byKey, Required(operations))
    ensures Distinct(order) && forall k :: k in order <==> k in byKey
  {
    hide MapUnion;
    hide PermissionKey;
    byKey, order := map[], [];
    EmptyUnion();
    for i := 0 to |operations|
      invariant MapUnion(byKey, Required(operations[..i]))
      invariant Distinct(order) && forall k :: k in order <==> k in byKey
    {
      assert operations[..i + 1][..i] == operations[..i];
      ghost var before := Required(operations[..i]);
      var permissions := operations[i].permissions;
      assert before + permissions[..0] == before;
      for j := 0 to |permissions|
        invariant MapUnion(byKey, before + permissions[..j])
        invariant Distinct(order) && forall k :: k in order <==> k in byKey
      {
        var permission := permissions[j];
        var key := PermissionKey(permission);
        MapUnionGrows(byKey, before + permissions[..j], permission);
        assert before + permissions[..j + 1] == before + permissions[..j] + [permission];
        if key !in byKey || Rank(permission.level) > Rank(byKey[key].level) {
          order := if key in byKey then order else order + [key];
          byKey := byKey[key := permission];
        }
      }
      assert permissions[..|permissions|] == permissions;
    }
    assert operations[..|operations|] == operations;
  }

  lemma EmptyUnion()
    ensures MapUnion(map[], [])
  {
  }

  lemma KeyOrderTotal(leq: (string, string) -> bool)
    requires TotalOrder(leq)
    ensures TotalPreorder(KeyLeq(leq))
  {
    var k := KeyLeq(leq);
    forall a, b ensures k(a, b) || k(b, a) { assert leq(PermissionKey(a), PermissionKey(b)) || leq(PermissionKey(b), PermissionKey(a)); }
    forall a, b, c | k(a, b) && k(b, c) ensures k(a, c) {
      assert leq(PermissionKey(a), PermissionKey(b)) && leq(PermissionKey(b), PermissionKey(c));
    }
  }

  /** IsUnion but for the order. */
  ghost predicate HoldsUnion(required: seq<Grant>, grants: seq<Grant>) {
    && KeysDistinct(grants, PermissionKey)
    && (forall g :: g in grants ==> g in required)
    && (forall p :: p in required ==> Covered(grants, p))
  }

  lemma AskedIsRequired(operations: seq<Operation>, name: string, scope: Scope, level: Level)
    ensures Grant(name, level, scope) in Required(operations) <==> AsksFor(operations, name, scope, level)
  {
  }

  lemma UnionEntry(operations: seq<Operation>, grants: seq<Grant>, name: string, scope: Scope)
    requires HoldsUnion(Required(operations), grants)
    ensures Grant(name, Write, scope) in grants <==> AsksFor(operations, name, scope, Write)
    ensures Grant(name, Read, scope) in grants <==>
      AsksFor(operations, name, scope, Read) && !AsksFor(operations, name, scope, Write)
  {
    hide PermissionKey;
    hide Covered;
    hide AsksFor;
    hide Required;
    var read, write := Grant(name, Read, scope), Grant(name, Write, scope);
    AskedIsRequired(operations, name, scope, Read);
    AskedIsRequired(operations, name, scope, Write);
    if write in Required(operations) {
      var g := PickCover(grants, write);
      assert g == write;
      PermissionKeyTells(read, write);
      if read in grants { KeyOwner(grants, PermissionKey, read, write); }
    } else if read in Required(operations) {
      var g := PickCover(grants, read);
      assert g == read || g == write;
    }
  }

  /** Level by level: a list holds the union exactly when it repeats nothing and has every permission
      at write if some operation asks for it at write, and at read if only that is asked for. */
  lemma UnionByLevels(operations: seq<Operation>, grants: seq<Grant>)
    ensures HoldsUnion(Required(operations), grants) <==> Distinct(grants) && HighestLevels(operations, grants)
  {
    hide PermissionKey;
    hide AsksFor;
    hide Covered;
    if HoldsUnion(Required(operations), grants) {
      DistinctByKey(grants);
      forall name, scope
        ensures Grant(name, Write, scope) in grants <==> AsksFor(operations, name, scope, Write)
        ensures Grant(name, Read, scope) in grants <==>
          AsksFor(operations, name, scope, Read) && !AsksFor(operations, name, scope, Write)
      {
        UnionEntry(operations, grants, name, scope);
      }
    }
    if Distinct(grants) && HighestLevels(operations, grants) { LevelsHoldUnion(operations, grants); }
  }

  lemma LevelsCover(operations: seq<Operation>, grants: seq<Grant>, p: Grant)
    requires HighestLevels(operations, grants) && p in Required(operations)
    ensures Covered(grants, p)
  {
    assert AsksFor(operations, p.name, p.scope, p.level) by { assert p == Grant(p.name, p.level, p.scope); }
    hide AsksFor;
    if AsksFor(operations, p.name, p.scope, Write) {
      assert Grant(p.name, Write, p.scope) in grants;
    } else {
      assert p.level == Read && Grant(p.name, Read, p.scope) in grants;
    }
  }

  lemma LevelsRequired(operations: seq<Operation>, grants: seq<Grant>, g: Grant)
    requires HighestLevels(operations, grants) && g in grants
    ensures g in Required(operations)
  {
    assert AsksFor(operations, g.name, g.scope, g.level) by { ByLevel(operations, grants, g); }
    assert g == Grant(g.name, g.level, g.scope);
  }

  lemma ByLevel(operations: seq<Operation>, grants: seq<Grant>, g: Grant)
    requires HighestLevels(operations, grants) && g in grants
    ensures AsksFor(operations, g.name, g.scope, g.level)
    ensures g.level == Read ==> !AsksFor(operations, g.name, g.scope, Write)
  {
    hide AsksFor;
    if g.level == Write { assert g == Grant(g.name, Write, g.scope); } else { assert g == Grant(g.name, Read, g.scope); }
  }

  /** At most one level for each permission. */
  lemma LevelsApart(operations: seq<Operation>, grants: seq<Grant>, g: Grant, h: Grant)
    requires HighestLevels(operations, grants) && g in grants && h in grants && g != h
    ensures PermissionKey(g) != PermissionKey(h)
  {
    hide AsksFor;
    PermissionKeyTells(g, h);
    ByLevel(operations, grants, g);
    ByLevel(operations, grants, h);
  }

  lemma LevelsHoldUnion(operations: seq<Operation>, grants: seq<Grant>)
    requires Distinct(grants) && HighestLevels(operations, grants)
    ensures HoldsUnion(Required(operations), grants)
  {
    hide PermissionKey;
    hide HighestLevels;
    hide Covered;
    forall g | g in grants ensures g in Required(operations) { LevelsRequired(operations, grants, g); }
    forall p | p in Required(operations) ensures Covered(grants, p) { LevelsCover(operations, grants, p); }
    forall i, j | 0 <= i < j < |grants|
      ensures Keys(grants, PermissionKey)[i] != Keys(grants, PermissionKey)[j]
    {
      LevelsApart(operations, grants, grants[i], grants[j]);
    }
  }

  lemma ValuesHoldUnion(byKey: map<string, Grant>, order: seq<string>, values: seq<Grant>, required: seq<Grant>)
    requires MapUnion(byKey, required) && Distinct(order) && forall k :: k in order <==> k in byKey
    requires |values| == |order| && forall i :: 0 <= i < |order| ==> values[i] == byKey[order[i]]
    ensures HoldsUnion(required, values)
  {
    hide PermissionKey;
    hide Covered;
    assert Keys(values, PermissionKey) == order;
    forall g | g in values ensures g in required {
      var i :| 0 <= i < |values| && values[i] == g;
      assert order[i] in order;
    }
    forall p | p in required ensures Covered(values, p) {
      var i :| 0 <= i < |order| && order[i] == PermissionKey(p);
      KeyCovers(values, values[i], p);
    }
  }

  lemma CoveredPermutes(xs: seq<Grant>, ys: seq<Grant>, p: Grant)
    requires Covered(xs, p) && multiset(xs) == multiset(ys)
    ensures Covered(ys, p)
  {
    SameElements(xs, ys);
    var g := PickCover(xs, p);
  }

  lemma SortedUnion(leq: (string, string) -> bool, values: seq<Grant>, required: seq<Grant>)
    requires TotalOrder(leq) && HoldsUnion(required, values)
    ensures IsUnion(leq, required, Sort(KeyLeq(leq), values))
  {
    hide PermissionKey;
    hide Covered;
    var union := Sort(KeyLeq(leq), values);
    KeyOrderTotal(leq);
    SortSorts(KeyLeq(leq), values);
    SameElements(union, values);
    KeysPermute(values, union, PermissionKey);
    forall p | p in required ensures Covered(union, p) { CoveredPermutes(values, union, p); }
  }

  lemma KeyCovers(grants: seq<Grant>, g: Grant, p: Grant)
    requires g in grants && PermissionKey(g) == PermissionKey(p) && Rank(g.level) >= Rank(p.level)
    ensures Covered(grants, p)
  {
    PermissionKeyTells(g, p);
  }

  method ComputeLeastPrivilegeUnion(leq: (string, string) -> bool, operations: seq<Operation>) returns (union: seq<Grant>)
    requires TotalOrder(leq)
    ensures IsUnion(leq, Required(operations), union)
    ensures Distinct(union) && HighestLevels(operations, union)
  {
    var byKey, order := CollectHighest(operations);
    var values := seq(|order|, i requires 0 <= i < |order| && forall k :: k in order ==> k in byKey => byKey[order[i]]);
    ValuesHoldUnion(byKey, order, values, Required(operations));
    SortedUnion(leq, values, Required(operations));
    union := Sort(KeyLeq(leq), values);
    UnionHolds(leq, Required(operations), union);
    UnionByLevels(operations, union);
  }

  /** A list equals the union as a set of grants exactly when it is the union but for the order. */
  lemma EqualsUnionExactly(leq: (string, string) -> bool, required: seq<Grant>, union: seq<Grant>, grants: seq<Grant>)
    requires TotalOrder(leq) && IsUnion(leq, required, union)
    ensures PermissionsEqual(grants, union) <==> HoldsUnion(required, grants)
  {
    hide PermissionKey;
    hide Covered;
    if PermissionsEqual(grants, union) {
      SameElements(grants, union);
      KeysPermute(grants, union, PermissionKey);
      forall p | p in required ensures Covered(grants, p) { CoveredPermutes(union, grants, p); }
    }
    if HoldsUnion(required, grants) {
      SortedUnion(leq, grants, required);
      UnionUnique(leq, required, required, union, Sort(KeyLeq(leq), grants));
      DistinctByKey(grants);
    }
  }

  // ----- validateGitHubAppRegistrationPlan -----

  datatype Issue =
    | NameIssue | DeniedIssue | VersionIssue | OperationsIssue | DeniedNamesIssue | UnionIssue | PlanDigestIssue
    | ExpiryIssue | FreshnessIssue | OwnerIssue | AppIssue | InstallationIssue | RepositoriesIssue | PermissionsIssue
    | MarkerIssue

  /** An operation with its grants read as a multiset. */
  datatype OperationView = OperationView(operationId: string, permissions: multiset<Grant>)

  function View(o: Operation): OperationView { OperationView(o.operationId, multiset(o.permissions)) }

  ghost function OperationAccept(): (Operation, Operation) -> bool {
    (expected: Operation, observed: Operation) => PermissionsEqual(observed.permissions, expected.permissions)
  }

  /** The reviewed version and denied names, the reviewed operations up to order, and their union. */
  ghost predicate PlanValid(m: Manifest, plan: Plan) {
    && plan.manifestVersion == m.version
    && multiset(Keys(plan.operations, View)) == multiset(Keys(m.operations, View))
    && multiset(plan.deniedPermissionNames) == multiset(m.denied)
    && HoldsUnion(Required(m.operations), plan.leastPrivilegeUnion)
  }

  function ViewId(v: OperationView): string { v.operationId }

  lemma IdsOfViews(operations: seq<Operation>)
    ensures Keys(Keys(operations, View), ViewId) == Keys(operations, OperationId)
  {
  }

  lemma OperationsExactly(m: Manifest, operations: seq<Operation>)
    requires ManifestSound(m)
    ensures KeysDistinct(operations, OperationId) && Covers(m.operations, operations, OperationId, OperationAccept())
      <==> multiset(Keys(operations, View)) == multiset(Keys(m.operations, View))
  {
    if multiset(Keys(operations, View)) == multiset(Keys(m.operations, View)) {
      IdsOfViews(operations);
      IdsOfViews(m.operations);
      KeysPermute(Keys(operations, View), Keys(m.operations, View), ViewId);
    }
    if KeysDistinct(operations, OperationId) {
      forall e, o | e in m.operations && o in operations && OperationId(o) == OperationId(e)
        ensures OperationAccept()(e, o) <==> View(o) == View(e)
      {
        if View(o) == View(e) { DistinctPermutes(e.permissions, o.permissions); }
      }
      CoversExactly(m.operations, operations, OperationId, View, OperationAccept());
    }
  }

  lemma DeniedExactly(m: Manifest, names: seq<string>)
    requires ManifestSound(m)
    ensures SameDistinct(names, m.denied) <==> multiset(names) == multiset(m.denied)
  {
    if SameDistinct(names, m.denied) { DistinctSameSet(names, m.denied); }
    if multiset(names) == multiset(m.denied) {
      DistinctPermutes(m.denied, names);
      SameElements(names, m.denied);
    }
  }

  method CheckOperations(m: Manifest, operations: seq<Operation>) returns (issues: seq<Issue>)
    ensures issues == [] <==>
      KeysDistinct(operations, OperationId) && Covers(m.operations, operations, OperationId, OperationAccept())
  {
    hide PermissionsEqual;
    issues := [];
    var observedById := IndexBy(operations, OperationId);
    IndexSize(operations, OperationId);
    if |observedById| != |operations| { issues := issues + [OperationsIssue]; }
    var extra := FindUnplanned(m.operations, operations, OperationId);
    ghost var distinct := KeysDistinct(operations, OperationId);
    for i := 0 to |m.operations|
      invariant issues == [] ==> distinct
      invariant distinct ==>
        (issues == [] <==> forall j :: 0 <= j < i ==> Answered(m.operations[j], operations, OperationId, OperationAccept()))
    {
      var expected := m.operations[i];
      if distinct { LookupExactly(expected, operations, OperationId, OperationAccept()); }
      if expected.operationId !in observedById {
        issues := issues + [OperationsIssue];
      } else {
        var equal := PermissionsExactlyEqual(observedById[expected.operationId].permissions, expected.permissions);
        if !equal { issues := issues + [OperationsIssue]; }
      }
    }
    if extra != [] { issues := issues + [OperationsIssue]; }
  }

  method CheckDenied(m: Manifest, names: seq<string>) returns (issues: seq<Issue>)
    requires Distinct(m.denied)
    ensures issues == [] <==> SameDistinct(names, m.denied)
  {
    issues := [];
    var expected, observed := ToSet(m.denied), ToSet(names);
    SetSizeTellsDistinct(names);
    if |observed| != |names| { issues := issues + [DeniedNamesIssue]; }
    for i := 0 to |m.denied|
      invariant issues == [] <==> Distinct(names) && forall j :: 0 <= j < i ==> m.denied[j] in observed
    {
      if m.denied[i] !in observed { issues := issues + [DeniedNamesIssue]; }
    }
    ghost var complete := issues == [];
    for i := 0 to |names|
      invariant issues == [] <==> complete && forall j :: 0 <= j < i ==> names[j] in expected
    {
      if names[i] !in expected { issues := issues + [DeniedNamesIssue]; }
    }
    assert forall j :: 0 <= j < |m.denied| ==> m.denied[j] in m.denied;
    assert forall j :: 0 <= j < |names| ==> names[j] in names;
  }

  method ValidateGitHubAppRegistrationPlan(leq: (string, string) -> bool, m: Manifest, plan: Plan) returns (issues: seq<Issue>)
    requires TotalOrder(leq) && ManifestSound(m)
    ensures issues == [] <==> PlanValid(m, plan)
  {
    hide HoldsUnion;
    hide IsUnion;
    hide Covers;
    hide PermissionsEqual;
    if plan.manifestVersion != m.version { return [VersionIssue]; }
    OperationsExactly(m, plan.operations);
    DeniedExactly(m, plan.deniedPermissionNames);
    issues := CheckOperations(m, plan.operations);
    var found := CheckDenied(m, plan.deniedPermissionNames);
    issues := issues + found;
    var expectedUnion := ComputeLeastPrivilegeUnion(leq, m.operations);
    EqualsUnionExactly(leq, Required(m.operations), expectedUnion, plan.leastPrivilegeUnion);
    var equal := PermissionsExactlyEqual(plan.leastPrivilegeUnion, expectedUnion);
    if !equal { issues := issues + [UnionIssue]; }
  }

  // ----- planGitHubAppRegistration -----

  predicate Blank(s: string) { forall i :: 0 <= i < |s| ==> IsWhitespace(s[i]) }

  predicate NoneDenied(m: Manifest, grants: seq<Grant>) { forall g :: g in grants ==> g.name !in m.denied }

  /** A grant of the union carries a denied name exactly when some operation asks for one. */
  lemma DeniedInUnion(m: Manifest, union: seq<Grant>)
    requires HoldsUnion(Required(m.operations), union)
    ensures NoneDenied(m, union) <==> NoneDenied(m, Required(m.operations))
  {
    if NoneDenied(m, union) {
      forall p | p in Required(m.operations) ensures p.name !in m.denied { var g := PickCover(union, p); }
    }
  }

  lemma BuiltPlanValid(leq: (string, string) -> bool, m: Manifest, plan: Plan)
    requires plan.manifestVersion == m.version && plan.operations == m.operations && plan.deniedPermissionNames == m.denied
    requires IsUnion(leq, Required(m.operations), plan.leastPrivilegeUnion)
    ensures PlanValid(m, plan)
  {
    hide Covered;
    hide PermissionKey;
  }

  lemma UnionHolds(leq: (string, string) -> bool, required: seq<Grant>, union: seq<Grant>)
    requires IsUnion(leq, required, union)
    ensures HoldsUnion(required, union)
  {
    hide Covered;
    hide PermissionKey;
  }

  /** A plan can be made exactly for a name that is not blank and a manifest whose operations ask
      for nothing it denies; every plan made validates. */
  method PlanGitHubAppRegistration(leq: (string, string) -> bool, m: Manifest, appName: string, generatedAt: int)
    returns (r: Result<Plan, seq<Issue>>)
    requires TotalOrder(leq) && ManifestSound(m)
    ensures r.Ok? <==> !Blank(appName) && NoneDenied(m, Required(m.operations))
    ensures r.Ok? ==> PlanValid(m, r.value) && IsUnion(leq, Required(m.operations), r.value.leastPrivilegeUnion)
    ensures r.Ok? ==> Distinct(r.value.leastPrivilegeUnion) && HighestLevels(m.operations, r.value.leastPrivilegeUnion)
    ensures r.Ok? ==> r.value.appName == appName && r.value.operations == m.operations && r.value.deniedPermissionNames == m.denied
    ensures r.Ok? ==> r.value.generatedAt == generatedAt && r.value.nonAuthoritative == Marker(true, true, true)
    ensures r.Err? ==> r.error == if Blank(appName) then [NameIssue] else [DeniedIssue]
  {
    hide IsUnion;
    hide HoldsUnion;
    hide PlanValid;
    hide ManifestSound;
    hide TotalOrder;
    hide HighestLevels;
    if Blank(appName) { return Err([NameIssue]); }
    var union := ComputeLeastPrivilegeUnion(leq, m.operations);
    UnionHolds(leq, Required(m.operations), union);
    DeniedInUnion(m, union);
    if exists g :: g in union && g.name in m.denied { return Err([DeniedIssue]); }
    var plan := Plan(generatedAt, m.version, appName, m.operations, m.denied, union, Marker(true, true, true));
    BuiltPlanValid(leq, m, plan);
    var issues := ValidateGitHubAppRegistrationPlan(leq, m, plan);
    if |issues| > 0 { return Err(issues); }
    return Ok(plan);
  }

  // ----- compareGitHubAppPermissionReadback -----

  datatype AccountType = OrganizationAccount | UserAccount

  /** Owner, App and installation. */
  datatype Identity = Identity(
    ownerId: int, ownerNodeId: string, ownerLogin: string, accountType: AccountType, appId: int, appNodeId: string,
    installationId: int)

  datatype Target = Target(
    approvedAt: int, approvedBy: string, expiresAt: int, identity: Identity, selectedRepositories: seq<AP.Repository>)

  datatype Readback = Readback(
    observedAt: int, planDigest: string, identity: Identity, selectedRepositories: seq<AP.Repository>,
    observedPermissions: seq<Grant>, nonAuthoritative: Marker)

  /** localeCompare, the plan digest, and the decimal text of integers. */
  datatype Env = Env(leq: (string, string) -> bool, digest: Plan -> string, numeral: int -> string)

  ghost predicate EnvSound(env: Env) {
    && TotalOrder(env.leq)
    && (forall n, i :: 0 <= i < |env.numeral(n)| ==> env.numeral(n)[i] != ':')
    && (forall a, b :: env.numeral(a) == env.numeral(b) ==> a == b)
  }

  /** `${repository.id}:${repository.nodeId}` */
  function RepositoryKey(env: Env): AP.Repository -> string {
    (r: AP.Repository) => env.numeral(r.id) + ":" + r.nodeId
  }

  function RepositoryIdentity(r: AP.Repository): (int, string) { (r.id, r.nodeId) }

  function FirstColon(s: string): nat { if s == "" || s[0] == ':' then 0 else 1 + FirstColon(s[1..]) }

  lemma {:induction false} FirstColonAt(x: string, y: string)
    requires forall i :: 0 <= i < |x| ==> x[i] != ':'
    ensures FirstColon(x + ":" + y) == |x|
  {
    if x != "" {
      FirstColonAt(x[1..], y);
      assert (x + ":" + y)[1..] == x[1..] + ":" + y;
    }
  }

  lemma RepositoryKeyTells(env: Env, a: AP.Repository, b: AP.Repository)
    requires EnvSound(env)
    ensures RepositoryKey(env)(a) == RepositoryKey(env)(b) <==> RepositoryIdentity(a) == RepositoryIdentity(b)
  {
    if RepositoryKey(env)(a) == RepositoryKey(env)(b) {
      FirstColonAt(env.numeral(a.id), a.nodeId);
      FirstColonAt(env.numeral(b.id), b.nodeId);
      var k, m := RepositoryKey(env)(a), |env.numeral(a.id)|;
      assert k[..m] == env.numeral(a.id) && k[..m] == env.numeral(b.id);
      assert k[m + 1..] == a.nodeId && k[m + 1..] == b.nodeId;
    }
  }

  /** The same repositories by numeric and node id, each listed once on both sides. */
  ghost predicate RepositoriesSame(left: seq<AP.Repository>, right: seq<AP.Repository>) {
    SameDistinct(Keys(left, RepositoryIdentity), Keys(right, RepositoryIdentity))
  }

  lemma RepositoryKeysDistinct(env: Env, rs: seq<AP.Repository>)
    requires EnvSound(env)
    ensures KeysDistinct(rs, RepositoryKey(env)) <==> KeysDistinct(rs, RepositoryIdentity)
  {
    var k := RepositoryKey(env);
    forall i, j | 0 <= i < j < |rs|
      ensures Keys(rs, k)[i] != Keys(rs, k)[j] <==> Keys(rs, RepositoryIdentity)[i] != Keys(rs, RepositoryIdentity)[j]
    {
      RepositoryKeyTells(env, rs[i], rs[j]);
    }
  }

  lemma RepositoryKeyListed(env: Env, rs: seq<AP.Repository>, r: AP.Repository)
    requires EnvSound(env)
    ensures RepositoryKey(env)(r) in Keys(rs, RepositoryKey(env)) <==> RepositoryIdentity(r) in Keys(rs, RepositoryIdentity)
  {
    KeyListed(rs, RepositoryKey(env), RepositoryKey(env)(r));
    KeyListed(rs, RepositoryIdentity, RepositoryIdentity(r));
    forall x | x in rs
      ensures RepositoryKey(env)(x) == RepositoryKey(env)(r) <==> RepositoryIdentity(x) == RepositoryIdentity(r)
    {
      RepositoryKeyTells(env, x, r);
    }
  }

  lemma SameByRepositoryKeys(env: Env, left: seq<AP.Repository>, right: seq<AP.Repository>)
    requires EnvSound(env)
    ensures SameDistinct(Keys(left, RepositoryKey(env)), Keys(right, RepositoryKey(env))) <==> RepositoriesSame(left, right)
  {
    hide EnvSound;
    var k := RepositoryKey(env);
    RepositoryKeysDistinct(env, left);
    RepositoryKeysDistinct(env, right);
    SameKeysExactly(left, right, k);
    SameKeysExactly(left, right, RepositoryIdentity);
    forall r: AP.Repository
      ensures k(r) in Keys(left, k) <==> RepositoryIdentity(r) in Keys(left, RepositoryIdentity)
      ensures k(r) in Keys(right, k) <==> RepositoryIdentity(r) in Keys(right, RepositoryIdentity)
    {
      RepositoryKeyListed(env, left, r);
      RepositoryKeyListed(env, right, r);
    }
  }

  /** Two lists have the same keys when each item's key is found on the other side. */
  lemma SameKeysExactly<T(!new), K(!new)>(left: seq<T>, right: seq<T>, keyOf: T -> K)
    ensures (forall k :: k in Keys(left, keyOf) <==> k in Keys(right, keyOf)) <==>
      (forall x :: x in left ==> keyOf(x) in Keys(right, keyOf)) && (forall x :: x in right ==> keyOf(x) in Keys(left, keyOf))
  {
    forall k
      ensures k in Keys(left, keyOf) <==> exists x :: x in left && keyOf(x) == k
      ensures k in Keys(right, keyOf) <==> exists x :: x in right && keyOf(x) == k
    {
      KeyListed(left, keyOf, k);
      KeyListed(right, keyOf, k);
    }
  }

  method CompareTarget(env: Env, target: Target, readback: Readback) returns (issues: seq<Issue>)
    requires EnvSound(env)
    ensures issues == [] <==>
      readback.identity == target.identity && RepositoriesSame(readback.selectedRepositories, target.selectedRepositories)
  {
    hide EnvSound;
    var observed, approved := readback.identity, target.identity;
    issues := [];
    if observed.ownerId != approved.ownerId { issues := issues + [OwnerIssue]; }
    if observed.ownerNodeId != approved.ownerNodeId { issues := issues + [OwnerIssue]; }
    if observed.ownerLogin != approved.ownerLogin { issues := issues + [OwnerIssue]; }
    if observed.accountType != approved.accountType { issues := issues + [OwnerIssue]; }
    if observed.appId != approved.appId { issues := issues + [AppIssue]; }
    if observed.appNodeId != approved.appNodeId { issues := issues + [AppIssue]; }
    if observed.installationId != approved.installationId { issues := issues + [InstallationIssue]; }
    SameByRepositoryKeys(env, readback.selectedRepositories, target.selectedRepositories);
    var same := SetsExactlyEqual(Keys(readback.selectedRepositories, RepositoryKey(env)), Keys(target.selectedRepositories, RepositoryKey(env)));
    if !same { issues := issues + [RepositoriesIssue]; }
  }

  /** What the two permission loops check, given that no key repeats on either side. */
  ghost predicate LoopsPass(m: Manifest, union: seq<Grant>, observed: seq<Grant>) {
    && NoneDenied(m, observed)
    && (forall o :: o in observed ==>
          PermissionKey(o) in IndexBy(union, PermissionKey) && IndexBy(union, PermissionKey)[PermissionKey(o)].level == o.level)
    && (forall p :: p in union ==> PermissionKey(p) in IndexBy(observed, PermissionKey))
  }

  lemma LoopsPassExactly(m: Manifest, union: seq<Grant>, observed: seq<Grant>)
    requires KeysDistinct(union, PermissionKey) && KeysDistinct(observed, PermissionKey)
    ensures LoopsPass(m, union, observed) <==> NoneDenied(m, union) && multiset(observed) == multiset(union)
  {
    DistinctByKey(union);
    DistinctByKey(observed);
    if LoopsPass(m, union, observed) {
      forall g ensures g in observed <==> g in union {
        if g in observed { LookupIsSame(union, g); }
        if g in union {
          IndexFinds(observed, PermissionKey, PermissionKey(g));
          var o := IndexBy(observed, PermissionKey)[PermissionKey(g)];
          LookupIsSame(union, o);
          KeyOwner(union, PermissionKey, g, o);
        }
      }
      DistinctSameSet(observed, union);
    }
    if NoneDenied(m, union) && multiset(observed) == multiset(union) {
      SameElements(observed, union);
      forall o | o in observed
        ensures PermissionKey(o) in IndexBy(union, PermissionKey) && IndexBy(union, PermissionKey)[PermissionKey(o)] == o
      {
        FoundByKey(union, o);
      }
      forall p | p in union ensures PermissionKey(p) in IndexBy(observed, PermissionKey) { FoundByKey(observed, p); }
    }
  }

  lemma FoundByKey(grants: seq<Grant>, g: Grant)
    requires KeysDistinct(grants, PermissionKey) && g in grants
    ensures PermissionKey(g) in IndexBy(grants, PermissionKey) && IndexBy(grants, PermissionKey)[PermissionKey(g)] == g
  {
    hide PermissionKey;
    IndexFinds(grants, PermissionKey, PermissionKey(g));
    KeyListed(grants, PermissionKey, PermissionKey(g));
    KeyOwner(grants, PermissionKey, g, IndexBy(grants, PermissionKey)[PermissionKey(g)]);
  }

  lemma LookupIsSame(grants: seq<Grant>, g: Grant)
    requires PermissionKey(g) in IndexBy(grants, PermissionKey)
    requires IndexBy(grants, PermissionKey)[PermissionKey(g)].level == g.level
    ensures g in grants
  {
    IndexFinds(grants, PermissionKey, PermissionKey(g));
    PermissionKeyTells(IndexBy(grants, PermissionKey)[PermissionKey(g)], g);
  }

  method ComparePermissions(m: Manifest, union: seq<Grant>, observed: seq<Grant>) returns (issues: seq<Issue>)
    ensures issues == [] <==> LoopsPass(m, union, observed)
  {
    hide PermissionKey;
    issues := [];
    var plannedByKey, observedByKey := IndexBy(union, PermissionKey), IndexBy(observed, PermissionKey);
    for i := 0 to |observed|
      invariant issues == [] <==> forall j :: 0 <= j < i ==>
        && observed[j].name !in m.denied && PermissionKey(observed[j]) in plannedByKey
        && plannedByKey[PermissionKey(observed[j])].level == observed[j].level
    {
      var key := PermissionKey(observed[i]);
      if observed[i].name in m.denied {
        issues := issues + [PermissionsIssue];
      } else if key !in plannedByKey {
        issues := issues + [PermissionsIssue];
      } else if observed[i].level != plannedByKey[key].level {
        issues := issues + [PermissionsIssue];
      }
    }
    assert forall j :: 0 <= j < |observed| ==> observed[j] in observed;
    ghost var first := issues == [];
    for i := 0 to |union|
      invariant issues == [] <==> first && forall j :: 0 <= j < i ==> PermissionKey(union[j]) in observedByKey
    {
      if PermissionKey(union[i]) !in observedByKey { issues := issues + [PermissionsIssue]; }
    }
    assert forall j :: 0 <= j < |union| ==> union[j] in union;
  }

  /** Accepted: a valid plan bound by digest, an unexpired approval, a fresh observation of the
      approved identity and repositories, and as permissions exactly the plan's union. */
  ghost predicate Accepted(env: Env, m: Manifest, plan: Plan, target: Target, readback: Readback, window: Window) {
    && PlanValid(m, plan) && readback.planDigest == env.digest(plan)
    && NotExpired(target.expiresAt, window.now) && ObservationFresh(readback.observedAt, window)
    && readback.identity == target.identity
    && RepositoriesSame(readback.selectedRepositories, target.selectedRepositories)
    && multiset(readback.observedPermissions) == multiset(plan.leastPrivilegeUnion)
    && NoneDenied(m, plan.leastPrivilegeUnion) && readback.nonAuthoritative == plan.nonAuthoritative
  }

  method CompareMarker(planned: Marker, observed: Marker) returns (issues: seq<Issue>)
    ensures issues == [] <==> observed == planned
  {
    issues := [];
    if observed.cannotInstallOrTransferApp != planned.cannotInstallOrTransferApp { issues := issues + [MarkerIssue]; }
    if observed.cannotAuthenticateApp != planned.cannotAuthenticateApp { issues := issues + [MarkerIssue]; }
    if observed.cannotMintInstallationToken != planned.cannotMintInstallationToken { issues := issues + [MarkerIssue]; }
  }

  method CompareGitHubAppPermissionReadback(env: Env, m: Manifest, plan: Plan, target: Target, readback: Readback, window: Window)
    returns (issues: seq<Issue>)
    requires EnvSound(env) && ManifestSound(m)
    ensures issues == [] <==> Accepted(env, m, plan, target, readback, window)
  {
    hide PlanValid;
    hide RepositoriesSame;
    hide LoopsPass;
    hide NoneDenied;
    hide ManifestSound;
    issues := ValidateGitHubAppRegistrationPlan(env.leq, m, plan);
    if issues != [] { return; }
    if readback.planDigest != env.digest(plan) { return [PlanDigestIssue]; }
    if !NotExpired(target.expiresAt, window.now) { issues := issues + [ExpiryIssue]; }
    if !ObservationFresh(readback.observedAt, window) { issues := issues + [FreshnessIssue]; }
    if issues != [] { return; }
    issues := CompareTarget(env, target, readback);
    if issues != [] { return; }
    ValidKeys(m, plan, readback.observedPermissions);
    var duplicates := FindDuplicateKeys(readback.observedPermissions, PermissionKey);
    if duplicates != [] { return [PermissionsIssue]; }
    LoopsPassExactly(m, plan.leastPrivilegeUnion, readback.observedPermissions);
    issues := ComparePermissions(m, plan.leastPrivilegeUnion, readback.observedPermissions);
    var found := CompareMarker(plan.nonAuthoritative, readback.nonAuthoritative);
    issues := issues + found;
  }

  lemma ValidKeys(m: Manifest, plan: Plan, observed: seq<Grant>)
    requires PlanValid(m, plan)
    ensures KeysDistinct(plan.leastPrivilegeUnion, PermissionKey)
    ensures multiset(observed) == multiset(plan.leastPrivilegeUnion) ==> KeysDistinct(observed, PermissionKey)
  {
    if multiset(observed) == multiset(plan.leastPrivilegeUnion) {
      KeysPermute(observed, plan.leastPrivilegeUnion, PermissionKey);
    }
  }

  // ----- Main results -----

  /** What an accepted readback shows installed is exactly the least-privilege union: one grant per
      permission, each needed at its level, and together enough for every operation. */
  lemma InstalledIsLeastPrivilege(env: Env, m: Manifest, plan: Plan, target: Target, readback: Readback, window: Window, grants: seq<Grant>)
    requires EnvSound(env) && Accepted(env, m, plan, target, readback, window)
    ensures HoldsUnion(Required(m.operations), readback.observedPermissions)
    ensures (forall p :: p in Required(m.operations) ==> Covered(grants, p)) <==>
      (forall g :: g in readback.observedPermissions ==> Covered(grants, g))
    ensures NoneDenied(m, readback.observedPermissions)
    ensures Distinct(readback.observedPermissions) && HighestLevels(m.operations, readback.observedPermissions)
    ensures 0 <= window.now - readback.observedAt <= window.maxAgeMs && window.now <= target.expiresAt
    ensures readback.planDigest == env.digest(plan) && readback.identity == target.identity
    ensures readback.nonAuthoritative == plan.nonAuthoritative
    ensures forall r :: r in readback.selectedRepositories ==>
      exists t :: t in target.selectedRepositories && (t.id, t.nodeId) == (r.id, r.nodeId)
    ensures forall t :: t in target.selectedRepositories ==>
      exists r :: r in readback.selectedRepositories && (t.id, t.nodeId) == (r.id, r.nodeId)
  {
    hide EnvSound;
    hide HighestLevels;
    hide Covered;
    var observed, union := readback.observedPermissions, plan.leastPrivilegeUnion;
    SameElements(observed, union);
    KeysPermute(observed, union, PermissionKey);
    forall p | p in Required(m.operations) ensures Covered(observed, p) { CoveredPermutes(union, observed, p); }
    assert HoldsUnion(Required(m.operations), observed);
    UnionByLevels(m.operations, observed);
    SameRepositories(readback.selectedRepositories, target.selectedRepositories);
    assert TotalOrder(env.leq) by { TotalLeq(env); }
    SortedUnion(env.leq, observed, Required(m.operations));
    UnionIsLeast(env.leq, Required(m.operations), Sort(KeyLeq(env.leq), observed), grants);
    SameElements(observed, Sort(KeyLeq(env.leq), observed));
  }

  lemma SameRepositories(left: seq<AP.Repository>, right: seq<AP.Repository>)
    requires RepositoriesSame(left, right)
    ensures forall r :: r in left ==> exists t :: t in right && (t.id, t.nodeId) == (r.id, r.nodeId)
    ensures forall t :: t in right ==> exists r :: r in left && (t.id, t.nodeId) == (r.id, r.nodeId)
  {
    forall r: AP.Repository
      ensures RepositoryIdentity(r) in Keys(left, RepositoryIdentity) <==>
        exists x :: x in left && RepositoryIdentity(x) == RepositoryIdentity(r)
      ensures RepositoryIdentity(r) in Keys(right, RepositoryIdentity) <==>
        exists x :: x in right && RepositoryIdentity(x) == RepositoryIdentity(r)
    {
      KeyListed(left, RepositoryIdentity, RepositoryIdentity(r));
      KeyListed(right, RepositoryIdentity, RepositoryIdentity(r));
    }
  }

  lemma TotalLeq(env: Env)
    requires EnvSound(env)
    ensures TotalOrder(env.leq)
  {
  }

  /** A valid plan can be matched by some readback exactly when its manifest asks for nothing it
      denies; the validator itself does not look. */
  lemma MatchableExactly(env: Env, m: Manifest, plan: Plan)
    requires PlanValid(m, plan)
    ensures (exists target, readback, window :: Accepted(env, m, plan, target, readback, window)) <==>
      NoneDenied(m, Required(m.operations))
  {
    DeniedInUnion(m, plan.leastPrivilegeUnion);
    if NoneDenied(m, Required(m.operations)) {
      var identity := Identity(0, "", "", UserAccount, 0, "", 0);
      assert Accepted(env, m, plan, Target(0, "", 1, identity, []),
                      Readback(0, env.digest(plan), identity, [], plan.leastPrivilegeUnion, plan.nonAuthoritative), Window(0, 0));
    }
  }

  const DENIED_GRANT := Grant("x", Read, RepositoryScope)

  const DENYING_MANIFEST := Manifest("1", [Operation("o", [DENIED_GRANT])], ["x"])

  function DenyingPlan(marker: Marker): Plan {
    Plan(0, "1", "a", DENYING_MANIFEST.operations, DENYING_MANIFEST.denied, [DENIED_GRANT], marker)
  }

  lemma DenyingRequires()
    ensures Required(DENYING_MANIFEST.operations) == [DENIED_GRANT]
  {
    var operations := DENYING_MANIFEST.operations;
    assert operations[..0] == [] && Required([]) == [];
    assert [] + [DENIED_GRANT] == [DENIED_GRANT];
  }

  lemma DenyingPlanValid(marker: Marker)
    ensures ManifestSound(DENYING_MANIFEST) && PlanValid(DENYING_MANIFEST, DenyingPlan(marker))
  {
    DenyingRequires();
    hide Required;
    assert DENIED_GRANT in [DENIED_GRANT] && Covered([DENIED_GRANT], DENIED_GRANT);
  }

  /** A manifest that denies what it asks for: its plan validates and no readback matches it. */
  lemma DenyingManifestUnmatchable(env: Env, marker: Marker)
    ensures ManifestSound(DENYING_MANIFEST) && PlanValid(DENYING_MANIFEST, DenyingPlan(marker))
    ensures forall target, readback, window :: !Accepted(env, DENYING_MANIFEST, DenyingPlan(marker), target, readback, window)
  {
    hide ManifestSound;
    hide PlanValid;
    hide Accepted;
    hide Required;
    DenyingPlanValid(marker);
    DenyingRequires();
    assert !NoneDenied(DENYING_MANIFEST, [DENIED_GRANT]) by { assert DENIED_GRANT in [DENIED_GRANT]; }
    MatchableExactly(env, DENYING_MANIFEST, DenyingPlan(marker));
  }

  // ----- The reviewed manifest -----

  function Repo(name: string, level: Level): Grant { Grant(name, level, RepositoryScope) }
  function Org(name: string, level: Level): Grant { Grant(name, level, OrganizationScope) }

  const METADATA := Repo("metadata", Read)

  const REVIEWED_OPERATIONS: seq<Operation> := [
    Operation("resolveBinding",
      [METADATA, Repo("issues", Read), Repo("pull_requests", Read), Org("organization_projects", Read)]),
    Operation("authorizeActor", [METADATA, Org("members", Read), Repo("pull_requests", Read)]),
    Operation("issue-comment", [METADATA, Repo("issues", Write)]),
    Operation("pull-request-review-comment", [METADATA, Repo("pull_requests", Write)]),
    Operation("check-run", [METADATA, Repo("checks", Write), Repo("issues", Write), Repo("pull_requests", Read)]),
    Operation("project-field-update", [METADATA, Repo("issues", Write), Org("organization_projects", Write)])
  ]

  /** GITHUB_PERMISSION_MANIFEST */
  const REVIEWED_MANIFEST := Manifest("1.0.0", REVIEWED_OPERATIONS,
    ["administration", "actions", "deployments", "organization_administration", "repository_hooks", "workflows"])

  /** Its union, in code-unit order of the permission keys. */
  const REVIEWED_UNION: seq<Grant> := [
    Org("members", Read), Org("organization_projects", Write),
    Repo("checks", Write), Repo("issues", Write), METADATA, Repo("pull_requests", Write)]

  lemma UnionRepeatsNothing()
    ensures Distinct(REVIEWED_UNION)
  {
    NamesApart();
  }

  /** An operation that asks for a grant, found by its place. */
  lemma ReviewedAsks(i: nat, g: Grant)
    requires i < 6 && g in REVIEWED_OPERATIONS[i].permissions
    ensures AsksFor(REVIEWED_OPERATIONS, g.name, g.scope, g.level)
  {
    assert REVIEWED_OPERATIONS[i] in REVIEWED_OPERATIONS && g == Grant(g.name, g.level, g.scope);
  }

  lemma ReviewedRequired(g: Grant)
    ensures AsksFor(REVIEWED_OPERATIONS, g.name, g.scope, g.level) <==>
      g in REVIEWED_UNION + [Repo("issues", Read), Repo("pull_requests", Read), Org("organization_projects", Read)]
  {
    if AsksFor(REVIEWED_OPERATIONS, g.name, g.scope, g.level) {
      var o :| o in REVIEWED_OPERATIONS && Grant(g.name, g.level, g.scope) in o.permissions;
      var i :| 0 <= i < 6 && REVIEWED_OPERATIONS[i] == o;
    }
    if g in [METADATA, Repo("issues", Read), Repo("pull_requests", Read), Org("organization_projects", Read)] { ReviewedAsks(0, g); }
    if g == Org("members", Read) { ReviewedAsks(1, g); }
    if g == Repo("pull_requests", Write) { ReviewedAsks(3, g); }
    if g == Repo("checks", Write) || g == Repo("issues", Write) { ReviewedAsks(4, g); }
    if g == Org("organization_projects", Write) { ReviewedAsks(5, g); }
  }

  lemma ReviewedLevels()
    ensures HighestLevels(REVIEWED_OPERATIONS, REVIEWED_UNION)
  {
    hide AsksFor;
    NamesApart();
    forall name, scope
      ensures Grant(name, Write, scope) in REVIEWED_UNION <==> AsksFor(REVIEWED_OPERATIONS, name, scope, Write)
      ensures Grant(name, Read, scope) in REVIEWED_UNION <==>
        AsksFor(REVIEWED_OPERATIONS, name, scope, Read) && !AsksFor(REVIEWED_OPERATIONS, name, scope, Write)
    {
      ReviewedRequired(Grant(name, Read, scope));
      ReviewedRequired(Grant(name, Write, scope));
    }
  }

  /** localeCompare puts the keys of the reviewed union in this order. */
  ghost predicate OrdersReviewedKeys(leq: (string, string) -> bool) {
    && TotalOrder(leq)
    && leq("organization:members", "organization:organization_projects")
    && leq("organization:organization_projects", "repository:checks")
    && leq("repository:checks", "repository:issues") && leq("repository:issues", "repository:metadata")
    && leq("repository:metadata", "repository:pull_requests")
  }

  /** The union of the reviewed operations, entry by entry. */
  lemma ReviewedUnion(leq: (string, string) -> bool, union: seq<Grant>)
    requires OrdersReviewedKeys(leq) && IsUnion(leq, Required(REVIEWED_OPERATIONS), union)
    ensures union == [
      Grant("members", Read, OrganizationScope), Grant("organization_projects", Write, OrganizationScope),
      Grant("checks", Write, RepositoryScope), Grant("issues", Write, RepositoryScope),
      Grant("metadata", Read, RepositoryScope), Grant("pull_requests", Write, RepositoryScope)]
  {
    hide HighestLevels;
    hide HoldsUnion;
    UnionRepeatsNothing();
    ReviewedLevels();
    UnionByLevels(REVIEWED_OPERATIONS, REVIEWED_UNION);
    ReviewedSorted(leq);
    HeldSortedIsUnion(leq, Required(REVIEWED_OPERATIONS), REVIEWED_UNION);
    UnionUnique(leq, Required(REVIEWED_OPERATIONS), Required(REVIEWED_OPERATIONS), union, REVIEWED_UNION);
  }

  lemma HeldSortedIsUnion(leq: (string, string) -> bool, required: seq<Grant>, grants: seq<Grant>)
    requires HoldsUnion(required, grants) && Sorted(KeyLeq(leq), grants)
    ensures IsUnion(leq, required, grants)
  {
  }

  const REVIEWED_KEYS: seq<string> := [
    "organization:members", "organization:organization_projects", "repository:checks",
    "repository:issues", "repository:metadata", "repository:pull_requests"]

  lemma OrganizationKeys()
    ensures PermissionKey(Org("members", Read)) == "organization:members"
    ensures PermissionKey(Org("organization_projects", Write)) == "organization:organization_projects"
  {
    assert "organization" + ":" + "members" == "organization:members";
    assert "organization" + ":" + "organization_projects" == "organization:organization_projects";
  }

  lemma RepositoryKeys()
    ensures PermissionKey(Repo("checks", Write)) == "repository:checks"
    ensures PermissionKey(Repo("issues", Write)) == "repository:issues"
    ensures PermissionKey(METADATA) == "repository:metadata"
    ensures PermissionKey(Repo("pull_requests", Write)) == "repository:pull_requests"
  {
    assert "repository" + ":" + "checks" == "repository:checks";
    assert "repository" + ":" + "issues" == "repository:issues";
    assert "repository" + ":" + "metadata" == "repository:metadata";
    assert "repository" + ":" + "pull_requests" == "repository:pull_requests";
  }

  lemma ReviewedKeyAt(i: nat)
    requires i < 6
    ensures PermissionKey(REVIEWED_UNION[i]) == REVIEWED_KEYS[i]
  {
    hide PermissionKey;
    OrganizationKeys();
    RepositoryKeys();
  }

  lemma ReviewedSorted(leq: (string, string) -> bool)
    requires OrdersReviewedKeys(leq)
    ensures Sorted(KeyLeq(leq), REVIEWED_UNION)
  {
    hide PermissionKey;
    ChainSorted(leq, REVIEWED_KEYS);
    forall i, j | 0 <= i < j < |REVIEWED_UNION| ensures KeyLeq(leq)(REVIEWED_UNION[i], REVIEWED_UNION[j]) {
      ReviewedKeyAt(i);
      ReviewedKeyAt(j);
      assert leq(REVIEWED_KEYS[i], REVIEWED_KEYS[j]);
    }
  }

  lemma ChainSorted(leq: (string, string) -> bool, keys: seq<string>)
    requires TotalOrder(leq) && forall i :: 0 <= i < |keys| - 1 ==> leq(keys[i], keys[i + 1])
    ensures Sorted(leq, keys)
  {
    forall i, j | 0 <= i < j < |keys| ensures leq(keys[i], keys[j]) { ChainOrdered(leq, keys, i, j); }
  }

  lemma {:induction false} ChainOrdered(leq: (string, string) -> bool, keys: seq<string>, i: nat, j: nat)
    requires TotalOrder(leq) && forall i :: 0 <= i < |keys| - 1 ==> leq(keys[i], keys[i + 1])
    requires i < j < |keys|
    ensures leq(keys[i], keys[j])
    decreases j - i
  {
    if i + 1 < j {
      ChainOrdered(leq, keys, i, j - 1);
      assert leq(keys[j - 1], keys[j - 1 + 1]);
    }
  }

  lemma ReviewedIdsDistinct()
    ensures KeysDistinct(REVIEWED_OPERATIONS, OperationId)
  {
    var ids := Keys(REVIEWED_OPERATIONS, OperationId);
    assert |ids[0]| == |ids[1]| == 14 && ids[0][0] != ids[1][0];
    assert |ids[2]| == 13 && |ids[3]| == 27 && |ids[4]| == 9 && |ids[5]| == 20;
  }

  lemma ReviewedSound()
    ensures ManifestSound(REVIEWED_MANIFEST)
  {
    hide KeysDistinct;
    hide Distinct;
    ReviewedIdsDistinct();
    DeniedNamesDistinct();
    forall o | o in REVIEWED_OPERATIONS ensures Distinct(o.permissions) {
      var i :| 0 <= i < 6 && REVIEWED_OPERATIONS[i] == o;
      ReviewedGrants(i);
    }
  }

  lemma DeniedNamesDistinct()
    ensures Distinct(REVIEWED_MANIFEST.denied)
  {
    var d := REVIEWED_MANIFEST.denied;
    assert |d[0]| == 14 && |d[1]| == 7 && |d[2]| == 11 && |d[3]| == 27 && |d[4]| == 16 && |d[5]| == 9;
  }

  /** What the reviewed operations ask for, name by name. */
  predicate IsReviewedName(name: string) {
    || name == "metadata" || name == "issues" || name == "pull_requests" || name == "organization_projects"
    || name == "members" || name == "checks"
  }

  lemma ReviewedGrants(i: nat)
    requires i < 6
    ensures Distinct(REVIEWED_OPERATIONS[i].permissions)
    ensures forall g :: g in REVIEWED_OPERATIONS[i].permissions ==> IsReviewedName(g.name)
  {
    NamesApart();
  }

  lemma NamesApart()
    ensures "metadata" != "issues" && "metadata" != "pull_requests" && "metadata" != "organization_projects"
    ensures "metadata" != "members" && "metadata" != "checks" && "issues" != "pull_requests" && "issues" != "checks"
    ensures "issues" != "organization_projects" && "pull_requests" != "organization_projects"
    ensures "pull_requests" != "members" && "pull_requests" != "checks"
  {
    assert |"metadata"| == 8 && |"issues"| == 6 && |"pull_requests"| == 13 && |"organization_projects"| == 21;
    assert |"members"| == 7 && |"checks"| == 6 && "checks"[0] != "issues"[0];
  }

  lemma ReviewedNotDenied(name: string)
    requires IsReviewedName(name)
    ensures name !in REVIEWED_MANIFEST.denied
  {
    var d := REVIEWED_MANIFEST.denied;
    assert |d[0]| == 14 && |d[1]| == 7 && |d[2]| == 11 && |d[3]| == 27 && |d[4]| == 16 && |d[5]| == 9;
    assert |"metadata"| == 8 && |"issues"| == |"checks"| == 6 && |"pull_requests"| == 13 && |"organization_projects"| == 21;
    assert |"members"| == 7 && "members"[0] != d[1][0];
  }

  /** The reviewed manifest asks for nothing it denies, so every plan the validator passes for it
      can be matched by a readback. */
  lemma ReviewedPlansMatchable(env: Env, plan: Plan)
    requires PlanValid(REVIEWED_MANIFEST, plan)
    ensures ManifestSound(REVIEWED_MANIFEST) && NoneDenied(REVIEWED_MANIFEST, Required(REVIEWED_OPERATIONS))
    ensures exists target, readback, window :: Accepted(env, REVIEWED_MANIFEST, plan, target, readback, window)
  {
    hide PlanValid;
    hide ManifestSound;
    ReviewedSound();
    forall g | g in Required(REVIEWED_OPERATIONS) ensures g.name !in REVIEWED_MANIFEST.denied {
      var o :| o in REVIEWED_OPERATIONS && g in o.permissions;
      var i :| 0 <= i < 6 && REVIEWED_OPERATIONS[i] == o;
      ReviewedGrants(i);
      ReviewedNotDenied(g.name);
    }
    MatchableExactly(env, REVIEWED_MANIFEST, plan);
  }
}

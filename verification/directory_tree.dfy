/** The directory-tree serialiser of the review-agent probe
    (scripts/probe-review-agent-runtime.ts, digestDirectoryTree). */
module DirectoryTree {
  import opened Bits
  import opened Ordering
  import opened Text
  import opened Wrappers
  import C = Canonical
  import P = CanonicalProofs

  /** What lstat finds; `entries` in the order readdir returns them. */
  datatype Node = File(content: seq<Byte>) | Directory(entries: seq<Entry>) | Symlink | Special

  datatype Entry = Entry(name: Text, node: Node)

  datatype Record = DirectoryRecord(path: Text) | FileRecord(path: Text, size: nat, sha256: Text)

  datatype TreeError = RootNotDirectory | ContainsSymlink | ContainsSpecial

  const SLASH := 0x2f

  predicate NameLeq(a: Entry, b: Entry) { Leq(a.name, b.name) }

  function ByName(directory: Node): (r: seq<Entry>)
    requires directory.Directory?
    ensures multiset(r) == multiset(directory.entries)
    ensures forall e :: e in r ==> e in directory.entries && e.node < directory
  {
    var r := Sort(NameLeq, directory.entries);
    SameElements(r, directory.entries);
    r
  }

  function PathOf(prefix: Text, name: Text): Text { if prefix == [] then name else prefix + [SLASH] + name }

  /** The records of the entries still to visit, in order. */
  function Visit(sha: seq<Byte> -> Text, directory: Node, entries: seq<Entry>, prefix: Text): Result<seq<Record>, TreeError>
    requires forall e :: e in entries ==> e.node < directory
    decreases directory, |entries|
  {
    if entries == [] then Ok([])
    else
      match EntryRecords(sha, directory, entries[0], prefix)
      case Err(error) => Err(error)
      case Ok(first) =>
        match Visit(sha, directory, entries[1..], prefix)
        case Err(error) => Err(error)
        case Ok(rest) => Ok(first + rest)
  }

  function EntryRecords(sha: seq<Byte> -> Text, directory: Node, entry: Entry, prefix: Text): Result<seq<Record>, TreeError>
    requires entry.node < directory
    decreases directory, 0
  {
    var path := PathOf(prefix, entry.name);
    match entry.node
    case Symlink => Err(ContainsSymlink)
    case Special => Err(ContainsSpecial)
    case File(content) => Ok([FileRecord(path, |content|, sha(content))])
    case Directory(_) =>
      match Visit(sha, entry.node, ByName(entry.node), path)
      case Err(error) => Err(error)
      case Ok(below) => Ok([DirectoryRecord(path)] + below)
  }

  function Records(sha: seq<Byte> -> Text, root: Node): Result<seq<Record>, TreeError> {
    if root.Directory? then Visit(sha, root, ByName(root), []) else Err(RootNotDirectory)
  }

  /** Records collected so far followed by what a visit still yields. */
  function Followed(records: seq<Record>, rest: Result<seq<Record>, TreeError>): Result<seq<Record>, TreeError> {
    match rest case Err(error) => Err(error) case Ok(more) => Ok(records + more)
  }

  lemma VisitNext(sha: seq<Byte> -> Text, directory: Node, entries: seq<Entry>, prefix: Text, i: nat, records: seq<Record>)
    requires (forall e :: e in entries ==> e.node < directory) && i < |entries|
    ensures Followed(records, Visit(sha, directory, entries[i..], prefix)) ==
      match EntryRecords(sha, directory, entries[i], prefix)
      case Err(error) => Err(error)
      case Ok(first) => Followed(records + first, Visit(sha, directory, entries[i + 1..], prefix))
  {
    assert entries[i..][1..] == entries[i + 1..];
    var first, rest := EntryRecords(sha, directory, entries[i], prefix), Visit(sha, directory, entries[i + 1..], prefix);
    if first.Ok? && rest.Ok? { assert records + (first.value + rest.value) == (records + first.value) + rest.value; }
  }

  lemma NothingFollows(records: seq<Record>, rest: Result<seq<Record>, TreeError>)
    ensures Followed([], rest) == rest && Followed(records, Ok([])) == Ok(records)
  {
    if rest.Ok? { assert [] + rest.value == rest.value; }
    assert records + [] == records;
  }

  /** Nothing but files and directories, all the way down. */
  predicate Regular(node: Node)
    decreases node
  {
    match node
    case File(_) => true
    case Directory(entries) => forall i :: 0 <= i < |entries| ==> Regular(entries[i].node)
    case _ => false
  }

  predicate AllRegular(entries: seq<Entry>) { forall e :: e in entries ==> Regular(e.node) }

  lemma RegularDirectory(directory: Node)
    requires directory.Directory?
    ensures Regular(directory) <==> AllRegular(ByName(directory))
  {
    SameElements(ByName(directory), directory.entries);
    forall i | 0 <= i < |directory.entries| ensures directory.entries[i] in directory.entries {}
  }

  lemma {:induction false} VisitSucceedsExactly(sha: seq<Byte> -> Text, directory: Node, entries: seq<Entry>, prefix: Text)
    requires forall e :: e in entries ==> e.node < directory
    ensures Visit(sha, directory, entries, prefix).Ok? <==> AllRegular(entries)
    decreases directory, |entries|
  {
    if entries != [] {
      var first := entries[0];
      assert first in entries && entries == [first] + entries[1..];
      VisitSucceedsExactly(sha, directory, entries[1..], prefix);
      if first.node.Directory? {
        VisitSucceedsExactly(sha, first.node, ByName(first.node), PathOf(prefix, first.name));
        RegularDirectory(first.node);
      }
    }
  }

  /** The recursive visit that pushes records: it succeeds exactly when there are only files and
      directories below. */
  method VisitDirectory(sha: seq<Byte> -> Text, directory: Node, prefix: Text) returns (r: Result<seq<Record>, TreeError>)
    requires directory.Directory?
    ensures r == Visit(sha, directory, ByName(directory), prefix)
    ensures r.Ok? <==> Regular(directory)
    decreases directory
  {
    hide Regular;
    hide AllRegular;
    VisitSucceedsExactly(sha, directory, ByName(directory), prefix);
    RegularDirectory(directory);
    var entries := ByName(directory);
    var records: seq<Record> := [];
    assert entries[0..] == entries;
    NothingFollows(records, Visit(sha, directory, entries, prefix));
    for i := 0 to |entries|
      invariant Visit(sha, directory, entries, prefix) == Followed(records, Visit(sha, directory, entries[i..], prefix))
    {
      var entry := entries[i];
      var path := PathOf(prefix, entry.name);
      VisitNext(sha, directory, entries, prefix, i, records);
      match entry.node {
        case Symlink => return Err(ContainsSymlink);
        case Directory(_) =>
          var below := VisitDirectory(sha, entry.node, path);
          if below.Err? { return below; }
          records := records + ([DirectoryRecord(path)] + below.value);
        case File(content) =>
          records := records + [FileRecord(path, |content|, sha(content))];
        case Special => return Err(ContainsSpecial);
      }
    }
    NothingFollows(records, Ok([]));
    return Ok(records);
  }

  // ----- Trees as maps -----

  datatype Tree = Leaf(content: seq<Byte>) | Branch(children: map<Text, Tree>)

  function Meaning(node: Node): Tree
    decreases node, 0
  {
    match node
    case File(content) => Leaf(content)
    case Directory(entries) => Branch(Children(entries))
    case _ => Leaf([])
  }

  function Children(entries: seq<Entry>): map<Text, Tree>
    decreases entries, 1
  {
    if entries == [] then map[] else map[entries[0].name := Meaning(entries[0].node)] + Children(entries[1..])
  }

  predicate ValidName(name: Text) { name != [] && SLASH !in name }

  ghost predicate NamesDistinct(entries: seq<Entry>) {
    forall i, j :: 0 <= i < j < |entries| ==> entries[i].name != entries[j].name
  }

  /** What a file system guarantees: names are non-empty, without slashes, distinct among siblings. */
  ghost predicate Valid(node: Node)
    decreases node
  {
    node.Directory? ==> ValidEntries(node.entries) && forall i :: 0 <= i < |node.entries| ==> Valid(node.entries[i].node)
  }

  ghost predicate ValidEntries(entries: seq<Entry>) {
    NamesDistinct(entries) && forall i :: 0 <= i < |entries| ==> ValidName(entries[i].name)
  }

  ghost predicate Injective(sha: seq<Byte> -> Text) { forall a, b :: sha(a) == sha(b) ==> a == b }

  lemma {:induction false} ChildrenAsMap(entries: seq<Entry>)
    requires NamesDistinct(entries)
    ensures forall e :: e in entries ==> e.name in Children(entries) && Children(entries)[e.name] == Meaning(e.node)
    ensures forall n :: n in Children(entries) ==> exists e :: e in entries && e.name == n
  {
    if entries != [] {
      var first, rest := entries[0], entries[1..];
      ChildrenAsMap(rest);
      forall e | e in rest ensures e.name != first.name {
        var j :| 0 <= j < |rest| && rest[j] == e;
        assert entries[0].name != entries[j + 1].name;
      }
      assert first.name !in Children(rest);
      forall n | n in Children(entries) ensures exists e :: e in entries && e.name == n {
        if n == first.name { assert first in entries; } else { var e :| e in rest && e.name == n; assert e in entries; }
      }
    }
  }

  lemma NamesPermute(entries: seq<Entry>, sorted: seq<Entry>)
    requires NamesDistinct(entries) && multiset(entries) == multiset(sorted)
    ensures NamesDistinct(sorted)
  {
    assert Distinct(entries);
    DistinctPermutes(entries, sorted);
    SameElements(entries, sorted);
    forall i, j | 0 <= i < j < |sorted| ensures sorted[i].name != sorted[j].name {
      assert sorted[i] in entries && sorted[j] in entries && sorted[i] != sorted[j];
      var a :| 0 <= a < |entries| && entries[a] == sorted[i];
      var b :| 0 <= b < |entries| && entries[b] == sorted[j];
      assert a < b || b < a;
    }
  }

  lemma ChildrenPermute(entries: seq<Entry>, sorted: seq<Entry>)
    requires NamesDistinct(entries) && multiset(entries) == multiset(sorted)
    ensures Children(sorted) == Children(entries)
  {
    NamesPermute(entries, sorted);
    SameElements(entries, sorted);
    ChildrenAsMap(entries);
    ChildrenAsMap(sorted);
  }

  lemma ByNameFacts(directory: Node)
    requires directory.Directory? && Valid(directory)
    ensures Sorted(NameLeq, ByName(directory)) && ValidEntries(ByName(directory))
    ensures forall i :: 0 <= i < |ByName(directory)| ==> Valid(ByName(directory)[i].node)
    ensures Children(ByName(directory)) == Children(directory.entries)
  {
    var entries, sorted := directory.entries, ByName(directory);
    NamesPermute(entries, sorted);
    ChildrenPermute(entries, sorted);
    forall i | 0 <= i < |sorted| ensures ValidName(sorted[i].name) && Valid(sorted[i].node) {
      assert sorted[i] in sorted && sorted[i] in entries;
    }
    CodeUnitOrder();
    SortSorts(NameLeq, entries);
  }

  // ----- The record list determines the tree -----

  ghost predicate Under(path: Text, record: Record) { path + [SLASH] <= record.path }

  lemma PathUnder(path: Text, name: Text)
    requires path != []
    ensures path + [SLASH] <= PathOf(path, name)
  {
  }

  lemma UnderTransitive(path: Text, name: Text, record: Record)
    requires path != [] && Under(PathOf(path, name), record)
    ensures Under(path, record)
  {
    assert PathOf(path, name) + [SLASH] == path + [SLASH] + (name + [SLASH]);
  }

  /** Everything visited below a directory has a path below it. */
  lemma {:induction false} VisitedUnder(sha: seq<Byte> -> Text, directory: Node, entries: seq<Entry>, path: Text)
    requires path != [] && (forall e :: e in entries ==> e.node < directory && Valid(e.node) && ValidName(e.name))
    requires Visit(sha, directory, entries, path).Ok?
    ensures forall i :: 0 <= i < |Visit(sha, directory, entries, path).value| ==>
      Under(path, Visit(sha, directory, entries, path).value[i])
    decreases directory, |entries|
  {
    if entries != [] {
      var entry := entries[0];
      VisitedUnder(sha, directory, entries[1..], path);
      PathUnder(path, entry.name);
      var first := EntryRecords(sha, directory, entry, path).value;
      forall i | 0 <= i < |first| ensures Under(path, first[i]) {
        if i > 0 {
          ByNameFacts(entry.node);
          VisitedUnder(sha, entry.node, ByName(entry.node), PathOf(path, entry.name));
          UnderTransitive(path, entry.name, first[i]);
        }
      }
    }
  }

  lemma BelowHasSlash(prefix: Text, name: Text, sibling: Text)
    requires PathOf(prefix, name) + [SLASH] <= PathOf(prefix, sibling)
    ensures SLASH in sibling
  {
    var offset := |PathOf(prefix, name)| - |name|;
    assert PathOf(prefix, sibling)[|PathOf(prefix, name)|] == (PathOf(prefix, name) + [SLASH])[|PathOf(prefix, name)|];
    assert PathOf(prefix, sibling)[offset + |name|] == sibling[|name|];
  }

  /** A sibling's path is not below another sibling. */
  lemma SiblingNotUnder(prefix: Text, name: Text, sibling: Text)
    requires ValidName(sibling)
    ensures !(PathOf(prefix, name) + [SLASH] <= PathOf(prefix, sibling))
  {
    if PathOf(prefix, name) + [SLASH] <= PathOf(prefix, sibling) { BelowHasSlash(prefix, name, sibling); }
  }

  lemma Overlap(a: seq<Record>, b: seq<Record>, c: seq<Record>, d: seq<Record>)
    requires a + b == c + d && |a| < |c|
    ensures b != [] && b[0] == c[|a|]
  {
    assert (a + b)[|a|] == (c + d)[|a|];
  }

  lemma SplitUnique(a: seq<Record>, b: seq<Record>, c: seq<Record>, d: seq<Record>, path: Text)
    requires a + b == c + d
    requires (forall i :: 0 <= i < |a| ==> Under(path, a[i])) && (forall i :: 0 <= i < |c| ==> Under(path, c[i]))
    requires (b == [] || !Under(path, b[0])) && (d == [] || !Under(path, d[0]))
    ensures a == c && b == d
  {
    if |a| < |c| { Overlap(a, b, c, d); }
    if |c| < |a| { Overlap(c, d, a, b); }
    assert a == (a + b)[..|a|] && c == (c + d)[..|a|] && b == (a + b)[|a|..] && d == (c + d)[|a|..];
  }

  lemma PathInjective(prefix: Text, a: Text, b: Text)
    requires PathOf(prefix, a) == PathOf(prefix, b)
    ensures a == b
  {
    if prefix != [] {
      assert a == PathOf(prefix, a)[|prefix| + 1..] && b == PathOf(prefix, b)[|prefix| + 1..];
    }
  }

  /** Entry lists a visit may still have ahead of it. */
  ghost predicate Pending(directory: Node, entries: seq<Entry>) {
    && ValidEntries(entries)
    && (forall e :: e in entries ==> e.node < directory)
    && (forall i :: 0 <= i < |entries| ==> Valid(entries[i].node))
  }

  lemma PendingRest(directory: Node, entries: seq<Entry>)
    requires Pending(directory, entries) && entries != []
    ensures Pending(directory, entries[1..])
    ensures forall e :: e in entries[1..] ==> e.name != entries[0].name
  {
    var rest := entries[1..];
    forall e | e in rest ensures e.node < directory && e.name != entries[0].name {
      var i :| 0 <= i < |rest| && rest[i] == e;
      assert e == entries[i + 1];
    }
  }

  lemma FirstRecord(sha: seq<Byte> -> Text, directory: Node, entries: seq<Entry>, prefix: Text)
    requires Pending(directory, entries) && Visit(sha, directory, entries, prefix).Ok?
    ensures Visit(sha, directory, entries, prefix).value == [] <==> entries == []
    ensures entries != [] ==>
      Visit(sha, directory, entries, prefix).value[0].path == PathOf(prefix, entries[0].name)
  {
  }

  lemma VisitSteps(sha: seq<Byte> -> Text, directory: Node, entries: seq<Entry>, prefix: Text)
    requires Pending(directory, entries) && entries != [] && Visit(sha, directory, entries, prefix).Ok?
    ensures Pending(directory, entries[1..])
    ensures EntryRecords(sha, directory, entries[0], prefix).Ok? && Visit(sha, directory, entries[1..], prefix).Ok?
    ensures Visit(sha, directory, entries, prefix).value ==
      EntryRecords(sha, directory, entries[0], prefix).value + Visit(sha, directory, entries[1..], prefix).value
  {
    PendingRest(directory, entries);
  }

  lemma DirectoryRecords(sha: seq<Byte> -> Text, directory: Node, entry: Entry, prefix: Text) returns (below: seq<Record>)
    requires entry.node < directory && entry.node.Directory? && Valid(entry.node) && ValidName(entry.name)
    requires EntryRecords(sha, directory, entry, prefix).Ok?
    ensures Visit(sha, entry.node, ByName(entry.node), PathOf(prefix, entry.name)) == Ok(below)
    ensures EntryRecords(sha, directory, entry, prefix).value == [DirectoryRecord(PathOf(prefix, entry.name))] + below
    ensures forall i :: 0 <= i < |below| ==> Under(PathOf(prefix, entry.name), below[i])
  {
    var path := PathOf(prefix, entry.name);
    below := Visit(sha, entry.node, ByName(entry.node), path).value;
    ByNameFacts(entry.node);
    VisitedUnder(sha, entry.node, ByName(entry.node), path);
  }

  /** Records of a directory entry split from the records of its siblings. */
  lemma EntrySplits(sha: seq<Byte> -> Text, directory: Node, entries: seq<Entry>, prefix: Text)
    returns (below: seq<Record>, rest: seq<Record>)
    requires Pending(directory, entries) && entries != [] && entries[0].node.Directory?
    requires Visit(sha, directory, entries, prefix).Ok?
    ensures Visit(sha, entries[0].node, ByName(entries[0].node), PathOf(prefix, entries[0].name)) == Ok(below)
    ensures forall i :: 0 <= i < |below| ==> Under(PathOf(prefix, entries[0].name), below[i])
    ensures rest == [] || !Under(PathOf(prefix, entries[0].name), rest[0])
    ensures Pending(directory, entries[1..]) && Visit(sha, directory, entries[1..], prefix) == Ok(rest)
    ensures Visit(sha, directory, entries, prefix).value ==
      [DirectoryRecord(PathOf(prefix, entries[0].name))] + (below + rest)
  {
    VisitSteps(sha, directory, entries, prefix);
    assert entries[0] in entries;
    below := DirectoryRecords(sha, directory, entries[0], prefix);
    rest := Visit(sha, directory, entries[1..], prefix).value;
    Regroup(DirectoryRecord(PathOf(prefix, entries[0].name)), below, rest);
    FirstRecord(sha, directory, entries[1..], prefix);
    if rest != [] { SiblingNotUnder(prefix, entries[0].name, entries[1].name); }
  }

  lemma Regroup(r: Record, a: seq<Record>, b: seq<Record>)
    ensures ([r] + a) + b == [r] + (a + b) && ([r] + (a + b))[1..] == a + b
  {
  }

  lemma {:induction false} SameRecordsSameChildren(sha: seq<Byte> -> Text, d: Node, xs: seq<Entry>, d': Node, ys: seq<Entry>, prefix: Text)
    requires Injective(sha) && Pending(d, xs) && Pending(d', ys)
    requires Visit(sha, d, xs, prefix).Ok? && Visit(sha, d, xs, prefix) == Visit(sha, d', ys, prefix)
    ensures Children(xs) == Children(ys)
    decreases d, |xs|
  {
    FirstRecord(sha, d, xs, prefix);
    FirstRecord(sha, d', ys, prefix);
    if xs != [] {
      var x, y := xs[0], ys[0];
      PathInjective(prefix, x.name, y.name);
      VisitSteps(sha, d, xs, prefix);
      VisitSteps(sha, d', ys, prefix);
      var all := Visit(sha, d, xs, prefix).value;
      if x.node.File? {
        SameFile(sha, d, xs, d', ys, prefix);
      } else {
        assert all[0].DirectoryRecord? && x.node.Directory? && y.node.Directory?;
        var below, rest := EntrySplits(sha, d, xs, prefix);
        var below', rest' := EntrySplits(sha, d', ys, prefix);
        Regroup(all[0], below, rest);
        Regroup(all[0], below', rest');
        SplitUnique(below, rest, below', rest', PathOf(prefix, x.name));
        ByNameFacts(x.node);
        ByNameFacts(y.node);
        assert x in xs;
        SameRecordsSameChildren(sha, x.node, ByName(x.node), y.node, ByName(y.node), PathOf(prefix, x.name));
      }
      SameRecordsSameChildren(sha, d, xs[1..], d', ys[1..], prefix);
    }
  }

  lemma SameFile(sha: seq<Byte> -> Text, d: Node, xs: seq<Entry>, d': Node, ys: seq<Entry>, prefix: Text)
    requires Injective(sha) && Pending(d, xs) && Pending(d', ys)
    requires xs != [] && ys != [] && xs[0].node.File? && xs[0].name == ys[0].name
    requires Visit(sha, d, xs, prefix).Ok? && Visit(sha, d, xs, prefix) == Visit(sha, d', ys, prefix)
    ensures ys[0].node == xs[0].node
    ensures Pending(d, xs[1..]) && Pending(d', ys[1..])
    ensures Visit(sha, d, xs[1..], prefix).Ok? && Visit(sha, d, xs[1..], prefix) == Visit(sha, d', ys[1..], prefix)
  {
    VisitSteps(sha, d, xs, prefix);
    VisitSteps(sha, d', ys, prefix);
    var all := Visit(sha, d, xs, prefix).value;
    var rest, rest' := Visit(sha, d, xs[1..], prefix).value, Visit(sha, d', ys[1..], prefix).value;
    assert all[0] == EntryRecords(sha, d, xs[0], prefix).value[0];
    assert all[0] == EntryRecords(sha, d', ys[0], prefix).value[0];
    assert all[0].FileRecord? && ys[0].node.File?;
    assert all[1..] == rest && all[1..] == rest';
  }

  // ----- The order readdir returns does not matter -----

  /** Sorted siblings with the same names start with the same name. */
  lemma SameFirst(xs: seq<Entry>, ys: seq<Entry>)
    requires NamesDistinct(xs) && NamesDistinct(ys) && Sorted(NameLeq, xs) && Sorted(NameLeq, ys)
    requires Children(xs) == Children(ys) && xs != [] && ys != []
    ensures xs[0].name == ys[0].name && Meaning(xs[0].node) == Meaning(ys[0].node)
  {
    ChildrenAsMap(xs);
    ChildrenAsMap(ys);
    var x, y := xs[0], ys[0];
    assert x in xs && y in ys;
    var e :| e in ys && e.name == x.name;
    var f :| f in xs && f.name == y.name;
    LeqTotal(x.name, x.name);
    LeqTotal(y.name, y.name);
    assert NameLeq(x, f) && NameLeq(y, e);
    LeqAntisymmetric(x.name, y.name);
  }

  /** A visit in name order depends on the children alone. */
  lemma {:induction false} SameChildrenSameRecords(sha: seq<Byte> -> Text, d: Node, xs: seq<Entry>, d': Node, ys: seq<Entry>, prefix: Text)
    requires Pending(d, xs) && Pending(d', ys) && Sorted(NameLeq, xs) && Sorted(NameLeq, ys)
    requires Visit(sha, d, xs, prefix).Ok? && Visit(sha, d', ys, prefix).Ok?
    requires Children(xs) == Children(ys)
    ensures Visit(sha, d, xs, prefix) == Visit(sha, d', ys, prefix)
    decreases d, |xs|
  {
    NonEmptyChildren(xs);
    NonEmptyChildren(ys);
    if xs != [] {
      SameFirst(xs, ys);
      VisitSteps(sha, d, xs, prefix);
      VisitSteps(sha, d', ys, prefix);
      RestChildren(xs);
      RestChildren(ys);
      assert xs[0] in xs && ys[0] in ys;
      SameEntryRecords(sha, d, xs[0], d', ys[0], prefix);
      SameChildrenSameRecords(sha, d, xs[1..], d', ys[1..], prefix);
    }
  }

  lemma NonEmptyChildren(entries: seq<Entry>)
    ensures Children(entries) == map[] <==> entries == []
  {
    if entries != [] { assert entries[0].name in Children(entries); }
  }

  lemma RestChildren(entries: seq<Entry>)
    requires NamesDistinct(entries) && entries != []
    ensures Children(entries[1..]) == Children(entries) - {entries[0].name}
  {
    var rest := entries[1..];
    ChildrenAsMap(rest);
    forall e | e in rest ensures e.name != entries[0].name {
      var j :| 0 <= j < |rest| && rest[j] == e;
      assert entries[0].name != entries[j + 1].name;
    }
    AddRemove(Children(rest), entries[0].name, Meaning(entries[0].node));
  }

  lemma AddRemove(m: map<Text, Tree>, k: Text, v: Tree)
    requires k !in m
    ensures (map[k := v] + m) - {k} == m
  {
  }

  lemma {:induction false} SameEntryRecords(sha: seq<Byte> -> Text, d: Node, x: Entry, d': Node, y: Entry, prefix: Text)
    requires x.node < d && y.node < d' && x.name == y.name && Valid(x.node) && Valid(y.node)
    requires EntryRecords(sha, d, x, prefix).Ok? && EntryRecords(sha, d', y, prefix).Ok?
    requires Meaning(x.node) == Meaning(y.node)
    ensures EntryRecords(sha, d, x, prefix) == EntryRecords(sha, d', y, prefix)
    decreases d, 0
  {
    if x.node.Directory? {
      ByNameFacts(x.node);
      ByNameFacts(y.node);
      SameChildrenSameRecords(sha, x.node, ByName(x.node), y.node, ByName(y.node), PathOf(prefix, x.name));
    }
  }

  /** Two directory trees have the same record list exactly when they are the same tree. */
  lemma RecordsIdentifyTree(sha: seq<Byte> -> Text, a: Node, b: Node)
    requires Injective(sha) && Valid(a) && Valid(b) && Records(sha, a).Ok? && Records(sha, b).Ok?
    ensures Records(sha, a) == Records(sha, b) <==> Meaning(a) == Meaning(b)
  {
    ByNameFacts(a);
    ByNameFacts(b);
    if Records(sha, a) == Records(sha, b) {
      SameRecordsSameChildren(sha, a, ByName(a), b, ByName(b), []);
    }
    if Meaning(a) == Meaning(b) {
      SameChildrenSameRecords(sha, a, ByName(a), b, ByName(b), []);
    }
  }

  lemma TailOfJoin(prefix: Text, a: Text)
    requires prefix != []
    ensures (prefix + a)[1..] == prefix[1..] + a && (prefix + a)[0] == prefix[0]
  {
  }

  lemma {:induction false} CommonPrefix(prefix: Text, a: Text, b: Text)
    ensures Leq(prefix + a, prefix + b) <==> Leq(a, b)
  {
    if prefix == [] {
      assert prefix + a == a && prefix + b == b;
    } else {
      CommonPrefix(prefix[1..], a, b);
      TailOfJoin(prefix, a);
      TailOfJoin(prefix, b);
    }
  }

  /** Visiting order is not the order of paths: a directory sorts before the sibling whose name
      continues with a character below the slash, yet everything in it sorts after. */
  lemma VisitOrderIsNotPathOrder(prefix: Text, name: Text, child: Text, c: CodeUnit)
    requires name != [] && c < SLASH
    ensures Leq(name, name + [c]) && !Leq(name + [c], name)
    ensures !Leq(PathOf(PathOf(prefix, name), child), PathOf(prefix, name + [c]))
  {
    assert name + [] == name;
    CommonPrefix(name, [], [c]);
    CommonPrefix(name, [c], []);
    var path := PathOf(prefix, name);
    assert PathOf(path, child) == path + ([SLASH] + child);
    assert PathOf(prefix, name + [c]) == path + [c];
    CommonPrefix(path, [SLASH] + child, [c]);
  }

  // ----- The digest -----

  const PATH: Text := [0x70, 0x61, 0x74, 0x68]
  const TYPE: Text := [0x74, 0x79, 0x70, 0x65]
  const SIZE: Text := [0x73, 0x69, 0x7a, 0x65]
  const SHA256: Text := [0x73, 0x68, 0x61, 0x32, 0x35, 0x36]
  const DIRECTORY_TYPE: Text := [0x64, 0x69, 0x72, 0x65, 0x63, 0x74, 0x6f, 0x72, 0x79]
  const FILE_TYPE: Text := [0x66, 0x69, 0x6c, 0x65]

  function Numeral(n: nat): Text { if n < 10 then [0x30 + n] else Numeral(n / 10) + [0x30 + n % 10] }

  function RecordJson(r: Record): C.JsValue {
    match r
    case DirectoryRecord(path) =>
      C.JsObject([C.Member(PATH, C.JsString(path)), C.Member(TYPE, C.JsString(DIRECTORY_TYPE))])
    case FileRecord(path, size, sha256) =>
      C.JsObject([C.Member(PATH, C.JsString(path)), C.Member(TYPE, C.JsString(FILE_TYPE)),
                  C.Member(SIZE, C.JsNumber(Numeral(size))), C.Member(SHA256, C.JsString(sha256))])
  }

  function RecordsJson(records: seq<Record>): C.JsValue {
    C.JsArray(seq(|records|, i requires 0 <= i < |records| => RecordJson(records[i])))
  }

  /** `digestDirectoryTree`: the hash of the record list as JSON text. */
  function TreeDigest<D>(sha: seq<Byte> -> Text, hash: Text -> D, root: Node): Result<D, TreeError> {
    match Records(sha, root)
    case Err(error) => Err(error)
    case Ok(records) => Ok(hash(C.Print(RecordsJson(records))))
  }

  lemma {:induction false} DigitsAppend(t: Text, d: CodeUnit)
    requires C.DigitRun(t) == |t| && C.IsDigit(d)
    ensures C.DigitRun(t + [d]) == |t| + 1
  {
    if t != [] {
      DigitsAppend(t[1..], d);
      assert (t + [d])[1..] == t[1..] + [d];
    }
  }

  lemma {:induction false} NumeralReads(n: nat)
    ensures var t := Numeral(n);
      t != [] && C.DigitRun(t) == |t| && C.Decimal(t) == n && (t[0] == 0x30 ==> n == 0 && |t| == 1)
  {
    if n < 10 {
      var t := Numeral(n);
      assert t[..0] == [];
      assert C.Decimal(t) == 10 * C.Decimal(t[..0]) + n;
    } else {
      NumeralReads(n / 10);
      var t, d := Numeral(n / 10), 0x30 + n % 10;
      DigitsAppend(t, d);
      assert (t + [d])[..|t|] == t;
    }
  }

  lemma NumeralIsNumberText(n: nat)
    ensures C.IsNumberText(Numeral(n))
  {
    NumeralReads(n);
    var t := Numeral(n);
    assert forall i :: 0 <= i < |t| ==> C.IsDigit(t[i]);
    assert t[|t|..] == [];
  }

  lemma RecordIsJson(r: Record)
    ensures P.Printable(RecordJson(r))
  {
    if r.FileRecord? { NumeralIsNumberText(r.size); }
  }

  lemma FieldOf(members: seq<C.Member>, i: nat)
    requires P.KeysDistinct(members) && i < |members|
    ensures members[i].key in C.DenoteMembers(members)
    ensures C.DenoteMembers(members)[members[i].key] == C.Denote(members[i].value)
  {
    P.MembersAsMap(members);
    assert members[i] in members;
  }

  ghost predicate HasField(v: C.Json, key: Text, value: C.Json) {
    v.Object? && key in v.fields && v.fields[key] == value
  }

  lemma RecordFields(r: Record)
    ensures var v := C.Denote(RecordJson(r));
      && HasField(v, PATH, C.Json.String(r.path))
      && HasField(v, TYPE, C.Json.String(if r.FileRecord? then FILE_TYPE else DIRECTORY_TYPE))
      && (r.FileRecord? ==> HasField(v, SIZE, C.Json.Number(Numeral(r.size))) && HasField(v, SHA256, C.Json.String(r.sha256)))
  {
    var members := RecordJson(r).members;
    FieldOf(members, 0);
    FieldOf(members, 1);
    if r.FileRecord? {
      FieldOf(members, 2);
      FieldOf(members, 3);
    }
  }

  lemma RecordJsonInjective(a: Record, b: Record)
    requires C.Denote(RecordJson(a)) == C.Denote(RecordJson(b))
    ensures a == b
  {
    RecordFields(a);
    RecordFields(b);
    assert FILE_TYPE[0] != DIRECTORY_TYPE[0];
    if a.FileRecord? {
      NumeralReads(a.size);
      NumeralReads(b.size);
    }
  }

  lemma RecordsTextInjective(a: seq<Record>, b: seq<Record>)
    requires C.Print(RecordsJson(a)) == C.Print(RecordsJson(b))
    ensures a == b
  {
    var v, w := RecordsJson(a), RecordsJson(b);
    forall i | 0 <= i < |a| ensures P.Printable(v.items[i]) { RecordIsJson(a[i]); }
    forall i | 0 <= i < |b| ensures P.Printable(w.items[i]) { RecordIsJson(b[i]); }
    P.ReadsBack(v, []);
    P.ReadsBack(w, []);
    assert C.Print(v) + [] == C.Print(v) && v == w;
    forall i | 0 <= i < |a| ensures a[i] == b[i] {
      assert v.items[i] == RecordJson(a[i]) && w.items[i] == RecordJson(b[i]);
      RecordJsonInjective(a[i], b[i]);
    }
  }

  /** Under collision-free hashes, two directory trees have the same digest exactly when they are
      the same tree. */
  lemma DigestIdentifiesTree<D(!new)>(sha: seq<Byte> -> Text, hash: Text -> D, a: Node, b: Node)
    requires Injective(sha) && P.CollisionFree(hash)
    requires Valid(a) && Valid(b) && Records(sha, a).Ok? && Records(sha, b).Ok?
    ensures TreeDigest(sha, hash, a) == TreeDigest(sha, hash, b) <==> Meaning(a) == Meaning(b)
  {
    RecordsIdentifyTree(sha, a, b);
    if TreeDigest(sha, hash, a) == TreeDigest(sha, hash, b) {
      RecordsTextInjective(Records(sha, a).value, Records(sha, b).value);
    }
  }
}

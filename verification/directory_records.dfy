/** What the records of a directory tree tell (scripts/probe-review-agent-runtime.ts,
    digestDirectoryTree): one for everything below the root, at its path. */
module DirectoryRecords {
  import opened Bits
  import opened DirectoryTree
  import opened Ordering
  import opened Text
  import opened Wrappers
  import C = Canonical

  /** Following the names from a node leads to the target. */
  ghost predicate At(node: Node, path: seq<Text>, target: Node)
    decreases |path|
  {
    if path == [] then node == target
    else node.Directory? && exists e :: e in node.entries && e.name == path[0] && At(e.node, path[1..], target)
  }

  /** Names joined with slashes. */
  function Slashed(path: seq<Text>): Text {
    if path == [] then [] else if |path| == 1 then path[0] else path[0] + OfString("/") + Slashed(path[1..])
  }

  /** A directory by its path alone, a file with its size and the hash of its content. */
  predicate Told(sha: seq<Byte> -> Text, path: Text, target: Node, r: Record) {
    match target
    case Directory(_) => r == DirectoryRecord(path)
    case File(content) => r == FileRecord(path, |content|, sha(content))
    case _ => false
  }

  predicate NamesFilled(path: seq<Text>) { forall i :: 0 <= i < |path| ==> path[i] != [] }

  lemma {:induction false} SlashedJoins(path: seq<Text>, name: Text)
    requires NamesFilled(path)
    ensures PathOf(Slashed(path), name) == Slashed(path + [name])
    ensures path != [] ==> Slashed(path) != []
  {
    assert OfString("/") == [SLASH];
    if |path| > 1 {
      SlashedJoins(path[1..], name);
      assert (path + [name])[1..] == path[1..] + [name];
    }
  }

  /** Something below one of the entries has this record. */
  ghost predicate Found(sha: seq<Byte> -> Text, entries: seq<Entry>, prefix: seq<Text>, r: Record) {
    exists e, path, target ::
      e in entries && At(e.node, path, target) && Told(sha, Slashed(prefix + [e.name] + path), target, r)
  }

  lemma FoundInEither(sha: seq<Byte> -> Text, entries: seq<Entry>, prefix: seq<Text>, r: Record)
    requires entries != []
    ensures Found(sha, entries, prefix, r) <==>
      Found(sha, [entries[0]], prefix, r) || Found(sha, entries[1..], prefix, r)
  {
    assert entries == [entries[0]] + entries[1..];
    if Found(sha, entries, prefix, r) {
      var e, path, target :| e in entries && At(e.node, path, target) && Told(sha, Slashed(prefix + [e.name] + path), target, r);
      assert e in [entries[0]] || e in entries[1..];
    }
  }

  lemma FoundSame(sha: seq<Byte> -> Text, xs: seq<Entry>, ys: seq<Entry>, prefix: seq<Text>, r: Record)
    requires multiset(xs) == multiset(ys)
    ensures Found(sha, xs, prefix, r) <==> Found(sha, ys, prefix, r)
  {
    SameElements(xs, ys);
  }

  lemma FoundFile(sha: seq<Byte> -> Text, entry: Entry, prefix: seq<Text>, r: Record)
    requires entry.node.File?
    ensures Found(sha, [entry], prefix, r) <==> Told(sha, Slashed(prefix + [entry.name]), entry.node, r)
  {
    assert prefix + [entry.name] + [] == prefix + [entry.name];
    if Told(sha, Slashed(prefix + [entry.name]), entry.node, r) {
      assert entry in [entry] && At(entry.node, [], entry.node);
    }
  }

  /** In a directory: itself, or something below one of its entries. */
  lemma FoundDirectory(sha: seq<Byte> -> Text, entry: Entry, prefix: seq<Text>, r: Record)
    requires entry.node.Directory?
    ensures Found(sha, [entry], prefix, r) <==>
      r == DirectoryRecord(Slashed(prefix + [entry.name])) || Found(sha, entry.node.entries, prefix + [entry.name], r)
  {
    hide Slashed;
    assert prefix + [entry.name] + [] == prefix + [entry.name];
    if r == DirectoryRecord(Slashed(prefix + [entry.name])) {
      assert entry in [entry] && At(entry.node, [], entry.node);
    }
    if Found(sha, [entry], prefix, r) {
      var path, target :| At(entry.node, path, target) && Told(sha, Slashed(prefix + [entry.name] + path), target, r);
      if path != [] {
        var e :| e in entry.node.entries && e.name == path[0] && At(e.node, path[1..], target);
        assert prefix + [entry.name] + path == (prefix + [entry.name]) + [e.name] + path[1..];
      }
    }
    if Found(sha, entry.node.entries, prefix + [entry.name], r) { FoundBelow(sha, entry, prefix, r); }
  }

  lemma FoundBelow(sha: seq<Byte> -> Text, entry: Entry, prefix: seq<Text>, r: Record)
    requires entry.node.Directory? && Found(sha, entry.node.entries, prefix + [entry.name], r)
    ensures Found(sha, [entry], prefix, r)
  {
    hide Slashed;
    var e, path, target :| e in entry.node.entries && At(e.node, path, target)
      && Told(sha, Slashed((prefix + [entry.name]) + [e.name] + path), target, r);
    var longer := [e.name] + path;
    assert longer[1..] == path && prefix + [entry.name] + longer == (prefix + [entry.name]) + [e.name] + path;
    assert entry in [entry] && At(entry.node, longer, target);
  }

  lemma {:induction false} VisitTells(sha: seq<Byte> -> Text, directory: Node, entries: seq<Entry>, prefix: seq<Text>, r: Record)
    requires (forall e :: e in entries ==> e.node < directory && e.name != [] && Valid(e.node)) && NamesFilled(prefix)
    requires Visit(sha, directory, entries, Slashed(prefix)).Ok?
    ensures r in Visit(sha, directory, entries, Slashed(prefix)).value <==> Found(sha, entries, prefix, r)
    decreases directory, |entries|
  {
    hide Found;
    hide Slashed;
    if entries == [] {
      NothingFound(sha, prefix, r);
    } else {
      var first := entries[0];
      FoundInEither(sha, entries, prefix, r);
      VisitTells(sha, directory, entries[1..], prefix, r);
      EntryTells(sha, directory, first, prefix, r);
    }
  }

  lemma NothingFound(sha: seq<Byte> -> Text, prefix: seq<Text>, r: Record)
    ensures !Found(sha, [], prefix, r)
  {
  }

  lemma {:induction false} EntryTells(sha: seq<Byte> -> Text, directory: Node, entry: Entry, prefix: seq<Text>, r: Record)
    requires entry.node < directory && entry.name != [] && Valid(entry.node) && NamesFilled(prefix)
    requires EntryRecords(sha, directory, entry, Slashed(prefix)).Ok?
    ensures r in EntryRecords(sha, directory, entry, Slashed(prefix)).value <==> Found(sha, [entry], prefix, r)
    decreases directory, 0
  {
    hide Found;
    hide Slashed;
    SlashedJoins(prefix, entry.name);
    if entry.node.File? {
      FoundFile(sha, entry, prefix, r);
    } else if entry.node.Directory? {
      var node := entry.node;
      FoundDirectory(sha, entry, prefix, r);
      FoundSame(sha, ByName(node), node.entries, prefix + [entry.name], r);
      forall e | e in ByName(node) ensures e.node < node && e.name != [] && Valid(e.node) {
        var i :| 0 <= i < |node.entries| && node.entries[i] == e;
        assert ValidName(node.entries[i].name);
      }
      VisitTells(sha, node, ByName(node), prefix + [entry.name], r);
    }
  }

  /** Something below the root, told by its whole path. */
  ghost predicate FoundBelowRoot(sha: seq<Byte> -> Text, root: Node, r: Record) {
    exists path, target :: path != [] && At(root, path, target) && Told(sha, Slashed(path), target, r)
  }

  lemma FoundFromRoot(sha: seq<Byte> -> Text, root: Node, r: Record)
    requires root.Directory?
    ensures Found(sha, root.entries, [], r) <==> FoundBelowRoot(sha, root, r)
  {
    hide Slashed;
    hide Told;
    if Found(sha, root.entries, [], r) {
      var e, path, target :| e in root.entries && At(e.node, path, target) && Told(sha, Slashed([] + [e.name] + path), target, r);
      var whole := [e.name] + path;
      assert whole[1..] == path && [] + [e.name] + path == whole;
      assert At(root, whole, target);
    }
    if FoundBelowRoot(sha, root, r) {
      var path, target :| path != [] && At(root, path, target) && Told(sha, Slashed(path), target, r);
      var e :| e in root.entries && e.name == path[0] && At(e.node, path[1..], target);
      assert [] + [e.name] + path[1..] == path;
    }
  }

  /** The records are those of everything below the root, and no others. */
  lemma RecordsTell(sha: seq<Byte> -> Text, root: Node, r: Record)
    requires Valid(root) && Records(sha, root).Ok?
    ensures r in Records(sha, root).value <==> FoundBelowRoot(sha, root, r)
  {
    hide Visit;
    hide Slashed;
    hide Found;
    hide FoundBelowRoot;
    NothingSlashed();
    FoundFromRoot(sha, root, r);
    FoundSame(sha, ByName(root), root.entries, [], r);
    forall e | e in ByName(root) ensures e.node < root && e.name != [] && Valid(e.node) {
      var i :| 0 <= i < |root.entries| && root.entries[i] == e;
      assert ValidName(root.entries[i].name);
    }
    VisitTells(sha, root, ByName(root), [], r);
  }

  lemma NothingSlashed()
    ensures Slashed([]) == []
  {
  }

  /** The JSON text of a record, spelled out. */
  lemma DirectorySpelled(path: Text)
    ensures RecordJson(DirectoryRecord(path)) == C.JsObject([
      C.Member(OfString("path"), C.JsString(path)), C.Member(OfString("type"), C.JsString(OfString("directory")))])
  {
    assert OfString("path") == PATH && OfString("type") == TYPE && OfString("directory") == DIRECTORY_TYPE;
  }

  lemma FileSpelled(path: Text, size: nat, sha256: Text)
    ensures RecordJson(FileRecord(path, size, sha256)) == C.JsObject([
      C.Member(OfString("path"), C.JsString(path)), C.Member(OfString("type"), C.JsString(OfString("file"))),
      C.Member(OfString("size"), C.JsNumber(Numeral(size))), C.Member(OfString("sha256"), C.JsString(sha256))])
  {
    assert OfString("path") == PATH && OfString("type") == TYPE && OfString("file") == FILE_TYPE;
    assert OfString("size") == SIZE && OfString("sha256") == SHA256;
  }
}

/** Canonical repository paths (src/bounded-worktree.ts, canonicalRepositoryPath) over Node's
    path.posix.normalize. */
module RepositoryPath {
  function Split(s: string): (r: seq<string>)
    ensures |r| > 0
  {
    if s == "" then [""]
    else
      var rest := Split(s[1..]);
      if s[0] == '/' then [""] + rest else [[s[0]] + rest[0]] + rest[1..]
  }

  function Join(segments: seq<string>): string {
    if segments == [] then "" else if |segments| == 1 then segments[0] else segments[0] + "/" + Join(segments[1..])
  }

  /** The segment stack of path.posix.normalize for a relative path. */
  function Resolve(segments: seq<string>, stack: seq<string>): seq<string> {
    if segments == [] then stack
    else
      var s := segments[0];
      Resolve(segments[1..],
        if s == "" || s == "." then stack
        else if s == ".." && stack != [] && stack[|stack| - 1] != ".." then stack[..|stack| - 1]
        else stack + [s])
  }

  predicate EndsInSlash(s: string) { s != "" && s[|s| - 1] == '/' }

  function Normalize(value: string): string {
    var resolved := Join(Resolve(Split(value), []));
    if resolved == "" then (if EndsInSlash(value) then "./" else ".")
    else if EndsInSlash(value) then resolved + "/"
    else resolved
  }

  predicate IsDots(segment: string) { segment == "." || segment == ".." }

  predicate IsForbidden(c: char) { c in "\0\\\n:*?[]!" }

  /** The source's checks, in its order; false where it throws. */
  predicate IsCanonical(value: string) {
    && value != ""
    && (forall i :: 0 <= i < |value| ==> !IsForbidden(value[i]))
    && value[0] != '/'
    && var normalized := Normalize(value);
      && normalized == value && normalized != "." && normalized != ".." && !("../" <= normalized)
      && forall i :: 0 <= i < |Split(normalized)| ==> !IsDots(Split(normalized)[i])
  }

  // ----- What the checks amount to -----

  predicate IsProper(segment: string) { segment != "" && !IsDots(segment) }

  /** Relative, without forbidden characters, every segment a proper name; one slash may follow. */
  predicate IsPlainPath(value: string) {
    var segments := Split(value);
    var n := if EndsInSlash(value) then |segments| - 1 else |segments|;
    && (forall i :: 0 <= i < |value| ==> !IsForbidden(value[i]))
    && forall i :: 0 <= i < n ==> IsProper(segments[i])
  }

  function Weight(segments: seq<string>): nat { if segments == [] then 0 else |segments[0]| + Weight(segments[1..]) }

  function Kept(segments: seq<string>): (r: seq<string>)
    ensures |r| <= |segments|
    ensures |r| == |segments| <==> forall i :: 0 <= i < |segments| ==> segments[i] != ""
  {
    if segments == [] then []
    else
      assert forall i :: 0 < i < |segments| ==> segments[i] == segments[1..][i - 1];
      (if segments[0] == "" then [] else [segments[0]]) + Kept(segments[1..])
  }

  lemma {:induction false} SplitWeight(s: string)
    ensures |s| == Weight(Split(s)) + |Split(s)| - 1
    ensures Split(s)[|Split(s)| - 1] == "" <==> s == "" || EndsInSlash(s)
    ensures |Split(s)| == 1 ==> Split(s)[0] == s
  {
    if s != "" {
      SplitWeight(s[1..]);
      var rest := Split(s[1..]);
      assert Split(s)[1..] == if s[0] == '/' then rest else rest[1..];
      assert Weight(rest) == |rest[0]| + Weight(rest[1..]);
    }
  }

  lemma {:induction false} SplitJoins(s: string)
    ensures Join(Split(s)) == s
  {
    if s != "" {
      SplitJoins(s[1..]);
      var rest := Split(s[1..]);
      if s[0] == '/' {
        assert Split(s)[1..] == rest;
        assert s == "/" + s[1..];
      } else {
        assert Split(s)[1..] == rest[1..];
        assert s == [s[0]] + s[1..];
        if |rest| > 1 { assert [s[0]] + (rest[0] + "/" + Join(rest[1..])) == [s[0]] + rest[0] + "/" + Join(rest[1..]); }
      }
    }
  }

  lemma {:induction false} JoinWeight(segments: seq<string>)
    requires segments != []
    ensures |Join(segments)| == Weight(segments) + |segments| - 1
  {
    if |segments| > 1 { JoinWeight(segments[1..]); } else { assert segments[1..] == []; }
  }

  lemma {:induction false} KeptWeight(segments: seq<string>)
    ensures Weight(Kept(segments)) == Weight(segments)
  {
    if segments != [] {
      KeptWeight(segments[1..]);
      if segments[0] == "" {
        assert Kept(segments) == Kept(segments[1..]);
      } else {
        assert Kept(segments)[1..] == Kept(segments[1..]);
      }
    }
  }

  lemma Regroup(a: seq<string>, x: string, b: seq<string>)
    ensures a + ([x] + b) == (a + [x]) + b && a + ([] + b) == a + b
  {
  }

  /** Without dot segments, normalisation only drops empty ones. */
  lemma {:induction false} ResolveKeeps(segments: seq<string>, stack: seq<string>)
    requires forall i :: 0 <= i < |segments| ==> !IsDots(segments[i])
    ensures Resolve(segments, stack) == stack + Kept(segments)
  {
    if segments == [] {
      assert stack + [] == stack;
    } else {
      ResolveKeeps(segments[1..], if segments[0] == "" then stack else stack + [segments[0]]);
      Regroup(stack, segments[0], Kept(segments[1..]));
    }
  }

  lemma {:induction false} KeptDropsLast(segments: seq<string>)
    requires segments != [] && segments[|segments| - 1] == ""
    requires forall i :: 0 <= i < |segments| - 1 ==> segments[i] != ""
    ensures Kept(segments) == segments[..|segments| - 1]
  {
    if |segments| == 1 {
      assert segments[1..] == [];
    } else {
      KeptDropsLast(segments[1..]);
      assert segments[..|segments| - 1] == [segments[0]] + segments[1..][..|segments| - 2];
    }
  }

  lemma {:induction false} JoinDropsLast(segments: seq<string>)
    requires |segments| > 1 && segments[|segments| - 1] == ""
    ensures Join(segments) == Join(segments[..|segments| - 1]) + "/"
  {
    var front := segments[..|segments| - 1];
    if |segments| == 2 {
      assert segments[1..] == [""] && front == [segments[0]];
    } else {
      JoinDropsLast(segments[1..]);
      assert segments[1..][..|segments| - 2] == front[1..];
    }
  }

  /** All empty segments but a last one are gone after normalisation, so a value that equals its
      normal form has none. */
  lemma NormalHasNoGaps(value: string)
    requires value != "" && value[0] != '/' && Normalize(value) == value && value != "." && value != "./"
    requires forall i :: 0 <= i < |Split(value)| ==> !IsDots(Split(value)[i])
    ensures var n := |Split(value)|;
      |Kept(Split(value))| == if EndsInSlash(value) then n - 1 else n
  {
    var segments := Split(value);
    ResolveKeeps(segments, []);
    assert [] + Kept(segments) == Kept(segments);
    SplitWeight(value);
    KeptWeight(segments);
    if Kept(segments) != [] { JoinWeight(Kept(segments)); }
  }

  lemma {:induction false} EarlyGap(segments: seq<string>, i: nat)
    requires i < |segments| - 1 && segments[i] == "" && segments[|segments| - 1] == ""
    ensures |Kept(segments)| <= |segments| - 2
  {
    if i == 0 {
      assert segments[1..][|segments| - 2] == "";
    } else {
      EarlyGap(segments[1..], i - 1);
    }
  }

  lemma OneGap(segments: seq<string>)
    requires segments != [] && segments[|segments| - 1] == "" && |Kept(segments)| == |segments| - 1
    ensures forall i :: 0 <= i < |segments| - 1 ==> segments[i] != ""
  {
    forall i | 0 <= i < |segments| - 1 ensures segments[i] != "" {
      if segments[i] == "" { EarlyGap(segments, i); }
    }
  }

  /** The checks accept exactly the plain relative paths; a single trailing slash passes them. */
  lemma CanonicalExactly(value: string)
    ensures IsCanonical(value) <==> value != "" && IsPlainPath(value)
  {
    var segments := Split(value);
    SplitWeight(value);
    SplitJoins(value);
    if IsCanonical(value) {
      NormalHasNoGaps(value);
      if EndsInSlash(value) { OneGap(segments); }
    } else if value != "" && IsPlainPath(value) {
      PlainIsCanonical(value);
    }
  }

  /** The characters a path may not have, besides being no slash or dot when it stands alone. */
  lemma SingleCharacterCanonical(c: char)
    ensures IsCanonical([c]) <==>
      && c != '\0' && c != '\\' && c != '\n' && c != ':' && c != '*' && c != '?' && c != '[' && c != ']' && c != '!'
      && c != '/' && c != '.'
  {
    CanonicalExactly([c]);
    assert [c][1..] == "" && Split("") == [""];
    if c == '/' { assert Split([c]) == [""] + [""]; } else { assert Split([c]) == [[c] + ""] && [c] + "" == [c]; }
  }

  lemma PlainIsNormal(value: string)
    requires value != "" && IsPlainPath(value)
    ensures Normalize(value) == value
  {
    hide Split;
    hide Resolve;
    var segments := Split(value);
    SplitWeight(value);
    SplitJoins(value);
    ResolveKeeps(segments, []);
    assert [] + Kept(segments) == Kept(segments);
    if EndsInSlash(value) {
      KeptDropsLast(segments);
      JoinDropsLast(segments);
      assert IsProper(segments[0]);
    } else {
      AllKept(segments);
    }
  }

  lemma PlainFirstSegment(value: string)
    requires value != "" && IsPlainPath(value)
    ensures IsProper(Split(value)[0]) && value[0] != '/'
  {
    SplitWeight(value);
  }

  lemma PlainHasNoDots(value: string)
    requires value != "" && IsPlainPath(value)
    ensures forall i :: 0 <= i < |Split(value)| ==> !IsDots(Split(value)[i])
  {
    SplitWeight(value);
  }

  lemma DotPaths()
    ensures Split(".") == ["."] && Split("..") == [".."]
  {
    assert "."[1..] == "" && ".."[1..] == "." && ['.'] + "" == "." && ['.'] + "." == "..";
    assert Split("") == [""];
  }

  lemma PlainIsCanonical(value: string)
    requires value != "" && IsPlainPath(value)
    ensures IsCanonical(value)
  {
    PlainFirstSegment(value);
    PlainHasNoDots(value);
    PlainIsNormal(value);
    DotPaths();
    assert !IsDots(Split(value)[0]);
    if "../" <= value { DotsFirst(value); }
  }

  lemma {:induction false} AllKept(segments: seq<string>)
    requires forall i :: 0 <= i < |segments| ==> segments[i] != ""
    ensures Kept(segments) == segments
  {
    if segments != [] { AllKept(segments[1..]); }
  }

  lemma DotsFirst(value: string)
    requires "../" <= value
    ensures Split(value)[0] == ".."
  {
    var v, w := value[1..], value[1..][1..];
    assert value[0] == '.' && v[0] == '.' && w[0] == '/';
    assert Split(w)[0] == "";
    assert Split(v)[0] == ['.'] + "" == ".";
    assert Split(value)[0] == ['.'] + ".";
  }
}

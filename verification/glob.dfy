/** Scope globs (src/bounded-worktree.ts, globMatches): the three-pass rewrite of a glob into a
    regular expression, against the meaning of the glob itself. */
module Glob {
  import opened Strings
  import opened Wrappers

  const NUL: char := '\0'

  // ----- The rewrite -----

  /** Characters the first replacement puts a backslash before. */
  predicate IsEscaped(c: char) { c in ".?+^${}()|[]\\" }

  function Escape(s: string): string {
    if s == "" then "" else (if IsEscaped(s[0]) then ['\\', s[0]] else [s[0]]) + Escape(s[1..])
  }

  function MarkDouble(s: string): string { ReplaceAll(s, "**", [NUL]) }
  function ExpandSingle(s: string): string { ReplaceAll(s, "*", "[^/]*") }
  function ExpandDouble(s: string): string { ReplaceAll(s, [NUL], ".*") }

  function Body(scope: string): string { ExpandDouble(ExpandSingle(MarkDouble(Escape(scope)))) }

  function Compile(scope: string): string { "^" + Body(scope) + "$" }

  // ----- Regular expressions (ECMA-262 section 22.2, the part the rewrite can produce) -----

  datatype Class = NotLineTerminator | Not(c: char) | Only(c: char)

  datatype Term = One(cls: Class) | Many(cls: Class)

  predicate IsSyntax(c: char) { IsEscaped(c) || c == '*' }

  /** One atom and its length; None for syntax outside the fragment. */
  function ReadAtom(t: string): Option<(Class, nat)>
    requires t != ""
  {
    if t[0] == '\\' then
      if |t| >= 2 && (IsSyntax(t[1]) || t[1] == '/') then Some((Only(t[1]), 2)) else None
    else if t[0] == '[' then
      if |t| >= 4 && t[1] == '^' && t[2] !in "\\]^-" && t[3] == ']' then Some((Not(t[2]), 4)) else None
    else if t[0] == '.' then Some((NotLineTerminator, 1))
    else if IsSyntax(t[0]) then None
    else Some((Only(t[0]), 1))
  }

  /** Terms up to the closing anchor. */
  function ReadTerms(t: string): Option<seq<Term>>
    decreases |t|
  {
    if t == "" then None
    else if t == "$" then Some([])
    else
      match ReadAtom(t)
      case None => None
      case Some((cls, n)) =>
        if n > |t| then None
        else
          var starred := n < |t| && t[n] == '*';
          match ReadTerms(t[if starred then n + 1 else n..])
          case None => None
          case Some(rest) => Some([if starred then Many(cls) else One(cls)] + rest)
  }

  function ReadRegExp(t: string): Option<seq<Term>> {
    if t != "" && t[0] == '^' then ReadTerms(t[1..]) else None
  }

  predicate IsLineTerminator(c: char) { c == '\n' || c == '\r' || c as int == 0x2028 || c as int == 0x2029 }

  predicate In(c: char, cls: Class) {
    match cls
    case NotLineTerminator => !IsLineTerminator(c)
    case Not(d) => c != d
    case Only(d) => c == d
  }

  /** Whether the whole target is in the language of the terms. */
  predicate Accepts(terms: seq<Term>, target: string)
    decreases |terms| + |target|
  {
    if terms == [] then target == ""
    else
      match terms[0]
      case One(cls) => target != "" && In(target[0], cls) && Accepts(terms[1..], target[1..])
      case Many(cls) =>
        Accepts(terms[1..], target) || (target != "" && In(target[0], cls) && Accepts(terms, target[1..]))
  }

  /** `globMatches` */
  predicate GlobMatches(scope: string, target: string) {
    match ReadRegExp(Compile(scope)) case Some(terms) => Accepts(terms, target) case None => false
  }

  // ----- What a glob means -----

  predicate Run(cls: Class, s: string) { forall i :: 0 <= i < |s| ==> In(s[i], cls) }

  /** `**` stands for any run without line terminators, `*` for any run without a slash, every
      other character for itself. */
  ghost predicate Glob(scope: string, target: string)
    decreases |scope|
  {
    if scope == "" then target == ""
    else if "**" <= scope then
      exists k :: 0 <= k <= |target| && Run(NotLineTerminator, target[..k]) && Glob(scope[2..], target[k..])
    else if scope[0] == '*' then
      exists k :: 0 <= k <= |target| && Run(Not('/'), target[..k]) && Glob(scope[1..], target[k..])
    else target != "" && target[0] == scope[0] && Glob(scope[1..], target[1..])
  }

  // ----- The rewrite yields the intended terms -----

  /** The terms a scope is rewritten to; a NUL of its own is taken for a rewritten `**`. */
  function Tokens(scope: string): seq<Term>
    decreases |scope|
  {
    if scope == "" then []
    else if "**" <= scope then [Many(NotLineTerminator)] + Tokens(scope[2..])
    else if scope[0] == '*' then [Many(Not('/'))] + Tokens(scope[1..])
    else if scope[0] == NUL then [Many(NotLineTerminator)] + Tokens(scope[1..])
    else [One(Only(scope[0]))] + Tokens(scope[1..])
  }

  lemma ExpandedLiteral(c: char, s: string)
    requires c != '*' && c != NUL
    ensures MarkDouble([c] + s) == [c] + MarkDouble(s)
    ensures ExpandSingle([c] + s) == [c] + ExpandSingle(s)
    ensures ExpandDouble([c] + s) == [c] + ExpandDouble(s)
  {
    ReplaceSkips(c, s, "**", [NUL]);
    ReplaceSkips(c, s, "*", "[^/]*");
    ReplaceSkips(c, s, [NUL], ".*");
  }

  lemma {:induction false} ExpandedLiterals(word: string, s: string)
    requires '*' !in word && NUL !in word
    ensures MarkDouble(word + s) == word + MarkDouble(s)
    ensures ExpandSingle(word + s) == word + ExpandSingle(s)
    ensures ExpandDouble(word + s) == word + ExpandDouble(s)
  {
    if word == "" {
      assert word + s == s;
      assert forall t: string :: "" + t == t;
    } else {
      ExpandedLiterals(word[1..], s);
      ExpandedLiteral(word[0], word[1..] + s);
      assert word + s == [word[0]] + (word[1..] + s);
      assert forall t: string :: [word[0]] + (word[1..] + t) == word + t;
    }
  }

  lemma BodyOfLiteral(c: char, s: string)
    requires c != '*' && c != NUL
    ensures Body([c] + s) == (if IsEscaped(c) then ['\\', c] else [c]) + Body(s)
  {
    var word := if IsEscaped(c) then ['\\', c] else [c];
    assert ([c] + s)[1..] == s;
    ExpandedLiterals(word, Escape(s));
    ExpandedLiterals(word, MarkDouble(Escape(s)));
    ExpandedLiterals(word, ExpandSingle(MarkDouble(Escape(s))));
  }

  lemma BodyOfNul(s: string)
    ensures Body([NUL] + s) == ".*" + Body(s)
  {
    assert ([NUL] + s)[1..] == s;
    ReplaceSkips(NUL, Escape(s), "**", [NUL]);
    ReplaceSkips(NUL, MarkDouble(Escape(s)), "*", "[^/]*");
    ReplaceHits(ExpandSingle(MarkDouble(Escape(s))), [NUL], ".*");
  }

  lemma BodyOfDouble(s: string)
    ensures Body("**" + s) == ".*" + Body(s)
  {
    assert ("**" + s)[1..] == "*" + s && ("*" + s)[1..] == s;
    assert Escape("**" + s) == "**" + Escape(s);
    ReplaceHits(Escape(s), "**", [NUL]);
    ReplaceSkips(NUL, MarkDouble(Escape(s)), "*", "[^/]*");
    ReplaceHits(ExpandSingle(MarkDouble(Escape(s))), [NUL], ".*");
  }

  lemma BodyOfSingle(s: string)
    requires s == "" || s[0] != '*'
    ensures Body("*" + s) == "[^/]*" + Body(s)
  {
    var e := Escape(s);
    assert ("*" + s)[1..] == s;
    assert Escape("*" + s) == "*" + e;
    assert !("**" <= "*" + e) by {
      if |e| > 0 { assert ("*" + e)[1] == e[0]; }
    }
    assert ("*" + e)[1..] == e;
    assert MarkDouble("*" + e) == "*" + MarkDouble(e);
    ReplaceHits(MarkDouble(e), "*", "[^/]*");
    var rest := ExpandSingle(MarkDouble(e));
    SingleSurvives(rest);
  }

  lemma SingleSurvives(s: string)
    ensures ExpandDouble("[^/]*" + s) == "[^/]*" + ExpandDouble(s)
  {
    ReplaceSkips('*', s, [NUL], ".*");
    ExpandedLiterals("[^/]", "*" + s);
    assert "[^/]*" + s == "[^/]" + ("*" + s);
    assert "[^/]" + (['*'] + ExpandDouble(s)) == "[^/]*" + ExpandDouble(s);
  }

  /** A rewritten scope never starts with a star, so no literal before it is quantified. */
  lemma NoLeadingStar(scope: string)
    ensures (Body(scope) + "$")[0] != '*'
  {
    if scope == "" {
    } else if "**" <= scope {
      BodyOfDouble(scope[2..]);
      assert scope == "**" + scope[2..];
    } else if scope[0] == '*' {
      BodyOfSingle(scope[1..]);
      assert scope == "*" + scope[1..];
    } else if scope[0] == NUL {
      BodyOfNul(scope[1..]);
      assert scope == [NUL] + scope[1..];
    } else {
      BodyOfLiteral(scope[0], scope[1..]);
      assert scope == [scope[0]] + scope[1..];
    }
  }

  /** The two classes a star can follow. */
  lemma AtomReads(piece: string, cls: Class, t: string)
    requires (piece == ".*" && cls == NotLineTerminator) || (piece == "[^/]*" && cls == Not('/'))
    requires piece <= t
    ensures ReadAtom(t) == Some((cls, |piece| - 1))
  {
    assert t[0] == piece[0];
    if piece == "[^/]*" { assert t[1] == '^' && t[2] == '/' && t[3] == ']'; }
  }

  lemma StarredReads(piece: string, cls: Class, body: string, rest: seq<Term>)
    requires (piece == ".*" && cls == NotLineTerminator) || (piece == "[^/]*" && cls == Not('/'))
    requires ReadTerms(body + "$") == Some(rest)
    ensures ReadTerms((piece + body) + "$") == Some([Many(cls)] + rest)
  {
    var t := (piece + body) + "$";
    var n := |piece| - 1;
    assert t[n] == '*' && t[n + 1..] == body + "$";
    AtomReads(piece, cls, t);
  }

  lemma LiteralReads(c: char, body: string, rest: seq<Term>)
    requires c != '*' && (body + "$")[0] != '*' && ReadTerms(body + "$") == Some(rest)
    ensures ReadTerms(((if IsEscaped(c) then ['\\', c] else [c]) + body) + "$") == Some([One(Only(c))] + rest)
  {
    var word := if IsEscaped(c) then ['\\', c] else [c];
    var t := (word + body) + "$";
    assert t[|word|..] == body + "$";
    assert t[|word|] == (body + "$")[0];
    assert ReadAtom(t) == Some((Only(c), |word|));
  }

  lemma {:induction false} RewriteYieldsTokens(scope: string)
    ensures ReadTerms(Body(scope) + "$") == Some(Tokens(scope))
    decreases |scope|
  {
    if scope == "" {
      assert Body("") + "$" == "$";
    } else if "**" <= scope {
      var s := scope[2..];
      assert scope == "**" + s;
      RewriteYieldsTokens(s);
      BodyOfDouble(s);
      StarredReads(".*", NotLineTerminator, Body(s), Tokens(s));
    } else if scope[0] == '*' {
      var s := scope[1..];
      assert scope == "*" + s;
      RewriteYieldsTokens(s);
      BodyOfSingle(s);
      StarredReads("[^/]*", Not('/'), Body(s), Tokens(s));
    } else if scope[0] == NUL {
      var s := scope[1..];
      assert scope == [NUL] + s;
      RewriteYieldsTokens(s);
      BodyOfNul(s);
      StarredReads(".*", NotLineTerminator, Body(s), Tokens(s));
    } else {
      var c, s := scope[0], scope[1..];
      assert scope == [c] + s;
      RewriteYieldsTokens(s);
      BodyOfLiteral(c, s);
      NoLeadingStar(s);
      LiteralReads(c, Body(s), Tokens(s));
    }
  }

  // ----- Language -----

  /** A starred class takes any run of its characters. */
  lemma {:induction false} ManyIsRun(cls: Class, rest: seq<Term>, target: string)
    ensures Accepts([Many(cls)] + rest, target) <==>
      exists k :: 0 <= k <= |target| && Run(cls, target[..k]) && Accepts(rest, target[k..])
    decreases |target|
  {
    var terms := [Many(cls)] + rest;
    assert terms[1..] == rest;
    if Accepts(rest, target) {
      assert target[0..] == target && Run(cls, target[..0]);
    }
    if target != "" {
      ManyIsRun(cls, rest, target[1..]);
      if In(target[0], cls) && Accepts(terms, target[1..]) {
        var k :| 0 <= k <= |target[1..]| && Run(cls, target[1..][..k]) && Accepts(rest, target[1..][k..]);
        assert target[1..][k..] == target[k + 1..];
        var run := target[..k + 1];
        forall i | 0 <= i < |run| ensures In(run[i], cls) {
          if i > 0 { assert run[i] == target[1..][..k][i - 1]; }
        }
        assert Run(cls, target[..k + 1]);
      }
      if k :| 0 < k <= |target| && Run(cls, target[..k]) && Accepts(rest, target[k..]) {
        assert target[..k][0] == target[0];
        assert target[1..][k - 1..] == target[k..];
        var run := target[1..][..k - 1];
        forall i | 0 <= i < |run| ensures In(run[i], cls) {
          assert run[i] == target[..k][i + 1];
        }
        assert Run(cls, run);
      }
    }
    if k :| 0 <= k <= |target| && Run(cls, target[..k]) && Accepts(rest, target[k..]) {
      if k == 0 { assert target[0..] == target; }
    }
  }

  lemma {:induction false} TokensMeanGlob(scope: string, target: string)
    requires NUL !in scope
    ensures Accepts(Tokens(scope), target) <==> Glob(scope, target)
    decreases |scope|
  {
    if scope == "" {
    } else if "**" <= scope {
      ManyIsRun(NotLineTerminator, Tokens(scope[2..]), target);
      forall k | 0 <= k <= |target| ensures Accepts(Tokens(scope[2..]), target[k..]) <==> Glob(scope[2..], target[k..]) {
        TokensMeanGlob(scope[2..], target[k..]);
      }
    } else if scope[0] == '*' {
      ManyIsRun(Not('/'), Tokens(scope[1..]), target);
      forall k | 0 <= k <= |target| ensures Accepts(Tokens(scope[1..]), target[k..]) <==> Glob(scope[1..], target[k..]) {
        TokensMeanGlob(scope[1..], target[k..]);
      }
    } else {
      assert ([One(Only(scope[0]))] + Tokens(scope[1..]))[1..] == Tokens(scope[1..]);
      if target != "" { TokensMeanGlob(scope[1..], target[1..]); }
    }
  }

  /** The compiled expression accepts exactly what its tokens accept. */
  lemma MatchesTokens(scope: string, target: string)
    ensures GlobMatches(scope, target) <==> Accepts(Tokens(scope), target)
  {
    RewriteYieldsTokens(scope);
    assert Compile(scope)[1..] == Body(scope) + "$";
  }

  // ----- Exactly when the rewrite is right -----

  /** The scope without stars and NULs: the shortest target its expression accepts. */
  function Skeleton(scope: string): string {
    if scope == "" then ""
    else (if scope[0] == '*' || scope[0] == NUL then "" else [scope[0]]) + Skeleton(scope[1..])
  }

  /** How many characters every target of the glob has to have. */
  function Literals(scope: string): nat {
    if scope == "" then 0 else (if scope[0] == '*' then 0 else 1) + Literals(scope[1..])
  }

  lemma {:induction false} SkeletonAccepted(scope: string)
    ensures Accepts(Tokens(scope), Skeleton(scope))
    decreases |scope|
  {
    if scope == "" {
    } else if "**" <= scope {
      SkeletonAccepted(scope[2..]);
      assert scope[1..][1..] == scope[2..] && scope[1..][0] == '*';
      assert Skeleton(scope) == Skeleton(scope[2..]);
      assert ([Many(NotLineTerminator)] + Tokens(scope[2..]))[1..] == Tokens(scope[2..]);
    } else {
      SkeletonAccepted(scope[1..]);
      assert Tokens(scope)[1..] == Tokens(scope[1..]);
      if scope[0] == '*' || scope[0] == NUL {
        assert Skeleton(scope) == Skeleton(scope[1..]);
      } else {
        assert Skeleton(scope)[1..] == Skeleton(scope[1..]);
      }
    }
  }

  lemma DoubleIsNoLiteral(scope: string)
    requires "**" <= scope
    ensures Literals(scope) == Literals(scope[2..])
  {
    assert scope[1..][1..] == scope[2..];
  }

  lemma {:induction false} GlobNeedsLiterals(scope: string, target: string)
    requires Glob(scope, target)
    ensures |target| >= Literals(scope)
    decreases |scope|
  {
    hide Run;
    if scope == "" {
    } else if "**" <= scope {
      var k :| 0 <= k <= |target| && Run(NotLineTerminator, target[..k]) && Glob(scope[2..], target[k..]);
      GlobNeedsLiterals(scope[2..], target[k..]);
      DoubleIsNoLiteral(scope);
    } else if scope[0] == '*' {
      var k :| 0 <= k <= |target| && Run(Not('/'), target[..k]) && Glob(scope[1..], target[k..]);
      GlobNeedsLiterals(scope[1..], target[k..]);
    } else {
      GlobNeedsLiterals(scope[1..], target[1..]);
    }
  }

  lemma {:induction false} SkeletonShorter(scope: string)
    ensures |Skeleton(scope)| <= Literals(scope)
    ensures NUL in scope ==> |Skeleton(scope)| < Literals(scope)
  {
    if scope != "" { SkeletonShorter(scope[1..]); }
  }

  /** The rewrite agrees with the glob on every target exactly for scopes without NUL. */
  lemma RewriteCorrectExactly(scope: string)
    ensures (forall target :: GlobMatches(scope, target) <==> Glob(scope, target)) <==> NUL !in scope
  {
    if NUL in scope {
      var target := Skeleton(scope);
      MatchesTokens(scope, target);
      SkeletonAccepted(scope);
      SkeletonShorter(scope);
      if Glob(scope, target) { GlobNeedsLiterals(scope, target); }
      assert GlobMatches(scope, target) && !Glob(scope, target);
    } else {
      forall target ensures GlobMatches(scope, target) <==> Glob(scope, target) {
        MatchesTokens(scope, target);
        TokensMeanGlob(scope, target);
      }
    }
  }

  /** `prefix**` matches exactly the extensions of the prefix that stay free of line terminators. */
  lemma {:induction false} PrefixScope(prefix: string, target: string)
    requires '*' !in prefix && NUL !in prefix
    ensures GlobMatches(prefix + "**", target) <==> prefix <= target && Run(NotLineTerminator, target[|prefix|..])
  {
    RewriteCorrectExactly(prefix + "**");
    PrefixGlob(prefix, target);
  }

  lemma {:induction false} PrefixGlob(prefix: string, target: string)
    requires '*' !in prefix
    ensures Glob(prefix + "**", target) <==> prefix <= target && Run(NotLineTerminator, target[|prefix|..])
  {
    var scope := prefix + "**";
    if prefix == "" {
      assert scope == "**" && scope[2..] == "";
      if Run(NotLineTerminator, target) {
        assert target[..|target|] == target && target[|target|..] == "";
      }
      if k :| 0 <= k <= |target| && Run(NotLineTerminator, target[..k]) && Glob("", target[k..]) {
        assert target[..k] == target;
      }
    } else {
      assert scope[1..] == prefix[1..] + "**";
      assert scope[0] == prefix[0];
      if target != "" {
        PrefixGlob(prefix[1..], target[1..]);
        if target[0] == prefix[0] {
          assert prefix[1..] <= target[1..] <==> prefix <= target by {
            if prefix[1..] <= target[1..] { assert prefix == [prefix[0]] + prefix[1..] && target == [target[0]] + target[1..]; }
          }
          if prefix <= target { assert target[1..][|prefix| - 1..] == target[|prefix|..]; }
        }
      }
    }
  }
}

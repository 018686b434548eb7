/** The shell quoter of the review-agent probe (scripts/probe-review-agent-runtime.ts) against
    POSIX token recognition and quote removal (XCU sections 2.2 and 2.3). */
module ShellQuote {
  import opened Strings
  import opened Wrappers

  const NUL: char := '\0'

  /** `shellQuote` */
  function Quoted(value: string): string { "'" + ReplaceAll(value, "'", "'\"'\"'") + "'" }

  /** Spelled out: a value without single quotes stands between two of them, and each of its own becomes
      a closing quote, a double-quoted one and an opening quote. */
  lemma {:induction false} QuotedSpelled(value: string, more: string)
    requires '\'' !in value
    ensures Quoted(value) == "'" + value + "'"
    ensures Quoted(value + "'" + more) == "'" + value + "'\"'\"'" + Quoted(more)[1..]
  {
    KeptBefore(value, "");
    assert value + "" == value;
    QuoteReplaced(value, more);
    hide ReplaceAll;
    Regroup("'", value, "'\"'\"'", ReplaceAll(more, "'", "'\"'\"'"));
  }

  lemma {:induction false} QuoteReplaced(value: string, more: string)
    requires '\'' !in value
    ensures ReplaceAll(value + "'" + more, "'", "'\"'\"'") == value + ("'\"'\"'" + ReplaceAll(more, "'", "'\"'\"'"))
  {
    KeptBefore(value, "'" + more);
    ReplaceHits(more, "'", "'\"'\"'");
    assert value + ("'" + more) == value + "'" + more;
  }

  lemma Regroup(quote: string, before: string, middle: string, after: string)
    requires |quote| == 1
    ensures quote + (before + (middle + after)) + quote == quote + before + middle + (quote + after + quote)[1..]
  {
  }

  lemma {:induction false} KeptBefore(value: string, rest: string)
    requires '\'' !in value
    ensures ReplaceAll(value + rest, "'", "'\"'\"'") == value + ReplaceAll(rest, "'", "'\"'\"'")
  {
    if value == "" {
      assert value + rest == rest;
    } else {
      KeptBefore(value[1..], rest);
      ReplaceSkips(value[0], value[1..] + rest, "'", "'\"'\"'");
      assert value + rest == [value[0]] + (value[1..] + rest);
    }
  }

  // ----- The shell -----

  datatype Token = Word(text: string) | Redirect

  /** Single quotes keep every character up to the next one (section 2.2.2). */
  function SingleQuoted(t: string): (r: Option<(string, string)>)
    ensures r.Some? ==> |r.value.1| < |t|
  {
    if t == "" then None
    else if t[0] == '\'' then Some(("", t[1..]))
    else
      match SingleQuoted(t[1..]) case Some((s, rest)) => Some(([t[0]] + s, rest)) case None => None
  }

  /** Double quotes keep every character except the backslash before `$`, a backquote, a double
      quote, a backslash or a newline (section 2.2.3). Expansions are outside this reader. */
  function DoubleQuoted(t: string): (r: Option<(string, string)>)
    ensures r.Some? ==> |r.value.1| < |t|
  {
    if t == "" || t[0] == '$' || t[0] == '`' then None
    else if t[0] == '"' then Some(("", t[1..]))
    else if t[0] == '\\' && |t| > 1 && t[1] in "$`\"\\\n" then
      match DoubleQuoted(t[2..])
      case Some((s, rest)) => Some(((if t[1] == '\n' then "" else [t[1]]) + s, rest))
      case None => None
    else
      match DoubleQuoted(t[1..]) case Some((s, rest)) => Some(([t[0]] + s, rest)) case None => None
  }

  function Finish(word: Option<string>, rest: Option<seq<Token>>): Option<seq<Token>> {
    match (word, rest)
    case (Some(w), Some(tokens)) => Some([Word(w)] + tokens)
    case (None, _) => rest
    case _ => None
  }

  /** Control operators, comments, expansions and patterns. */
  predicate IsReserved(c: char) {
    || c == '\n' || c == '&' || c == '|' || c == ';' || c == '<' || c == '(' || c == ')'
    || c == '$' || c == '`' || c == '*' || c == '?' || c == '[' || c == '#' || c == '~'
  }

  /** Reads tokens; `word` is the token in progress. None for text outside this reader: control
      operators, comments, expansions, patterns, unterminated quotes. */
  function Tokens(t: string, word: Option<string>): Option<seq<Token>>
    decreases |t|
  {
    var soFar := if word.Some? then word.value else "";
    if t == "" then Finish(word, Some([]))
    else if t[0] == '\'' then
      match SingleQuoted(t[1..]) case Some((s, rest)) => Tokens(rest, Some(soFar + s)) case None => None
    else if t[0] == '"' then
      match DoubleQuoted(t[1..]) case Some((s, rest)) => Tokens(rest, Some(soFar + s)) case None => None
    else if t[0] == '\\' then
      if |t| < 2 then None
      else if t[1] == '\n' then Tokens(t[2..], word)
      else Tokens(t[2..], Some(soFar + [t[1]]))
    else if t[0] == ' ' || t[0] == '\t' then Finish(word, Tokens(t[1..], None))
    else if t[0] == '>' then
      Finish(word, match Tokens(t[1..], None) case Some(tokens) => Some([Redirect] + tokens) case None => None)
    else if IsReserved(t[0]) then None
    else Tokens(t[1..], Some(soFar + [t[0]]))
  }

  /** A command line cannot hold NUL. */
  function Tokenize(t: string): Option<seq<Token>> { if NUL in t then None else Tokens(t, None) }

  // ----- Quoting -----

  /** Reading on from inside single quotes. */
  function InSingle(body: string, soFar: string): Option<seq<Token>> {
    match SingleQuoted(body) case Some((s, after)) => Tokens(after, Some(soFar + s)) case None => None
  }

  lemma CharacterKept(c: char, more: string, soFar: string)
    requires c != '\''
    ensures InSingle([c] + more, soFar) == InSingle(more, soFar + [c])
  {
    assert ([c] + more)[1..] == more;
    match SingleQuoted(more)
    case Some((s, after)) => assert soFar + ([c] + s) == (soFar + [c]) + s;
    case None =>
  }

  lemma QuoteEnds(rest: string, soFar: string)
    ensures InSingle("'" + rest, soFar) == Tokens(rest, Some(soFar))
  {
    assert ("'" + rest)[1..] == rest && soFar + "" == soFar;
  }

  lemma QuoteKept(more: string, soFar: string)
    ensures InSingle("'\"'\"'" + more, soFar) == InSingle(more, soFar + "'")
  {
    var double := "\"'\"" + ("'" + more);
    assert "'\"'\"'" + more == "'" + double;
    QuoteEnds(double, soFar);
    DoubleQuotedQuote("'" + more);
    assert double[1..] == "'\"" + ("'" + more);
    assert ("'" + more)[1..] == more;
  }

  /** The escaped body after an opening single quote: its characters up to the quote that ends
      the argument, however many quotes the value itself contains. */
  lemma {:induction false} BodyReads(value: string, rest: string, soFar: string)
    ensures InSingle(ReplaceAll(value, "'", "'\"'\"'") + ("'" + rest), soFar) == Tokens(rest, Some(soFar + value))
    decreases |value|
  {
    hide Tokens;
    hide InSingle;
    var end := "'" + rest;
    if value == "" {
      QuoteEnds(rest, soFar);
      assert ReplaceAll(value, "'", "'\"'\"'") + end == end;
      assert soFar + value == soFar;
    } else {
      var c, more := value[0], ReplaceAll(value[1..], "'", "'\"'\"'");
      assert value == [c] + value[1..];
      assert (soFar + [c]) + value[1..] == soFar + value;
      BodyReads(value[1..], rest, soFar + [c]);
      if c == '\'' {
        ReplaceHits(value[1..], "'", "'\"'\"'");
        QuoteKept(more + end, soFar);
        assert ("'\"'\"'" + more) + end == "'\"'\"'" + (more + end);
      } else {
        ReplaceSkips(c, value[1..], "'", "'\"'\"'");
        CharacterKept(c, more + end, soFar);
        assert ([c] + more) + end == [c] + (more + end);
      }
    }
  }

  lemma DoubleQuotedQuote(rest: string)
    ensures DoubleQuoted("'\"" + rest) == Some(("'", rest))
  {
    var t := "'\"" + rest;
    assert t[0] == '\'' && t[1..] == "\"" + rest && t[1..][1..] == rest;
    assert DoubleQuoted(t[1..]) == Some(("", rest));
    assert ['\''] + "" == "'";
  }

  /** A quoted value extends the word in progress by exactly that value. */
  lemma QuotedReads(value: string, rest: string, word: Option<string>)
    ensures Tokens(Quoted(value) + rest, word) ==
      Tokens(rest, Some((if word.Some? then word.value else "") + value))
  {
    var body := ReplaceAll(value, "'", "'\"'\"'") + ("'" + rest);
    assert (Quoted(value) + rest)[1..] == body;
    BodyReads(value, rest, if word.Some? then word.value else "");
  }

  lemma {:induction false} QuotedKeepsNul(value: string)
    ensures NUL in ReplaceAll(value, "'", "'\"'\"'") <==> NUL in value
  {
    if value != "" {
      QuotedKeepsNul(value[1..]);
      if value[0] == '\'' {
        assert value == "'" + value[1..];
        ReplaceHits(value[1..], "'", "'\"'\"'");
      } else {
        assert value == [value[0]] + value[1..];
        ReplaceSkips(value[0], value[1..], "'", "'\"'\"'");
      }
    }
  }

  /** The shell reads a quoted value as one word equal to the value, exactly when the value has
      no NUL. */
  lemma QuotedIsOneWord(value: string)
    ensures Tokenize(Quoted(value)) == Some([Word(value)]) <==> NUL !in value
  {
    QuotedKeepsNul(value);
    assert Quoted(value) + "" == Quoted(value);
    QuotedReads(value, "", None);
    assert "" + value == value;
    assert [Word(value)] + [] == [Word(value)];
  }

  /** The probe's command line. */
  function ProbeCommand(content: string, path: string): string {
    "printf '%s' " + Quoted(content) + " > " + Quoted(path)
  }

  lemma BlankReads(rest: string, word: Option<string>)
    ensures Tokens(" " + rest, word) == Finish(word, Tokens(rest, None))
  {
    assert (" " + rest)[1..] == rest;
  }

  lemma RedirectReads(rest: string, tokens: seq<Token>)
    requires Tokens(rest, None) == Some(tokens)
    ensures Tokens(">" + rest, None) == Some([Redirect] + tokens)
  {
    assert (">" + rest)[1..] == rest;
  }

  lemma LastWordReads(value: string)
    ensures Tokens(Quoted(value), None) == Some([Word(value)])
  {
    assert Quoted(value) + "" == Quoted(value);
    QuotedReads(value, "", None);
    assert "" + value == value;
    assert [Word(value)] + [] == [Word(value)];
  }

  lemma LetterReads(c: char, rest: string, word: Option<string>)
    requires 'a' <= c <= 'z'
    ensures Tokens([c] + rest, word) == Tokens(rest, Some((if word.Some? then word.value else "") + [c]))
  {
    var t := [c] + rest;
    assert t[1..] == rest && t[0] == c && t != "";
    assert !IsReserved(c) && c != '\'' && c != '"' && c != '\\' && c != ' ' && c != '\t' && c != '>';
  }

  lemma Assoc(a: string, b: string, c: string)
    ensures (a + b) + c == a + (b + c)
  {
  }

  lemma {:induction false} LettersRead(letters: string, rest: string, soFar: string)
    requires forall i :: 0 <= i < |letters| ==> 'a' <= letters[i] <= 'z'
    ensures Tokens(letters + rest, Some(soFar)) == Tokens(rest, Some(soFar + letters))
    decreases |letters|
  {
    if letters == "" {
      assert letters + rest == rest && soFar + letters == soFar;
    } else {
      var c, more := letters[0], letters[1..];
      assert letters == [c] + more;
      LetterReads(c, more + rest, Some(soFar));
      LettersRead(more, rest, soFar + [c]);
      Assoc([c], more, rest);
      Assoc(soFar, [c], more);
    }
  }

  /** A command name and the blank after it. */
  lemma NameReads(name: string, rest: string, tokens: seq<Token>)
    requires name != "" && forall i :: 0 <= i < |name| ==> 'a' <= name[i] <= 'z'
    requires Tokens(rest, None) == Some(tokens)
    ensures Tokens(name + (" " + rest), None) == Some([Word(name)] + tokens)
  {
    var after := " " + rest;
    var c, more := name[0], name[1..];
    assert name == [c] + more;
    BlankReads(rest, Some(name));
    LetterReads(c, more + after, None);
    assert "" + [c] == [c];
    LettersRead(more, after, [c]);
    Assoc([c], more, after);
  }

  /** `'%s' ` and what follows it. */
  lemma FormatReads(rest: string, tokens: seq<Token>)
    requires Tokens(rest, None) == Some(tokens)
    ensures Tokens("'%s' " + rest, None) == Some([Word("%s")] + tokens)
  {
    var after := " " + rest;
    assert ("'%s' " + rest)[1..] == ['%'] + (['s'] + ("'" + after));
    CharacterKept('%', ['s'] + ("'" + after), "");
    CharacterKept('s', "'" + after, "%");
    QuoteEnds(after, "%s");
    assert "" + ['%'] == "%" && "%" + ['s'] == "%s";
    BlankReads(rest, Some("%s"));
  }

  lemma ArgumentsRead(content: string, path: string)
    ensures Tokens(Quoted(content) + (" " + (">" + (" " + Quoted(path)))), None) ==
      Some([Word(content)] + ([Redirect] + [Word(path)]))
  {
    var target := " " + Quoted(path);
    LastWordReads(path);
    BlankReads(Quoted(path), None);
    RedirectReads(target, [Word(path)]);
    BlankReads(">" + target, Some(content));
    QuotedReads(content, " " + (">" + target), None);
    assert "" + content == content;
  }

  lemma SpellCommand(content: string, path: string)
    ensures ProbeCommand(content, path) ==
      "printf" + (" " + ("'%s' " + (Quoted(content) + (" " + (">" + (" " + Quoted(path)))))))
  {
  }

  lemma CommandKeepsNul(content: string, path: string)
    requires NUL !in content && NUL !in path
    ensures NUL !in ProbeCommand(content, path)
  {
    QuotedKeepsNul(content);
    QuotedKeepsNul(path);
  }

  /** The probe's command prints the marker content and redirects to the marker path, whatever
      characters the two contain. */
  lemma ProbeCommandReads(content: string, path: string)
    requires NUL !in content && NUL !in path
    ensures Tokens(ProbeCommand(content, path), None) ==
      Some([Word("printf")] + ([Word("%s")] + ([Word(content)] + ([Redirect] + [Word(path)]))))
    ensures NUL !in ProbeCommand(content, path)
  {
    hide Tokens;
    CommandKeepsNul(content, path);
    var arguments := Quoted(content) + (" " + (">" + (" " + Quoted(path))));
    ArgumentsRead(content, path);
    FormatReads(arguments, [Word(content)] + ([Redirect] + [Word(path)]));
    NameReads("printf", "'%s' " + arguments, [Word("%s")] + ([Word(content)] + ([Redirect] + [Word(path)])));
    SpellCommand(content, path);
  }
}

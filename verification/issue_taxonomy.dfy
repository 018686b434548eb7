/** Issue taxonomy configuration and classification (scripts/reconcile-issue-taxonomy.ts). */
module IssueTaxonomy {
  import opened Ordering
  import opened Wrappers

  datatype Class = CustomerEvaluation | MaintainerDevelopment | SyntheticDemo

  datatype TaxonomyLabel = TaxonomyLabel(class_: Class, name: string, color: string, description: string)

  datatype Historical = Historical(issueNumber: int, class_: Class)

  datatype TitlePrefix = TitlePrefix(prefix: string, class_: Class)

  datatype Config = Config(
    maxOpenIssues: int, maxPages: int, labels: seq<TaxonomyLabel>, historicalIssues: seq<Historical>,
    recognizedTitlePrefixes: seq<TitlePrefix>)

  /** toLowerCase, toUpperCase and `<=` on code units. */
  datatype Env = Env(lower: string -> string, upper: string -> string, leq: (string, string) -> bool)

  const CLASSES: seq<Class> := [CustomerEvaluation, MaintainerDevelopment, SyntheticDemo]

  function ClassName(c: Class): string {
    match c
    case CustomerEvaluation => "customer-evaluation"
    case MaintainerDevelopment => "maintainer-development"
    case SyntheticDemo => "synthetic-demo"
  }

  function LabelName(c: Class): string { "type: " + ClassName(c) }

  lemma LabelNamesSpelled()
    ensures LabelName(CustomerEvaluation) == "type: customer-evaluation"
    ensures LabelName(MaintainerDevelopment) == "type: maintainer-development"
    ensures LabelName(SyntheticDemo) == "type: synthetic-demo"
  {
    assert "type: " + "customer-evaluation" == "type: customer-evaluation";
    assert "type: " + "maintainer-development" == "type: maintainer-development";
    assert "type: " + "synthetic-demo" == "type: synthetic-demo";
  }

  lemma LabelNamesDiffer(c: Class, d: Class)
    ensures LabelName(c) == LabelName(d) <==> c == d
  {
    assert LabelName(c)[6] == ClassName(c)[0] && LabelName(d)[6] == ClassName(d)[0];
  }

  // ----- validateTaxonomyConfigSemantics -----

  datatype ConfigError = WrongClasses | WrongName | LimitTooHigh | HistoryUnsorted | PrefixesUnsorted | PrefixesOverlap

  predicate LabelsValid(labels: seq<TaxonomyLabel>) {
    |labels| == 3 && forall i :: 0 <= i < 3 ==> labels[i].class_ == CLASSES[i] && labels[i].name == LabelName(CLASSES[i])
  }

  predicate ClassesCanonical(labels: seq<TaxonomyLabel>) {
    && |labels| == 3 && labels[0].class_ == CustomerEvaluation && labels[1].class_ == MaintainerDevelopment
    && labels[2].class_ == SyntheticDemo
  }

  predicate HistoryValid(history: seq<Historical>) {
    && (forall i :: 0 <= i < |history| ==> history[i].issueNumber > 0)
    && forall i, j :: 0 <= i < j < |history| ==> history[i].issueNumber < history[j].issueNumber
  }

  predicate Before(env: Env, a: string, b: string) { env.leq(a, b) && a != b }

  /** Each prefix comes strictly after the one before it, the first after `previous`. */
  predicate PrefixesSorted(env: Env, previous: string, prefixes: seq<TitlePrefix>)
    decreases |prefixes|
  {
    prefixes == [] ||
    (Before(env, previous, prefixes[0].prefix) && PrefixesSorted(env, prefixes[0].prefix, prefixes[1..]))
  }

  /** None empty, and each strictly before every later one. */
  lemma {:induction false} PrefixesSortedExactly(env: Env, previous: string, prefixes: seq<TitlePrefix>)
    requires TotalOrder(env.leq)
    ensures PrefixesSorted(env, previous, prefixes) <==>
      && (forall i :: 0 <= i < |prefixes| ==> !env.leq(prefixes[i].prefix, previous))
      && forall i, j :: 0 <= i < j < |prefixes| ==> !env.leq(prefixes[j].prefix, prefixes[i].prefix)
    decreases |prefixes|
  {
    if prefixes != [] {
      var first, rest := prefixes[0].prefix, prefixes[1..];
      PrefixesSortedExactly(env, first, rest);
      forall x, y ensures Before(env, x, y) <==> !env.leq(y, x) { BeforeExactly(env, x, y); }
      assert forall i :: 0 < i < |prefixes| ==> prefixes[i] == rest[i - 1];
      assert forall i :: 0 <= i < |rest| ==> rest[i] == prefixes[i + 1];
    }
  }

  predicate Overlap(a: TitlePrefix, b: TitlePrefix) { a.prefix <= b.prefix || b.prefix <= a.prefix }

  predicate PrefixesApart(prefixes: seq<TitlePrefix>) {
    forall i, j :: 0 <= i < |prefixes| && 0 <= j < |prefixes| && i != j ==> !Overlap(prefixes[i], prefixes[j])
  }

  predicate ConfigValid(env: Env, config: Config) {
    && LabelsValid(config.labels) && config.maxOpenIssues <= config.maxPages * 100
    && HistoryValid(config.historicalIssues)
    && PrefixesSorted(env, "", config.recognizedTitlePrefixes) && PrefixesApart(config.recognizedTitlePrefixes)
  }

  method CheckLabels(labels: seq<TaxonomyLabel>) returns (error: Option<ConfigError>)
    ensures error == None <==> LabelsValid(labels)
    ensures error.Some? ==> error.value == if ClassesCanonical(labels) then WrongName else WrongClasses
  {
    assert CLASSES[0] == CustomerEvaluation && CLASSES[1] == MaintainerDevelopment && CLASSES[2] == SyntheticDemo;
    if |labels| != |CLASSES| || exists i :: 0 <= i < 3 && labels[i].class_ != CLASSES[i] { return Some(WrongClasses); }
    for i := 0 to 3
      invariant forall j :: 0 <= j < i ==> labels[j].name == LabelName(CLASSES[j])
    {
      if labels[i].name != LabelName(labels[i].class_) { return Some(WrongName); }
    }
    return None;
  }

  method CheckHistory(history: seq<Historical>) returns (sorted: bool)
    ensures sorted <==> HistoryValid(history)
  {
    var previousIssueNumber := 0;
    for i := 0 to |history|
      invariant i == 0 ==> previousIssueNumber == 0
      invariant i > 0 ==> previousIssueNumber == history[i - 1].issueNumber > 0
      invariant HistoryValid(history[..i])
    {
      if history[i].issueNumber <= previousIssueNumber { return false; }
      HistoryGrows(history, i);
      previousIssueNumber := history[i].issueNumber;
    }
    assert history[..|history|] == history;
    return true;
  }

  lemma HistoryGrows(history: seq<Historical>, i: nat)
    requires i < |history| && HistoryValid(history[..i]) && history[i].issueNumber > 0
    requires i > 0 ==> history[i - 1].issueNumber < history[i].issueNumber
    ensures HistoryValid(history[..i + 1])
  {
    forall j, k | 0 <= j < k < i + 1 ensures history[j].issueNumber < history[k].issueNumber {
      if k == i && j < i - 1 { assert history[..i][j].issueNumber < history[..i][i - 1].issueNumber; }
      else if k < i { assert history[..i][j].issueNumber < history[..i][k].issueNumber; }
    }
  }

  lemma BeforeExactly(env: Env, a: string, b: string)
    requires TotalOrder(env.leq)
    ensures Before(env, a, b) <==> !env.leq(b, a)
  {
    assert env.leq(a, b) || env.leq(b, a);
  }

  method CheckSorted(env: Env, prefixes: seq<TitlePrefix>) returns (sorted: bool)
    requires TotalOrder(env.leq)
    ensures sorted <==> PrefixesSorted(env, "", prefixes)
  {
    hide TotalOrder;
    hide Before;
    var previousPrefix := "";
    for i := 0 to |prefixes|
      invariant PrefixesSorted(env, "", prefixes) <==> PrefixesSorted(env, previousPrefix, prefixes[i..])
    {
      BeforeExactly(env, previousPrefix, prefixes[i].prefix);
      if env.leq(prefixes[i].prefix, previousPrefix) { return false; }
      previousPrefix := prefixes[i].prefix;
    }
    return true;
  }

  /** For each entry, the first other entry it overlaps with. */
  method CheckApart(prefixes: seq<TitlePrefix>) returns (apart: bool)
    ensures apart <==> PrefixesApart(prefixes)
  {
    for i := 0 to |prefixes|
      invariant forall k, j :: 0 <= k < i && 0 <= j < |prefixes| && k != j ==> !Overlap(prefixes[k], prefixes[j])
    {
      if exists j :: 0 <= j < |prefixes| && j != i && Overlap(prefixes[j], prefixes[i]) { return false; }
    }
    return true;
  }

  method ValidateTaxonomyConfigSemantics(env: Env, config: Config) returns (r: Result<Config, ConfigError>)
    requires TotalOrder(env.leq)
    ensures r.Ok? <==> ConfigValid(env, config)
    ensures r.Ok? ==> r.value == config
    ensures r == Err(WrongClasses) <==> !ClassesCanonical(config.labels)
    ensures r == Err(WrongName) <==> ClassesCanonical(config.labels) && !LabelsValid(config.labels)
    ensures r == Err(LimitTooHigh) <==> LabelsValid(config.labels) && config.maxOpenIssues > 100 * config.maxPages
    ensures r == Err(HistoryUnsorted) <==>
      LabelsValid(config.labels) && config.maxOpenIssues <= 100 * config.maxPages && !HistoryValid(config.historicalIssues)
    ensures r == Err(PrefixesOverlap) ==> !PrefixesApart(config.recognizedTitlePrefixes)
    ensures r == Err(PrefixesUnsorted) ==> !PrefixesSorted(env, "", config.recognizedTitlePrefixes)
  {
    var labels := CheckLabels(config.labels);
    if labels.Some? { return Err(labels.value); }
    if config.maxOpenIssues > config.maxPages * 100 { return Err(LimitTooHigh); }
    var history := CheckHistory(config.historicalIssues);
    if !history { return Err(HistoryUnsorted); }
    var sorted := CheckSorted(env, config.recognizedTitlePrefixes);
    if !sorted { return Err(PrefixesUnsorted); }
    var apart := CheckApart(config.recognizedTitlePrefixes);
    if !apart { return Err(PrefixesOverlap); }
    return Ok(config);
  }

  // ----- classifyIssue -----

  function FindHistorical(history: seq<Historical>, issueNumber: int): (r: Option<Class>)
    ensures r.Some? <==> exists h :: h in history && h.issueNumber == issueNumber
    ensures r.Some? ==> Historical(issueNumber, r.value) in history
  {
    if history == [] then None
    else if history[0].issueNumber == issueNumber then Some(history[0].class_)
    else FindHistorical(history[1..], issueNumber)
  }

  function FindPrefix(prefixes: seq<TitlePrefix>, title: string): (r: Option<Class>)
    ensures r.Some? <==> exists p :: p in prefixes && p.prefix <= title
    ensures r.Some? ==> exists p :: p in prefixes && p.prefix <= title && p.class_ == r.value
  {
    if prefixes == [] then None
    else if prefixes[0].prefix <= title then Some(prefixes[0].class_)
    else FindPrefix(prefixes[1..], title)
  }

  function ClassifyIssue(config: Config, issueNumber: int, title: string): Option<Class> {
    var historical := FindHistorical(config.historicalIssues, issueNumber);
    if historical.Some? then historical else FindPrefix(config.recognizedTitlePrefixes, title)
  }

  lemma PrefixesNest(a: string, b: string, title: string)
    requires a <= title && b <= title
    ensures a <= b || b <= a
  {
    if |a| <= |b| { assert a == title[..|a|] == b[..|a|]; } else { assert b == title[..|b|] == a[..|b|]; }
  }

  /** Two prefixes of one title overlap, so a valid configuration matches a title at most once. */
  lemma AtMostOnePrefix(env: Env, config: Config, title: string, p: TitlePrefix, q: TitlePrefix)
    requires ConfigValid(env, config)
    requires p in config.recognizedTitlePrefixes && q in config.recognizedTitlePrefixes
    requires p.prefix <= title && q.prefix <= title
    ensures p == q
  {
    var prefixes := config.recognizedTitlePrefixes;
    var i :| 0 <= i < |prefixes| && prefixes[i] == p;
    var j :| 0 <= j < |prefixes| && prefixes[j] == q;
    PrefixesNest(p.prefix, q.prefix, title);
  }

  lemma AtMostOneHistorical(history: seq<Historical>, g: Historical, h: Historical)
    requires HistoryValid(history) && g in history && h in history && g.issueNumber == h.issueNumber
    ensures g == h
  {
    var i :| 0 <= i < |history| && history[i] == g;
    var j :| 0 <= j < |history| && history[j] == h;
    assert !(i < j) && !(j < i);
  }

  // ----- What decides the class -----

  predicate MappedByNumber(config: Config, issueNumber: int) {
    exists h :: h in config.historicalIssues && h.issueNumber == issueNumber
  }

  predicate MappedByTitle(config: Config, title: string) {
    exists p :: p in config.recognizedTitlePrefixes && p.prefix <= title
  }

  /** A historical mapping of the number decides whatever the title; without one the recognized prefix
      of the title does. */
  ghost predicate Decided(config: Config, issueNumber: int, title: string, c: Class) {
    && (forall h :: h in config.historicalIssues && h.issueNumber == issueNumber ==> c == h.class_)
    && (!MappedByNumber(config, issueNumber) ==>
          MappedByTitle(config, title) &&
          forall p :: p in config.recognizedTitlePrefixes && p.prefix <= title ==> c == p.class_)
  }

  lemma HistoryDecides(env: Env, config: Config, h: Historical, title: string)
    requires ConfigValid(env, config) && h in config.historicalIssues
    ensures ClassifyIssue(config, h.issueNumber, title) == Some(h.class_)
  {
    var found := FindHistorical(config.historicalIssues, h.issueNumber);
    AtMostOneHistorical(config.historicalIssues, h, Historical(h.issueNumber, found.value));
  }

  lemma PrefixDecides(env: Env, config: Config, issueNumber: int, p: TitlePrefix, title: string)
    requires ConfigValid(env, config) && !MappedByNumber(config, issueNumber)
    requires p in config.recognizedTitlePrefixes && p.prefix <= title
    ensures ClassifyIssue(config, issueNumber, title) == Some(p.class_)
  {
    var found := FindPrefix(config.recognizedTitlePrefixes, title);
    var q :| q in config.recognizedTitlePrefixes && q.prefix <= title && q.class_ == found.value;
    AtMostOnePrefix(env, config, title, p, q);
  }

  /** An issue has a class exactly when its number or its title is mapped, and then the one class the
      configuration decides on. */
  lemma ClassifyExactly(env: Env, config: Config, issueNumber: int, title: string)
    requires ConfigValid(env, config)
    ensures var class_ := ClassifyIssue(config, issueNumber, title);
      && (class_.Some? <==> MappedByNumber(config, issueNumber) || MappedByTitle(config, title))
      && forall c :: class_ == Some(c) <==> Decided(config, issueNumber, title, c)
  {
    hide ConfigValid;
    hide ClassifyIssue;
    if MappedByNumber(config, issueNumber) {
      var h :| h in config.historicalIssues && h.issueNumber == issueNumber;
      HistoryDecides(env, config, h, title);
      forall g | g in config.historicalIssues && g.issueNumber == issueNumber ensures g.class_ == h.class_ {
        HistoryDecides(env, config, g, title);
      }
    } else if MappedByTitle(config, title) {
      var p :| p in config.recognizedTitlePrefixes && p.prefix <= title;
      PrefixDecides(env, config, issueNumber, p, title);
      forall q | q in config.recognizedTitlePrefixes && q.prefix <= title ensures q.class_ == p.class_ {
        PrefixDecides(env, config, issueNumber, q, title);
      }
    } else {
      NothingDecides(config, issueNumber, title);
    }
  }

  lemma NothingDecides(config: Config, issueNumber: int, title: string)
    requires !MappedByNumber(config, issueNumber) && !MappedByTitle(config, title)
    ensures ClassifyIssue(config, issueNumber, title) == None
  {
  }

  /** The class does not depend on the order of prefixes or historical entries. */
  lemma ClassForgetsOrder(env: Env, config: Config, other: Config, issueNumber: int, title: string)
    requires ConfigValid(env, config)
    requires multiset(other.recognizedTitlePrefixes) == multiset(config.recognizedTitlePrefixes)
    requires multiset(other.historicalIssues) == multiset(config.historicalIssues)
    ensures ClassifyIssue(other, issueNumber, title) == ClassifyIssue(config, issueNumber, title)
  {
    SameElements(other.recognizedTitlePrefixes, config.recognizedTitlePrefixes);
    SameElements(other.historicalIssues, config.historicalIssues);
    var g, h := FindHistorical(other.historicalIssues, issueNumber), FindHistorical(config.historicalIssues, issueNumber);
    if h.Some? {
      AtMostOneHistorical(config.historicalIssues, Historical(issueNumber, g.value), Historical(issueNumber, h.value));
    } else {
      SamePrefixClass(env, config, other, title);
    }
  }

  lemma SamePrefixClass(env: Env, config: Config, other: Config, title: string)
    requires ConfigValid(env, config)
    requires forall p :: p in other.recognizedTitlePrefixes <==> p in config.recognizedTitlePrefixes
    ensures FindPrefix(other.recognizedTitlePrefixes, title) == FindPrefix(config.recognizedTitlePrefixes, title)
  {
    var a, b := FindPrefix(other.recognizedTitlePrefixes, title), FindPrefix(config.recognizedTitlePrefixes, title);
    if b.Some? {
      var q :| q in config.recognizedTitlePrefixes && q.prefix <= title && q.class_ == b.value;
      assert q in other.recognizedTitlePrefixes;
      var p :| p in other.recognizedTitlePrefixes && p.prefix <= title && p.class_ == a.value;
      AtMostOnePrefix(env, config, title, p, q);
    }
  }
}

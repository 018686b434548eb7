/** Canonical text is unambiguous: what it means, and that it can be read back. */
module CanonicalProofs {
  import opened Ordering
  import opened Text
  import opened Wrappers
  import opened Canonical

  // ----- Values -----

  predicate KeysDistinct(members: seq<Member>) {
    forall i, j :: 0 <= i < j < |members| ==> members[i].key != members[j].key
  }

  /** Values a JavaScript program can hold: objects have one member per key, and numbers have a
      decimal text. */
  ghost predicate Representable(v: JsValue)
    decreases v
  {
    match v
    case JsNumber(text) => IsNumberText(text)
    case JsArray(items) => forall i :: 0 <= i < |items| ==> Representable(items[i])
    case JsObject(members) =>
      KeysDistinct(members) && forall i :: 0 <= i < |members| ==> Representable(members[i].value)
    case _ => true
  }

  /** Values without undefined, functions, symbols, big integers or non-finite numbers. */
  ghost predicate Plain(v: JsValue)
    decreases v
  {
    match v
    case JsArray(items) => forall i :: 0 <= i < |items| ==> Plain(items[i])
    case JsObject(members) => forall i :: 0 <= i < |members| ==> Plain(members[i].value)
    case JsNonFinite => false
    case JsUndefined => false
    case JsOther => false
    case _ => true
  }

  /** Values as normalisation leaves them: plain, without negative zero. */
  ghost predicate Printable(v: JsValue)
    decreases v
  {
    match v
    case JsNumber(text) => IsNumberText(text)
    case JsArray(items) => forall i :: 0 <= i < |items| ==> Printable(items[i])
    case JsObject(members) => forall i :: 0 <= i < |members| ==> Printable(members[i].value)
    case JsNegativeZero => false
    case JsNonFinite => false
    case JsUndefined => false
    case JsOther => false
    case _ => true
  }

  /** Canonicalisation throws exactly on values that are not plain. */
  lemma {:induction false} AcceptsExactlyPlain(v: JsValue)
    ensures CanonicalJson(v).Some? <==> Plain(v)
    decreases v, 1
  {
    match v
    case JsArray(items) => ItemsAccepted(items);
    case JsObject(members) => MembersAccepted(members);
    case _ =>
  }

  lemma {:induction false} ItemsAccepted(items: seq<JsValue>)
    ensures NormalizeItems(items).Some? <==> forall i :: 0 <= i < |items| ==> Plain(items[i])
    decreases items, 0
  {
    if items != [] {
      AcceptsExactlyPlain(items[0]);
      ItemsAccepted(items[1..]);
      assert forall i :: 0 < i < |items| ==> items[i] == items[1..][i - 1];
    }
  }

  lemma {:induction false} MembersAccepted(members: seq<Member>)
    ensures NormalizeMembers(members).Some? <==> forall i :: 0 <= i < |members| ==> Plain(members[i].value)
    decreases members, 0
  {
    if members != [] {
      hide Plain;
      var rest := members[1..];
      AcceptsExactlyPlain(members[0].value);
      MembersAccepted(rest);
      if forall i :: 0 <= i < |members| ==> Plain(members[i].value) {
        forall i | 0 <= i < |rest| ensures Plain(rest[i].value) { assert rest[i] == members[i + 1]; }
      }
      if Plain(members[0].value) && forall i :: 0 <= i < |rest| ==> Plain(rest[i].value) {
        forall i | 0 <= i < |members| ensures Plain(members[i].value) { if i > 0 { assert members[i] == rest[i - 1]; } }
      }
    }
  }

  // ----- Member order carries no meaning -----

  /** An object with distinct keys maps each key to the meaning of its member. */
  lemma {:induction false} MembersAsMap(members: seq<Member>)
    requires KeysDistinct(members)
    ensures forall m :: m in members ==> m.key in DenoteMembers(members) && DenoteMembers(members)[m.key] == Denote(m.value)
    ensures forall k :: k in DenoteMembers(members) ==> exists m :: m in members && m.key == k
  {
    if members != [] {
      var rest := members[1..];
      MembersAsMap(rest);
      var first := members[0];
      forall m | m in rest ensures m.key != first.key {
        var j :| 0 <= j < |rest| && rest[j] == m;
        assert members[0].key != members[j + 1].key;
      }
      assert first.key !in DenoteMembers(rest);
      forall k | k in DenoteMembers(members) ensures exists m :: m in members && m.key == k {
        if k == first.key { assert first in members; } else { var m :| m in rest && m.key == k; assert m in members; }
      }
    }
  }

  lemma KeyOrder()
    ensures TotalPreorder(KeyLeq)
  {
    CodeUnitOrder();
  }

  lemma {:induction false} SplitKeepsMembers(members: seq<Member>)
    ensures multiset(Indexed(members)) + multiset(Named(members)) == multiset(members)
  {
    if members != [] {
      SplitKeepsMembers(members[1..]);
      assert members == [members[0]] + members[1..];
    }
  }

  lemma ArrangePermutes(members: seq<Member>)
    ensures multiset(Arrange(members)) == multiset(members)
  {
    SplitKeepsMembers(Sort(KeyLeq, members));
  }

  lemma DistinctKeys(members: seq<Member>)
    requires KeysDistinct(members)
    ensures Distinct(members) && Separates(KeyLeq, members)
  {
    forall a, b | a in members && b in members && KeyLeq(a, b) && KeyLeq(b, a) ensures a == b {
      LeqAntisymmetric(a.key, b.key);
      var i, j :| 0 <= i < |members| && 0 <= j < |members| && members[i] == a && members[j] == b;
      assert !(i < j) && !(j < i);
    }
  }

  lemma ArrangeKeepsKeysDistinct(members: seq<Member>)
    requires KeysDistinct(members)
    ensures KeysDistinct(Arrange(members))
  {
    hide Arrange;
    hide Leq;
    var arranged := Arrange(members);
    DistinctKeys(members);
    ArrangePermutes(members);
    DistinctPermutes(members, arranged);
    SameElements(members, arranged);
    forall i, j | 0 <= i < j < |arranged| ensures arranged[i].key != arranged[j].key {
      assert arranged[i] in members && arranged[j] in members && arranged[i] != arranged[j];
      LeqTotal(arranged[i].key, arranged[j].key);
    }
  }

  /** The arrangement depends on the members alone, not on the order they were inserted in. */
  lemma ArrangeForgetsOrder(a: seq<Member>, b: seq<Member>)
    requires KeysDistinct(a) && multiset(a) == multiset(b)
    ensures Arrange(a) == Arrange(b)
  {
    KeyOrder();
    DistinctKeys(a);
    SortForgetsOrder(KeyLeq, a, b);
  }

  /** Keys print in the order of a rebuilt JavaScript object: array indices by number, then all
      other keys by code unit. */
  lemma PrintedKeyOrder(members: seq<Member>)
    ensures var n := |Indexed(Sort(KeyLeq, members))|;
      var r := Arrange(members);
      && n <= |r|
      && (forall i :: 0 <= i < n ==> IsIndex(r[i].key))
      && (forall i, j :: 0 <= i < j < n ==> Decimal(r[i].key) <= Decimal(r[j].key))
      && (forall i :: n <= i < |r| ==> !IsIndex(r[i].key))
      && (forall i, j :: n <= i < j < |r| ==> Leq(r[i].key, r[j].key))
  {
    var sorted := Sort(KeyLeq, members);
    var r, indices := Arrange(members), Sort(NumericLeq, Indexed(sorted));
    KeyOrder();
    SortSorts(KeyLeq, members);
    SortSorts(NumericLeq, Indexed(sorted));
    SameElements(indices, Indexed(sorted));
    NamedKeepsOrder(sorted);
    var n := |indices|;
    forall i | 0 <= i < n ensures IsIndex(r[i].key) { assert r[i] == indices[i] && indices[i] in indices; }
    forall i, j | 0 <= i < j < n ensures Decimal(r[i].key) <= Decimal(r[j].key) {
      assert NumericLeq(indices[i], indices[j]);
      assert IsIndex(r[i].key) && IsIndex(r[j].key);
    }
    forall i, j | n <= i < j < |r| ensures Leq(r[i].key, r[j].key) {
      assert KeyLeq(Named(sorted)[i - n], Named(sorted)[j - n]);
    }
  }

  lemma {:induction false} NamedKeepsOrder(members: seq<Member>)
    requires Sorted(KeyLeq, members)
    ensures Sorted(KeyLeq, Named(members))
    ensures forall i :: 0 <= i < |Named(members)| ==> !IsIndex(Named(members)[i].key)
  {
    if members != [] {
      NamedKeepsOrder(members[1..]);
      var rest := Named(members[1..]);
      forall i | 0 <= i < |rest| ensures KeyLeq(members[0], rest[i]) {
        assert rest[i] in rest && rest[i] in members[1..];
      }
    }
  }

  /** Rearranging members leaves the meaning of an object alone. */
  lemma SameMembersSameMap(a: seq<Member>, b: seq<Member>)
    requires KeysDistinct(a) && KeysDistinct(b) && multiset(a) == multiset(b)
    ensures DenoteMembers(a) == DenoteMembers(b)
  {
    MembersAsMap(a);
    MembersAsMap(b);
    SameElements(a, b);
  }

  /** Normalisation preserves meaning and stays within JSON. */
  lemma {:induction false} NormalizePreserves(v: JsValue)
    requires Representable(v) && Normalize(v).Some?
    ensures Representable(Normalize(v).value) && Printable(Normalize(v).value)
    ensures Denote(Normalize(v).value) == Denote(v)
    decreases v, 1
  {
    match v
    case JsArray(items) => ItemsPreserve(items);
    case JsObject(members) =>
      MembersPreserve(members);
      ArrangePreserves(NormalizeMembers(members).value);
    case _ =>
  }

  lemma ArrangePreserves(members: seq<Member>)
    requires KeysDistinct(members) && forall m :: m in members ==> Representable(m.value) && Printable(m.value)
    ensures Representable(JsObject(Arrange(members))) && Printable(JsObject(Arrange(members)))
    ensures DenoteMembers(Arrange(members)) == DenoteMembers(members)
  {
    var arranged := Arrange(members);
    ArrangeKeepsKeysDistinct(members);
    ArrangePermutes(members);
    SameElements(members, arranged);
    SameMembersSameMap(members, arranged);
    forall i | 0 <= i < |arranged| ensures Representable(arranged[i].value) && Printable(arranged[i].value) {
      assert arranged[i] in arranged;
    }
  }

  lemma {:induction false} ItemsPreserve(items: seq<JsValue>)
    requires forall i :: 0 <= i < |items| ==> Representable(items[i])
    requires NormalizeItems(items).Some?
    ensures var normal := NormalizeItems(items).value;
      && (forall i :: 0 <= i < |normal| ==> Representable(normal[i]) && Printable(normal[i]))
      && DenoteItems(normal) == DenoteItems(items)
    decreases items, 0
  {
    var normal := NormalizeItems(items).value;
    forall i | 0 <= i < |items|
      ensures Representable(normal[i]) && Printable(normal[i]) && DenoteItems(normal)[i] == DenoteItems(items)[i]
    {
      NormalizePreserves(items[i]);
    }
  }

  lemma {:induction false} MembersPreserve(members: seq<Member>)
    requires KeysDistinct(members)
    requires forall i :: 0 <= i < |members| ==> Representable(members[i].value)
    requires NormalizeMembers(members).Some?
    ensures var normal := NormalizeMembers(members).value;
      && KeysDistinct(normal)
      && (forall m :: m in normal ==> Representable(m.value) && Printable(m.value))
      && DenoteMembers(normal) == DenoteMembers(members)
    decreases members, 0
  {
    var normal := NormalizeMembers(members).value;
    forall i | 0 <= i < |members|
      ensures Representable(normal[i].value) && Printable(normal[i].value) && Denote(normal[i].value) == Denote(members[i].value)
    {
      NormalizePreserves(members[i].value);
    }
    SameMeanings(normal, members);
  }

  lemma {:induction false} SameMeanings(a: seq<Member>, b: seq<Member>)
    requires |a| == |b|
    requires forall i :: 0 <= i < |a| ==> a[i].key == b[i].key && Denote(a[i].value) == Denote(b[i].value)
    ensures DenoteMembers(a) == DenoteMembers(b)
  {
    if a != [] { SameMeanings(a[1..], b[1..]); }
  }

  /** Equal meaning gives the same normal form, so the same text. */
  lemma {:induction false} SameMeaningSameForm(v: JsValue, w: JsValue)
    requires Representable(v) && Representable(w) && Normalize(v).Some? && Normalize(w).Some?
    requires Denote(v) == Denote(w)
    ensures Normalize(v) == Normalize(w)
    decreases v
  {
    match v
    case JsArray(items) =>
      assert w.JsArray?;
      ItemsSameForm(items, w.items);
    case JsObject(members) =>
      assert w.JsObject?;
      var others := w.members;
      MembersSameForm(members, others);
      MembersSameForm'(members, others);
      var a, b := NormalizeMembers(members).value, NormalizeMembers(others).value;
      assert KeysDistinct(a) && KeysDistinct(b);
      DistinctKeys(a);
      DistinctKeys(b);
      DistinctSameSet(a, b);
      ArrangeForgetsOrder(a, b);
    case _ =>
  }

  lemma {:induction false} ItemsSameForm(items: seq<JsValue>, others: seq<JsValue>)
    requires forall i :: 0 <= i < |items| ==> Representable(items[i])
    requires forall i :: 0 <= i < |others| ==> Representable(others[i])
    requires NormalizeItems(items).Some? && NormalizeItems(others).Some?
    requires DenoteItems(items) == DenoteItems(others)
    ensures NormalizeItems(items) == NormalizeItems(others)
    decreases items, 0
  {
    var a, b := NormalizeItems(items).value, NormalizeItems(others).value;
    assert |DenoteItems(items)| == |DenoteItems(others)|;
    forall i | 0 <= i < |items| ensures a[i] == b[i] {
      assert DenoteItems(items)[i] == DenoteItems(others)[i];
      SameMeaningSameForm(items[i], others[i]);
    }
    assert a == b;
  }

  ghost predicate Mergeable(members: seq<Member>, others: seq<Member>) {
    && KeysDistinct(members) && KeysDistinct(others)
    && (forall i :: 0 <= i < |members| ==> Representable(members[i].value))
    && (forall i :: 0 <= i < |others| ==> Representable(others[i].value))
    && NormalizeMembers(members).Some? && NormalizeMembers(others).Some?
    && DenoteMembers(members) == DenoteMembers(others)
  }

  /** A member of one object has its partner in the other. */
  lemma Partner(members: seq<Member>, others: seq<Member>, i: nat) returns (j: nat)
    requires Mergeable(members, others) && i < |members|
    ensures j < |others| && others[j].key == members[i].key
    ensures Denote(others[j].value) == Denote(members[i].value)
  {
    MembersAsMap(members);
    MembersAsMap(others);
    assert members[i] in members;
    var m :| m in others && m.key == members[i].key;
    j :| 0 <= j < |others| && others[j] == m;
  }

  lemma {:induction false} MembersSameForm(members: seq<Member>, others: seq<Member>)
    requires Mergeable(members, others)
    ensures forall m :: m in NormalizeMembers(members).value ==> m in NormalizeMembers(others).value
    decreases members, 0
  {
    var a, b := NormalizeMembers(members).value, NormalizeMembers(others).value;
    forall i | 0 <= i < |a| ensures a[i] in b {
      var j := Partner(members, others, i);
      SameMeaningSameForm(members[i].value, others[j].value);
      assert b[j] == a[i];
    }
  }

  lemma {:induction false} MembersSameForm'(members: seq<Member>, others: seq<Member>)
    requires Mergeable(members, others)
    ensures forall m :: m in NormalizeMembers(others).value ==> m in NormalizeMembers(members).value
    decreases members, 0
  {
    var a, b := NormalizeMembers(members).value, NormalizeMembers(others).value;
    forall j | 0 <= j < |b| ensures b[j] in a {
      var i := Partner(others, members, j);
      SameMeaningSameForm(members[i].value, others[j].value);
      assert a[i] == b[j];
    }
  }

  // ----- Reading the text back -----

  ghost predicate Terminated(rest: Text) { rest == [] || (!IsNumberChar(rest[0]) && !IsSpace(rest[0])) }

  lemma HexReads(c: CodeUnit)
    ensures ReadHex4(UnicodeEscape(c)[2..]) == Some(c)
  {
    HexDigitReads(c / 0x1000);
    HexDigitReads((c / 0x100) % 16);
    HexDigitReads((c / 0x10) % 16);
    HexDigitReads(c % 16);
    FourDigits(c);
  }

  lemma HexDigitReads(n: nat)
    requires n < 16
    ensures HexValue(HexDigit(n)) == Some(n)
  {
  }

  lemma FourDigits(c: nat)
    ensures 0x1000 * (c / 0x1000) + 0x100 * ((c / 0x100) % 16) + 0x10 * ((c / 0x10) % 16) + c % 16 == c
  {
    assert c == 0x10 * (c / 0x10) + c % 16;
    assert c / 0x10 == 0x10 * (c / 0x100) + (c / 0x10) % 16;
    assert c / 0x100 == 0x10 * (c / 0x1000) + (c / 0x100) % 16;
  }

  lemma UnitReads(c: CodeUnit, rest: Text)
    ensures ReadChars(EscapeUnit(c) + rest) ==
      match ReadChars(rest) case Some((s, after)) => Some(([c] + s, after)) case None => None
  {
    var t := EscapeUnit(c) + rest;
    if EscapeUnit(c) == UnicodeEscape(c) {
      HexReads(c);
      assert t[2..6] == UnicodeEscape(c)[2..] && t[6..] == rest;
    } else if EscapeUnit(c) == [c] {
      assert t[1..] == rest;
    } else {
      assert t[2..] == rest;
    }
  }

  /** A character that is not escaped reads as itself. */
  lemma LiteralUnitReads(c: CodeUnit, rest: Text)
    requires c >= 0x20 && c != QUOTE && c != BACKSLASH
    ensures ReadChars([c] + rest) ==
      match ReadChars(rest) case Some((s, after)) => Some(([c] + s, after)) case None => None
  {
    assert ([c] + rest)[1..] == rest;
  }

  lemma Join(a: Text, b: Text, c: Text)
    ensures (a + b) + c == a + (b + c)
  {
  }

  lemma PairReads(a: CodeUnit, b: CodeUnit, s: Text, more: Text, rest: Text)
    requires IsLead(a) && IsTrail(b) && ReadChars(more) == Some((s, rest))
    ensures ReadChars([a, b] + more) == Some(([a, b] + s, rest))
  {
    LiteralUnitReads(b, more);
    LiteralUnitReads(a, [b] + more);
    assert [a, b] + more == [a] + ([b] + more) && [a, b] + s == [a] + ([b] + s);
  }

  /** A quoted string reads back unit by unit. */
  lemma {:induction false} StringReads(s: Text, rest: Text)
    ensures ReadChars(Escape(s) + ([QUOTE] + rest)) == Some((s, rest))
    decreases |s|
  {
    var tail := [QUOTE] + rest;
    if s == [] {
      assert Escape(s) + tail == tail && tail[1..] == rest;
    } else if IsLead(s[0]) && |s| > 1 && IsTrail(s[1]) {
      StringReads(s[2..], rest);
      var pair := [s[0], s[1]];
      assert s == pair + s[2..] && s[..2] == pair;
      PairReads(s[0], s[1], s[2..], Escape(s[2..]) + tail, rest);
      Join(pair, Escape(s[2..]), tail);
    } else {
      StringReads(s[1..], rest);
      Join(EscapeUnit(s[0]), Escape(s[1..]), tail);
      UnitReads(s[0], Escape(s[1..]) + tail);
      assert [s[0]] + s[1..] == s;
    }
  }

  lemma {:induction false} NumberRunEnds(text: Text, rest: Text)
    requires forall i :: 0 <= i < |text| ==> IsNumberChar(text[i])
    requires Terminated(rest)
    ensures NumberRun(text + rest) == |text|
  {
    if text == [] {
      assert text + rest == rest;
    } else {
      NumberRunEnds(text[1..], rest);
      assert (text + rest)[1..] == text[1..] + rest;
    }
  }

  lemma NumberReads(text: Text, rest: Text)
    requires IsNumberText(text) && Terminated(rest)
    ensures ReadValue(text + rest) == Some((JsNumber(text), rest))
  {
    var t := text + rest;
    NumberRunEnds(text, rest);
    assert t[0] == text[0];
    assert t[..|text|] == text && t[|text|..] == rest;
    assert IsDigit(t[0]) || t[0] == 0x2d;
    assert NULL[0] != t[0] && TRUE[0] != t[0] && FALSE[0] != t[0];
  }

  /** A printed value starts with a character that opens a value. */
  lemma Opens(v: JsValue)
    requires Printable(v)
    ensures Print(v) != [] && !IsSpace(Print(v)[0])
    ensures Print(v)[0] != CLOSE_BRACKET && Print(v)[0] != CLOSE_BRACE
  {
    match v
    case JsNumber(text) =>
      assert IsDigit(text[0]) || text[0] == 0x2d;
    case _ =>
  }

  lemma LiteralReads(word: Text, rest: Text)
    requires word == NULL || word == TRUE || word == FALSE
    ensures ReadValue(word + rest) == Some((if word == NULL then JsNull else JsBool(word == TRUE), rest))
  {
    var t := word + rest;
    assert t[0] == word[0];
    assert t[..|word|] == word && t[|word|..] == rest;
    assert word <= t;
    assert NULL[0] == 0x6e && TRUE[0] == 0x74 && FALSE[0] == 0x66;
  }

  lemma StringValueReads(s: Text, rest: Text)
    ensures ReadValue(Quote(s) + rest) == Some((JsString(s), rest))
  {
    QuotedKeyReads(s, rest);
  }

  lemma ArrayReads(body: Text, xs: seq<JsValue>, rest: Text)
    requires body != [] && !IsSpace(body[0]) && body[0] != CLOSE_BRACKET
    requires ReadItems(body) == Some((xs, rest))
    ensures ReadValue([OPEN_BRACKET] + body) == Some((JsArray(xs), rest))
  {
    assert ([OPEN_BRACKET] + body)[1..] == body;
  }

  lemma ObjectReads(body: Text, members: seq<Member>, rest: Text)
    requires body != [] && !IsSpace(body[0]) && body[0] != CLOSE_BRACE
    requires ReadMembers(body) == Some((members, rest))
    ensures ReadValue([OPEN_BRACE] + body) == Some((JsObject(members), rest))
  {
    hide ReadMembers;
    hide ReadItems;
    hide ReadChars;
    assert ([OPEN_BRACE] + body)[1..] == body;
  }

  lemma EmptyReads(rest: Text)
    ensures ReadValue([OPEN_BRACKET, CLOSE_BRACKET] + rest) == Some((JsArray([]), rest))
    ensures ReadValue([OPEN_BRACE, CLOSE_BRACE] + rest) == Some((JsObject([]), rest))
  {
    assert ([OPEN_BRACKET, CLOSE_BRACKET] + rest)[1..] == [CLOSE_BRACKET] + rest;
    assert ([CLOSE_BRACKET] + rest)[1..] == rest;
    assert ([OPEN_BRACE, CLOSE_BRACE] + rest)[1..] == [CLOSE_BRACE] + rest;
    assert ([CLOSE_BRACE] + rest)[1..] == rest;
  }

  lemma LastItemReads(t: Text, x: JsValue, rest: Text)
    requires ReadValue(t) == Some((x, [CLOSE_BRACKET] + rest))
    ensures ReadItems(t) == Some(([x], rest))
  {
    assert ([CLOSE_BRACKET] + rest)[1..] == rest;
  }

  lemma NextItemReads(t: Text, x: JsValue, tail: Text, xs: seq<JsValue>, rest: Text)
    requires ReadValue(t) == Some((x, [COMMA] + tail)) && tail != [] && !IsSpace(tail[0])
    requires ReadItems(tail) == Some((xs, rest))
    ensures ReadItems(t) == Some(([x] + xs, rest))
  {
    assert ([COMMA] + tail)[1..] == tail;
  }

  lemma LastMemberReads(t: Text, m: Member, rest: Text)
    requires ReadMember(t) == Some((m, [CLOSE_BRACE] + rest))
    ensures ReadMembers(t) == Some(([m], rest))
  {
    assert ([CLOSE_BRACE] + rest)[1..] == rest;
  }

  lemma NextMemberReads(t: Text, m: Member, tail: Text, ms: seq<Member>, rest: Text)
    requires ReadMember(t) == Some((m, [COMMA] + tail)) && tail != [] && !IsSpace(tail[0])
    requires ReadMembers(tail) == Some((ms, rest))
    ensures ReadMembers(t) == Some(([m] + ms, rest))
  {
    assert ([COMMA] + tail)[1..] == tail;
  }

  lemma QuotedKeyReads(key: Text, tail: Text)
    ensures Quote(key) + tail != [] && (Quote(key) + tail)[0] == QUOTE
    ensures ReadChars((Quote(key) + tail)[1..]) == Some((key, tail))
  {
    StringReads(key, tail);
    var body := Escape(key) + ([QUOTE] + tail);
    Wrapped([QUOTE], Escape(key), [QUOTE], tail);
    assert ([QUOTE] + body)[1..] == body;
  }

  lemma KeyedValueReads(key: Text, value: Text, x: JsValue, rest: Text)
    requires value != [] && !IsSpace(value[0]) && ReadValue(value) == Some((x, rest))
    ensures ReadMember(Quote(key) + ([COLON] + value)) == Some((Member(key, x), rest))
  {
    var tail := [COLON] + value;
    assert tail[1..] == value && tail[0] == COLON;
    QuotedKeyReads(key, tail);
  }

  /** A value followed by a delimiter or the end reads back as it is. */
  lemma {:induction false} ReadsBack(v: JsValue, rest: Text)
    requires Printable(v) && Terminated(rest)
    ensures ReadValue(Print(v) + rest) == Some((v, rest))
    decreases v, 1
  {
    match v
    case JsNull => LiteralReads(NULL, rest);
    case JsBool(b) => LiteralReads(if b then TRUE else FALSE, rest);
    case JsNumber(text) => NumberReads(text, rest);
    case JsString(s) => StringValueReads(s, rest);
    case JsArray(items) =>
      Wrapped([OPEN_BRACKET], PrintItems(items), [CLOSE_BRACKET], rest);
      if items == [] {
        EmptyReads(rest);
        assert Print(v) == [OPEN_BRACKET, CLOSE_BRACKET];
      } else {
        ItemsReadBack(items, rest);
        ArrayReads(PrintItems(items) + ([CLOSE_BRACKET] + rest), items, rest);
      }
    case JsObject(members) =>
      Wrapped([OPEN_BRACE], PrintMembers(members), [CLOSE_BRACE], rest);
      if members == [] {
        EmptyReads(rest);
        assert Print(v) == [OPEN_BRACE, CLOSE_BRACE];
      } else {
        MembersReadBack(members, rest);
        ObjectReads(PrintMembers(members) + ([CLOSE_BRACE] + rest), members, rest);
      }
    case _ =>
  }

  lemma Wrapped(open: Text, body: Text, close: Text, rest: Text)
    ensures (open + body + close) + rest == open + (body + (close + rest))
  {
  }

  ghost predicate ItemsRead(items: seq<JsValue>, rest: Text) {
    var body := PrintItems(items) + ([CLOSE_BRACKET] + rest);
    && body != [] && !IsSpace(body[0]) && body[0] != CLOSE_BRACKET
    && ReadItems(body) == Some((items, rest))
  }

  lemma {:induction false} ItemsReadBack(items: seq<JsValue>, rest: Text)
    requires items != []
    requires forall i :: 0 <= i < |items| ==> Printable(items[i])
    ensures ItemsRead(items, rest)
    decreases items, 0
  {
    var end := [CLOSE_BRACKET] + rest;
    Opens(items[0]);
    if |items| == 1 {
      ReadsBack(items[0], end);
      OneItemReads(items, rest);
    } else {
      ItemsReadBack(items[1..], rest);
      ReadsBack(items[0], [COMMA] + (PrintItems(items[1..]) + end));
      MoreItemsRead(items, rest);
    }
  }

  lemma OneItemReads(items: seq<JsValue>, rest: Text)
    requires |items| == 1
    requires Print(items[0]) != [] && !IsSpace(Print(items[0])[0]) && Print(items[0])[0] != CLOSE_BRACKET
    requires ReadValue(Print(items[0]) + ([CLOSE_BRACKET] + rest)) == Some((items[0], [CLOSE_BRACKET] + rest))
    ensures ItemsRead(items, rest)
  {
    var body := Print(items[0]) + ([CLOSE_BRACKET] + rest);
    assert body[0] == Print(items[0])[0];
    LastItemReads(body, items[0], rest);
    assert items == [items[0]];
  }

  lemma MoreItemsRead(items: seq<JsValue>, rest: Text)
    requires |items| > 1 && ItemsRead(items[1..], rest)
    requires Print(items[0]) != [] && !IsSpace(Print(items[0])[0]) && Print(items[0])[0] != CLOSE_BRACKET
    requires var tail := [COMMA] + (PrintItems(items[1..]) + ([CLOSE_BRACKET] + rest));
      ReadValue(Print(items[0]) + tail) == Some((items[0], tail))
    ensures ItemsRead(items, rest)
  {
    var tail := PrintItems(items[1..]) + ([CLOSE_BRACKET] + rest);
    var body := Print(items[0]) + ([COMMA] + tail);
    assert body[0] == Print(items[0])[0];
    Wrapped(Print(items[0]), [COMMA], PrintItems(items[1..]), [CLOSE_BRACKET] + rest);
    NextItemReads(body, items[0], tail, items[1..], rest);
    assert items == [items[0]] + items[1..];
  }

  lemma {:induction false} MemberReadsBack(m: Member, rest: Text)
    requires Printable(m.value) && Terminated(rest)
    ensures ReadMember(PrintMember(m) + rest) == Some((m, rest))
    decreases m, 0
  {
    Opens(m.value);
    ReadsBack(m.value, rest);
    assert (Print(m.value) + rest)[0] == Print(m.value)[0];
    KeyedValueReads(m.key, Print(m.value) + rest, m.value, rest);
    Wrapped(Quote(m.key), [COLON], Print(m.value), rest);
  }

  ghost predicate MembersRead(members: seq<Member>, rest: Text) {
    var body := PrintMembers(members) + ([CLOSE_BRACE] + rest);
    && body != [] && !IsSpace(body[0]) && body[0] != CLOSE_BRACE
    && ReadMembers(body) == Some((members, rest))
  }

  lemma {:induction false} MembersReadBack(members: seq<Member>, rest: Text)
    requires members != []
    requires forall i :: 0 <= i < |members| ==> Printable(members[i].value)
    ensures MembersRead(members, rest)
    decreases members, 0
  {
    var end := [CLOSE_BRACE] + rest;
    if |members| == 1 {
      MemberReadsBack(members[0], end);
      OneMemberReads(members, rest);
    } else {
      MembersReadBack(members[1..], rest);
      MemberReadsBack(members[0], [COMMA] + (PrintMembers(members[1..]) + end));
      MoreMembersRead(members, rest);
    }
  }

  lemma OneMemberReads(members: seq<Member>, rest: Text)
    requires |members| == 1
    requires var t := PrintMember(members[0]) + ([CLOSE_BRACE] + rest);
      ReadMember(t) == Some((members[0], [CLOSE_BRACE] + rest))
    ensures MembersRead(members, rest)
  {
    LastMemberReads(PrintMember(members[0]) + ([CLOSE_BRACE] + rest), members[0], rest);
    assert members == [members[0]];
    assert PrintMember(members[0])[0] == QUOTE;
  }

  lemma MoreMembersRead(members: seq<Member>, rest: Text)
    requires |members| > 1 && MembersRead(members[1..], rest)
    requires var tail := [COMMA] + (PrintMembers(members[1..]) + ([CLOSE_BRACE] + rest));
      ReadMember(PrintMember(members[0]) + tail) == Some((members[0], tail))
    ensures MembersRead(members, rest)
  {
    var tail := PrintMembers(members[1..]) + ([CLOSE_BRACE] + rest);
    Wrapped(PrintMember(members[0]), [COMMA], PrintMembers(members[1..]), [CLOSE_BRACE] + rest);
    NextMemberReads(PrintMember(members[0]) + ([COMMA] + tail), members[0], tail, members[1..], rest);
    assert members == [members[0]] + members[1..];
    assert PrintMember(members[0])[0] == QUOTE;
  }

  // ----- Main results -----

  /** Reading canonical text gives back the normal form of the value, with its keys in that order, and
      so what the value means. */
  lemma RoundTrip(v: JsValue)
    requires Representable(v) && Plain(v)
    ensures CanonicalJson(v).Some? && ParseTree(CanonicalJson(v).value) == Normalize(v)
    ensures Parse(CanonicalJson(v).value) == Some(Denote(v))
  {
    AcceptsExactlyPlain(v);
    NormalizePreserves(v);
    var n := Normalize(v).value;
    ReadsBack(n, []);
    Opens(n);
    assert Print(n) + [] == Print(n);
  }

  /** Two values have the same canonical text exactly when they are equal as maps, arrays and
      scalars. */
  lemma Unambiguous(v: JsValue, w: JsValue)
    requires Representable(v) && Plain(v) && Representable(w) && Plain(w)
    ensures CanonicalJson(v) == CanonicalJson(w) <==> Denote(v) == Denote(w)
  {
    RoundTrip(v);
    RoundTrip(w);
    if Denote(v) == Denote(w) { SameMeaningSameForm(v, w); }
  }

  /** Parsing canonical text and digesting the result again changes nothing: whatever key order
      the parsed object enumerates, its text and digest are those of the original. */
  lemma SnapshotKeepsDigest<D>(hash: Text -> D, v: JsValue, snapshot: JsValue)
    requires Representable(v) && Plain(v) && Representable(snapshot) && Plain(snapshot)
    requires CanonicalJson(v).Some? && Parse(CanonicalJson(v).value) == Some(Denote(snapshot))
    ensures Digest(hash, snapshot) == Digest(hash, v)
  {
    RoundTrip(v);
    Unambiguous(v, snapshot);
  }

  // ----- The text survives UTF-8 encoding -----

  /** Every surrogate is half of a pair. Only such text is encoded without replacement
      characters when it is fed to the hash. */
  predicate WellFormed(t: Text) {
    if t == [] then true
    else if IsLead(t[0]) then |t| > 1 && IsTrail(t[1]) && WellFormed(t[2..])
    else !IsTrail(t[0]) && WellFormed(t[1..])
  }

  lemma {:induction false} WellFormedJoin(a: Text, b: Text)
    requires WellFormed(a) && WellFormed(b)
    ensures WellFormed(a + b)
  {
    if a == [] {
      assert a + b == b;
    } else if IsLead(a[0]) {
      WellFormedJoin(a[2..], b);
      assert (a + b)[2..] == a[2..] + b;
    } else {
      WellFormedJoin(a[1..], b);
      assert (a + b)[1..] == a[1..] + b;
    }
  }

  lemma {:induction false} NoSurrogatesWellFormed(t: Text)
    requires forall i :: 0 <= i < |t| ==> !IsLead(t[i]) && !IsTrail(t[i])
    ensures WellFormed(t)
  {
    if t != [] { NoSurrogatesWellFormed(t[1..]); }
  }

  lemma {:induction false} EscapeWellFormed(s: Text)
    ensures WellFormed(Escape(s))
  {
    if s == [] {
    } else if IsLead(s[0]) && |s| > 1 && IsTrail(s[1]) {
      EscapeWellFormed(s[2..]);
      assert (s[..2] + Escape(s[2..]))[2..] == Escape(s[2..]);
    } else {
      EscapeWellFormed(s[1..]);
      NoSurrogatesWellFormed(EscapeUnit(s[0]));
      WellFormedJoin(EscapeUnit(s[0]), Escape(s[1..]));
    }
  }

  lemma EnclosedWellFormed(open: CodeUnit, body: Text, close: CodeUnit)
    requires open < 0x80 && close < 0x80 && WellFormed(body)
    ensures WellFormed([open] + body + [close])
  {
    NoSurrogatesWellFormed([open]);
    NoSurrogatesWellFormed([close]);
    WellFormedJoin([open], body);
    WellFormedJoin([open] + body, [close]);
  }

  lemma SeparatedWellFormed(first: Text, separator: CodeUnit, rest: Text)
    requires separator < 0x80 && WellFormed(first) && WellFormed(rest)
    ensures WellFormed(first + [separator] + rest)
  {
    NoSurrogatesWellFormed([separator]);
    WellFormedJoin(first, [separator]);
    WellFormedJoin(first + [separator], rest);
  }

  lemma {:induction false} PrintWellFormed(v: JsValue)
    requires Representable(v)
    ensures WellFormed(Print(v))
    decreases v, 1
  {
    match v
    case JsNull => NoSurrogatesWellFormed(NULL);
    case JsBool(b) => NoSurrogatesWellFormed(if b then TRUE else FALSE);
    case JsNumber(text) => NoSurrogatesWellFormed(text);
    case JsNegativeZero => NoSurrogatesWellFormed(ZERO);
    case JsString(s) =>
      EscapeWellFormed(s);
      EnclosedWellFormed(QUOTE, Escape(s), QUOTE);
    case JsArray(items) =>
      PrintItemsWellFormed(items);
      EnclosedWellFormed(OPEN_BRACKET, PrintItems(items), CLOSE_BRACKET);
    case JsObject(members) =>
      PrintMembersWellFormed(members);
      EnclosedWellFormed(OPEN_BRACE, PrintMembers(members), CLOSE_BRACE);
    case _ =>
  }

  lemma {:induction false} PrintItemsWellFormed(items: seq<JsValue>)
    requires forall i :: 0 <= i < |items| ==> Representable(items[i])
    ensures WellFormed(PrintItems(items))
    decreases items, 0
  {
    if items != [] { PrintWellFormed(items[0]); }
    if |items| > 1 {
      PrintItemsWellFormed(items[1..]);
      SeparatedWellFormed(Print(items[0]), COMMA, PrintItems(items[1..]));
    }
  }

  lemma {:induction false} PrintMembersWellFormed(members: seq<Member>)
    requires forall i :: 0 <= i < |members| ==> Representable(members[i].value)
    ensures WellFormed(PrintMembers(members))
    decreases members, 0
  {
    if members != [] {
      EscapeWellFormed(members[0].key);
      EnclosedWellFormed(QUOTE, Escape(members[0].key), QUOTE);
      PrintWellFormed(members[0].value);
      SeparatedWellFormed(Quote(members[0].key), COLON, Print(members[0].value));
    }
    if |members| > 1 {
      PrintMembersWellFormed(members[1..]);
      SeparatedWellFormed(PrintMember(members[0]), COMMA, PrintMembers(members[1..]));
    }
  }

  /** Canonical text never contains a lone surrogate, even when its strings do. */
  lemma CanonicalTextWellFormed(v: JsValue)
    requires Representable(v) && Plain(v)
    ensures CanonicalJson(v).Some? && WellFormed(CanonicalJson(v).value)
  {
    AcceptsExactlyPlain(v);
    NormalizePreserves(v);
    PrintWellFormed(Normalize(v).value);
  }

  ghost predicate CollisionFree<D(!new)>(hash: Text -> D) {
    forall a, b :: hash(a) == hash(b) ==> a == b
  }

  /** Under a collision-free hash, equal digests mean equal values. */
  lemma DigestIdentifies<D(!new)>(hash: Text -> D, v: JsValue, w: JsValue)
    requires CollisionFree(hash)
    requires Representable(v) && Plain(v) && Representable(w) && Plain(w)
    ensures Digest(hash, v) == Digest(hash, w) <==> Denote(v) == Denote(w)
  {
    Unambiguous(v, w);
    RoundTrip(v);
    RoundTrip(w);
  }
}

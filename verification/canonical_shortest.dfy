/** Canonical text is the shortest JSON text for its meaning, and the only one with keys in order and
    lower-case escapes. */
module CanonicalShortest {
  import opened Ordering
  import opened Text
  import opened Wrappers
  import opened Canonical
  import opened CanonicalProofs

  // ----- Texts read by parts -----

  predicate IsUpperHex(c: CodeUnit) { 0x41 <= c <= 0x46 }

  /** No hexadecimal digit of a \u escape is a capital. */
  predicate LowerHex(t: Text)
    decreases |t|
  {
    if t == [] then true
    else if t[0] == BACKSLASH && |t| >= 6 && t[1] == 0x75 then
      !IsUpperHex(t[2]) && !IsUpperHex(t[3]) && !IsUpperHex(t[4]) && !IsUpperHex(t[5]) && LowerHex(t[6..])
    else if t[0] == BACKSLASH && |t| >= 2 then LowerHex(t[2..])
    else LowerHex(t[1..])
  }

  /** Getting from t to rest takes at least as many characters as `printed` has, and where it takes no
      more, in lower case, it takes just those. */
  ghost predicate Covers(t: Text, printed: Text, rest: Text) {
    && |t| >= |printed| + |rest| && WellFormed(rest)
    && (LowerHex(t) ==> LowerHex(rest) && (|t| == |printed| + |rest| ==> t == printed + rest))
  }

  lemma CoversBoth(t: Text, a: Text, middle: Text, b: Text, rest: Text)
    requires Covers(t, a, middle) && Covers(middle, b, rest)
    ensures Covers(t, a + b, rest)
  {
    assert (a + b) + rest == a + (b + rest);
  }

  lemma CoversUnit(t: Text)
    requires t != [] && WellFormed(t) && t[0] != BACKSLASH && !IsLead(t[0])
    ensures Covers(t, [t[0]], t[1..])
  {
    assert t == [t[0]] + t[1..];
  }

  lemma {:induction false} CoversSpace(t: Text)
    requires WellFormed(t)
    ensures Covers(t, [], SkipSpace(t))
    decreases |t|
  {
    if t != [] && IsSpace(t[0]) {
      CoversUnit(t);
      CoversSpace(t[1..]);
      assert SkipSpace(t) == SkipSpace(t[1..]);
    } else {
      assert [] + t == t;
    }
  }

  lemma CoversPair(t: Text)
    requires t != [] && WellFormed(t) && IsLead(t[0])
    ensures |t| >= 2 && IsTrail(t[1]) && Covers(t, t[..2], t[2..])
  {
    assert t == t[..2] + t[2..] && t[1..][1..] == t[2..];
    assert LowerHex(t) == LowerHex(t[1..]) && LowerHex(t[1..]) == LowerHex(t[1..][1..]);
  }

  // ----- Strings -----

  lemma {:induction false} EscapeOneMore(c: CodeUnit, s: Text)
    ensures |Escape([c] + s)| <= |EscapeUnit(c)| + |Escape(s)|
    ensures |Escape([c] + s)| == |EscapeUnit(c)| + |Escape(s)| ==> Escape([c] + s) == EscapeUnit(c) + Escape(s)
  {
    var t := [c] + s;
    assert t[1..] == s;
    if IsLead(c) && s != [] && IsTrail(s[0]) {
      assert t[2..] == s[1..];
      assert Escape(s) == EscapeUnit(s[0]) + Escape(s[1..]);
    }
  }

  lemma {:induction false} WellFormedAfter(t: Text, k: nat)
    requires WellFormed(t) && k <= |t| && forall i :: 0 <= i < k ==> !IsLead(t[i]) && !IsTrail(t[i])
    ensures WellFormed(t[k..])
  {
    if k > 0 {
      WellFormedAfter(t[1..], k - 1);
      assert t[1..][k - 1..] == t[k..];
    } else {
      assert t[0..] == t;
    }
  }

  lemma LowerDigit(c: CodeUnit)
    requires HexValue(c).Some?
    ensures !IsLead(c) && !IsTrail(c) && HexValue(c).value < 16
    ensures !IsUpperHex(c) ==> c == HexDigit(HexValue(c).value)
  {
  }

  lemma DigitsOf(a: nat, b: nat, c: nat, d: nat)
    requires a < 16 && b < 16 && c < 16 && d < 16
    ensures var n := 0x1000 * a + 0x100 * b + 0x10 * c + d;
      n / 0x1000 == a && (n / 0x100) % 16 == b && (n / 0x10) % 16 == c && n % 16 == d
  {
    LastOf(0x10 * (0x10 * a + b) + c, d);
    LastOf(0x10 * a + b, c);
    LastOf(a, b);
    var n := 0x1000 * a + 0x100 * b + 0x10 * c + d;
    assert n == 0x10 * (0x10 * (0x10 * a + b) + c) + d;
    assert n / 0x100 == n / 0x10 / 0x10 && n / 0x1000 == n / 0x100 / 0x10;
  }

  lemma LastOf(q: nat, r: nat)
    requires r < 0x10
    ensures (0x10 * q + r) / 0x10 == q && (0x10 * q + r) % 0x10 == r
  {
  }

  lemma HexSpelled(t: Text)
    requires |t| == 4 && ReadHex4(t).Some?
    ensures forall i :: 0 <= i < 4 ==> !IsLead(t[i]) && !IsTrail(t[i])
    ensures (forall i :: 0 <= i < 4 ==> !IsUpperHex(t[i])) ==> UnicodeEscape(ReadHex4(t).value) == [BACKSLASH, 0x75] + t
  {
    LowerDigit(t[0]);
    LowerDigit(t[1]);
    LowerDigit(t[2]);
    LowerDigit(t[3]);
    DigitsOf(HexValue(t[0]).value, HexValue(t[1]).value, HexValue(t[2]).value, HexValue(t[3]).value);
    assert t == [t[0], t[1], t[2], t[3]];
  }

  lemma AtMostSix(c: CodeUnit)
    ensures |EscapeUnit(c)| <= 6 && (|EscapeUnit(c)| == 6 ==> EscapeUnit(c) == UnicodeEscape(c))
  {
  }

  /** A \u escape takes six characters, as many as any unit ever needs; in lower case it is the one
      written for a unit that needs them. */
  lemma CoversUnicode(t: Text)
    requires |t| >= 6 && t[0] == BACKSLASH && t[1] == 0x75 && WellFormed(t) && ReadHex4(t[2..6]).Some?
    ensures WellFormed(t[6..]) && Covers(t, EscapeUnit(ReadHex4(t[2..6]).value), t[6..])
  {
    hide ReadHex4;
    hide EscapeUnit;
    hide UnicodeEscape;
    var hex := t[2..6];
    var c := ReadHex4(hex).value;
    HexSpelled(hex);
    AtMostSix(c);
    forall i | 0 <= i < 6 ensures !IsLead(t[i]) && !IsTrail(t[i]) { if i >= 2 { assert t[i] == hex[i - 2]; } }
    WellFormedAfter(t, 6);
    hide WellFormed;
    assert t == [t[0], t[1]] + hex + t[6..];
    if LowerHex(t) {
      forall i | 0 <= i < 4 ensures !IsUpperHex(hex[i]) { assert hex[i] == t[i + 2]; }
    }
  }

  /** A two-character escape is never shorter than what is written for its unit. */
  lemma CoversLetter(t: Text)
    requires |t| >= 2 && t[0] == BACKSLASH && t[1] != 0x75 && EscapeLetter(t[1]).Some? && WellFormed(t)
    ensures Covers(t, EscapeUnit(EscapeLetter(t[1]).value), t[2..])
  {
    WellFormedAfter(t, 2);
    assert t == t[..2] + t[2..] && t[..2] == [t[0], t[1]];
  }

  lemma CoversLiteral(t: Text)
    requires t != [] && WellFormed(t) && t[0] >= 0x20 && t[0] != QUOTE && t[0] != BACKSLASH && !IsLead(t[0])
    ensures Covers(t, EscapeUnit(t[0]), t[1..])
  {
    CoversUnit(t);
  }

  /** Printing one more unit takes at most its own escape. */
  lemma CoversOneMore(t: Text, c: CodeUnit, s: Text, rest: Text)
    requires Covers(t, EscapeUnit(c) + (Escape(s) + [QUOTE]), rest)
    ensures Covers(t, Escape([c] + s) + [QUOTE], rest)
  {
    EscapeOneMore(c, s);
    assert EscapeUnit(c) + (Escape(s) + [QUOTE]) == (EscapeUnit(c) + Escape(s)) + [QUOTE];
  }

  /** A string read up to its closing quote takes at least what is printed for it. */
  lemma {:induction false} CoversChars(t: Text)
    requires WellFormed(t) && ReadChars(t).Some?
    ensures var (s, rest) := ReadChars(t).value; Covers(t, Escape(s) + [QUOTE], rest)
    decreases |t|, 1
  {
    var (s, rest) := ReadChars(t).value;
    if t[0] == QUOTE {
      CoversUnit(t);
      assert Escape([]) + [QUOTE] == [QUOTE];
    } else if t[0] == BACKSLASH {
      if |t| >= 6 && t[1] == 0x75 {
        CoversUnicode(t);
        CoversNext(t, ReadHex4(t[2..6]).value, t[6..]);
      } else {
        CoversLetter(t);
        CoversNext(t, EscapeLetter(t[1]).value, t[2..]);
      }
    } else if IsLead(t[0]) {
      CoversPair(t);
      var (s2, _) := ReadChars(t[1..]).value;
      assert t[1..][1..] == t[2..];
      var (more, _) := ReadChars(t[2..]).value;
      assert s == [t[0], t[1]] + more;
      CoversChars(t[2..]);
      CoversBoth(t, t[..2], t[2..], Escape(more) + [QUOTE], rest);
      assert s[2..] == more && s[..2] == t[..2];
      assert t[..2] + (Escape(more) + [QUOTE]) == (t[..2] + Escape(more)) + [QUOTE];
    } else {
      CoversLiteral(t);
      CoversNext(t, t[0], t[1..]);
    }
  }

  lemma {:induction false} CoversNext(t: Text, c: CodeUnit, tail: Text)
    requires |tail| < |t| && Covers(t, EscapeUnit(c), tail) && ReadChars(tail).Some?
    ensures var (s, rest) := ReadChars(tail).value; Covers(t, Escape([c] + s) + [QUOTE], rest)
    decreases |t|, 0
  {
    var (s, rest) := ReadChars(tail).value;
    CoversChars(tail);
    CoversBoth(t, EscapeUnit(c), tail, Escape(s) + [QUOTE], rest);
    CoversOneMore(t, c, s, rest);
  }

  // ----- Values -----

  lemma {:induction false} CoversRun(t: Text, n: nat)
    requires WellFormed(t) && n <= |t|
    requires forall i :: 0 <= i < n ==> t[i] != BACKSLASH && !IsLead(t[i])
    ensures Covers(t, t[..n], t[n..])
    decreases n
  {
    if n == 0 {
      assert t[0..] == t && [] + t == t && t[..0] == [];
    } else {
      CoversUnit(t);
      CoversRun(t[1..], n - 1);
      CoversBoth(t, [t[0]], t[1..], t[1..][..n - 1], t[n..]);
      assert t[1..][n - 1..] == t[n..] && [t[0]] + t[1..][..n - 1] == t[..n];
    }
  }

  lemma {:induction false} NumberRunChars(t: Text)
    ensures forall i :: 0 <= i < NumberRun(t) ==> IsNumberChar(t[i])
  {
    if t != [] && IsNumberChar(t[0]) { NumberRunChars(t[1..]); }
  }

  lemma CoversWord(t: Text, word: Text)
    requires word == NULL || word == TRUE || word == FALSE
    requires WellFormed(t) && word <= t
    ensures Covers(t, word, t[|word|..])
  {
    CoversRun(t, |word|);
    assert t[..|word|] == word;
  }

  lemma CoversNumber(t: Text)
    requires WellFormed(t)
    ensures Covers(t, t[..NumberRun(t)], t[NumberRun(t)..])
  {
    NumberRunChars(t);
    CoversRun(t, NumberRun(t));
  }

  /** One character and the space behind it. */
  lemma CoversMark(t: Text, mark: CodeUnit)
    requires t != [] && t[0] == mark && mark != BACKSLASH && !IsLead(mark) && WellFormed(t)
    ensures Covers(t, [mark], t[1..]) && Covers(t, [mark], SkipSpace(t[1..]))
  {
    CoversUnit(t);
    CoversSpace(t[1..]);
    CoversBoth(t, [mark], t[1..], [], SkipSpace(t[1..]));
    assert [mark] + [] == [mark];
  }

  /** Space and one character behind it, and the space behind that. */
  lemma CoversSpacedMark(t: Text, mark: CodeUnit)
    requires var next := SkipSpace(t); next != [] && next[0] == mark
    requires mark != BACKSLASH && !IsLead(mark) && WellFormed(t)
    ensures Covers(t, [mark], SkipSpace(t)[1..]) && Covers(t, [mark], SkipSpace(SkipSpace(t)[1..]))
  {
    CoversSpace(t);
    CoversMark(SkipSpace(t), mark);
    CoversBoth(t, [], SkipSpace(t), [mark], SkipSpace(t)[1..]);
    CoversBoth(t, [], SkipSpace(t), [mark], SkipSpace(SkipSpace(t)[1..]));
    assert [] + [mark] == [mark];
  }

  lemma CoversString(t: Text)
    requires t != [] && t[0] == QUOTE && WellFormed(t) && ReadChars(t[1..]).Some?
    ensures var (s, rest) := ReadChars(t[1..]).value; Covers(t, Quote(s), rest)
  {
    var (s, rest) := ReadChars(t[1..]).value;
    CoversUnit(t);
    CoversChars(t[1..]);
    CoversBoth(t, [QUOTE], t[1..], Escape(s) + [QUOTE], rest);
    assert [QUOTE] + (Escape(s) + [QUOTE]) == Quote(s);
  }

  /** A value read takes at least what is printed for it. */
  lemma {:induction false} CoversValue(t: Text)
    requires WellFormed(t) && ReadValue(t).Some?
    ensures var (v, rest) := ReadValue(t).value; Printable(v) && Covers(t, Print(v), rest)
    decreases |t|, 1
  {
    hide Covers;
    hide ReadChars;
    hide LowerHex;
    if t[0] == QUOTE {
      CoversString(t);
    } else if t[0] == OPEN_BRACKET {
      CoversArray(t);
    } else if t[0] == OPEN_BRACE {
      CoversObject(t);
    } else if NULL <= t {
      CoversWord(t, NULL);
    } else if TRUE <= t {
      CoversWord(t, TRUE);
    } else if FALSE <= t {
      CoversWord(t, FALSE);
    } else {
      CoversNumber(t);
    }
  }

  lemma CoversEmpty(t: Text, open: CodeUnit, close: CodeUnit)
    requires t != [] && t[0] == open && open < 0x80 && close < 0x80 && open != BACKSLASH && close != BACKSLASH && WellFormed(t)
    requires var body := SkipSpace(t[1..]); body != [] && body[0] == close
    ensures Covers(t, [open, close], SkipSpace(t[1..])[1..])
  {
    var body := SkipSpace(t[1..]);
    CoversMark(t, open);
    CoversUnit(body);
    CoversBoth(t, [open], body, [close], body[1..]);
    assert [open] + [close] == [open, close];
  }

  lemma {:induction false} CoversArray(t: Text)
    requires t != [] && t[0] == OPEN_BRACKET && WellFormed(t) && ReadValue(t).Some?
    ensures var (v, rest) := ReadValue(t).value; Printable(v) && Covers(t, Print(v), rest)
    decreases |t|, 0
  {
    hide ReadItems;
    hide LowerHex;
    var body := SkipSpace(t[1..]);
    CoversMark(t, OPEN_BRACKET);
    if body != [] && body[0] == CLOSE_BRACKET {
      CoversEmpty(t, OPEN_BRACKET, CLOSE_BRACKET);
      assert Print(JsArray([])) == [OPEN_BRACKET, CLOSE_BRACKET];
    } else {
      CoversItems(body);
      var (xs, rest) := ReadItems(body).value;
      CoversBoth(t, [OPEN_BRACKET], body, PrintItems(xs) + [CLOSE_BRACKET], rest);
      assert [OPEN_BRACKET] + (PrintItems(xs) + [CLOSE_BRACKET]) == Print(JsArray(xs));
    }
  }

  lemma {:induction false} CoversObject(t: Text)
    requires t != [] && t[0] == OPEN_BRACE && WellFormed(t) && ReadValue(t).Some?
    ensures var (v, rest) := ReadValue(t).value; Printable(v) && Covers(t, Print(v), rest)
    decreases |t|, 0
  {
    hide ReadMembers;
    hide LowerHex;
    var body := SkipSpace(t[1..]);
    CoversMark(t, OPEN_BRACE);
    if body != [] && body[0] == CLOSE_BRACE {
      CoversEmpty(t, OPEN_BRACE, CLOSE_BRACE);
      assert Print(JsObject([])) == [OPEN_BRACE, CLOSE_BRACE];
    } else {
      CoversMembers(body);
      var (ms, rest) := ReadMembers(body).value;
      CoversBoth(t, [OPEN_BRACE], body, PrintMembers(ms) + [CLOSE_BRACE], rest);
      assert [OPEN_BRACE] + (PrintMembers(ms) + [CLOSE_BRACE]) == Print(JsObject(ms));
    }
  }

  lemma {:induction false} CoversItems(t: Text)
    requires WellFormed(t) && ReadItems(t).Some?
    ensures var (xs, rest) := ReadItems(t).value;
      && (forall i :: 0 <= i < |xs| ==> Printable(xs[i]))
      && xs != [] && Covers(t, PrintItems(xs) + [CLOSE_BRACKET], rest)
    decreases |t|, 2
  {
    hide LowerHex;
    hide ReadValue;
    hide Printable;
    var (x, after) := ReadValue(t).value;
    CoversValue(t);
    var next := SkipSpace(after);
    if next[0] == CLOSE_BRACKET {
      CoversSpacedMark(after, CLOSE_BRACKET);
      CoversBoth(t, Print(x), after, [CLOSE_BRACKET], next[1..]);
      assert PrintItems([x]) == Print(x);
    } else {
      CoversSpacedMark(after, COMMA);
      var tail := SkipSpace(next[1..]);
      CoversItems(tail);
      var (xs, rest) := ReadItems(tail).value;
      CoversBoth(t, Print(x), after, [COMMA], tail);
      CoversBoth(t, Print(x) + [COMMA], tail, PrintItems(xs) + [CLOSE_BRACKET], rest);
      assert ([x] + xs)[1..] == xs;
      assert (Print(x) + [COMMA]) + (PrintItems(xs) + [CLOSE_BRACKET]) == PrintItems([x] + xs) + [CLOSE_BRACKET];
    }
  }

  lemma {:induction false} CoversMember(t: Text)
    requires WellFormed(t) && ReadMember(t).Some?
    ensures var (m, rest) := ReadMember(t).value; Printable(m.value) && Covers(t, PrintMember(m), rest)
    decreases |t|, 2
  {
    hide LowerHex;
    hide ReadValue;
    hide Printable;
    hide Print;
    var (key, after) := ReadChars(t[1..]).value;
    CoversString(t);
    var colon := SkipSpace(after);
    CoversSpacedMark(after, COLON);
    var start := SkipSpace(colon[1..]);
    CoversValue(start);
    var (x, rest) := ReadValue(start).value;
    CoversBoth(t, Quote(key), after, [COLON], start);
    CoversBoth(t, Quote(key) + [COLON], start, Print(x), rest);
  }

  lemma {:induction false} CoversMembers(t: Text)
    requires WellFormed(t) && ReadMembers(t).Some?
    ensures var (ms, rest) := ReadMembers(t).value;
      && (forall i :: 0 <= i < |ms| ==> Printable(ms[i].value))
      && ms != [] && Covers(t, PrintMembers(ms) + [CLOSE_BRACE], rest)
    decreases |t|, 3
  {
    hide LowerHex;
    hide ReadMember;
    hide PrintMember;
    hide Printable;
    var (m, after) := ReadMember(t).value;
    CoversMember(t);
    var next := SkipSpace(after);
    if next[0] == CLOSE_BRACE {
      CoversSpacedMark(after, CLOSE_BRACE);
      CoversBoth(t, PrintMember(m), after, [CLOSE_BRACE], next[1..]);
      assert PrintMembers([m]) == PrintMember(m);
    } else {
      CoversSpacedMark(after, COMMA);
      var tail := SkipSpace(next[1..]);
      CoversMembers(tail);
      var (ms, rest) := ReadMembers(tail).value;
      CoversBoth(t, PrintMember(m), after, [COMMA], tail);
      CoversBoth(t, PrintMember(m) + [COMMA], tail, PrintMembers(ms) + [CLOSE_BRACE], rest);
      assert ([m] + ms)[1..] == ms;
      assert (PrintMember(m) + [COMMA]) + (PrintMembers(ms) + [CLOSE_BRACE]) == PrintMembers([m] + ms) + [CLOSE_BRACE];
    }
  }

  /** A whole text is at least as long as what is printed for the value it reads as; in lower case and
      no longer, it is that. */
  lemma CoversText(t: Text)
    requires WellFormed(t) && ParseTree(t).Some?
    ensures var v := ParseTree(t).value;
      && Printable(v) && |t| >= |Print(v)| && (LowerHex(t) && |t| == |Print(v)| ==> t == Print(v))
  {
    CoversSpace(t);
    var start := SkipSpace(t);
    CoversValue(start);
    var (v, rest) := ReadValue(start).value;
    CoversSpace(rest);
    CoversBoth(t, [], start, Print(v), rest);
    CoversBoth(t, [] + Print(v), rest, [], []);
    assert ([] + Print(v)) + [] == Print(v) && Print(v) + [] == Print(v);
  }

  // ----- The normal form is the shortest of its meaning -----

  function ItemsSize(items: seq<JsValue>): nat { if items == [] then 0 else |Print(items[0])| + 1 + ItemsSize(items[1..]) }

  function MembersSize(members: seq<Member>): nat {
    if members == [] then 0 else |PrintMember(members[0])| + 1 + MembersSize(members[1..])
  }

  lemma {:induction false} ItemsPrinted(items: seq<JsValue>)
    ensures |PrintItems(items)| == if items == [] then 0 else ItemsSize(items) - 1
  {
    if items != [] { ItemsPrinted(items[1..]); }
  }

  lemma {:induction false} MembersPrinted(members: seq<Member>)
    ensures |PrintMembers(members)| == if members == [] then 0 else MembersSize(members) - 1
  {
    if members != [] { MembersPrinted(members[1..]); }
  }

  lemma {:induction false} MembersSizeWithout(members: seq<Member>, j: nat)
    requires j < |members|
    ensures MembersSize(members) == |PrintMember(members[j])| + 1 + MembersSize(Without(members, j))
  {
    if j > 0 {
      MembersSizeWithout(members[1..], j - 1);
      assert Without(members, j)[1..] == Without(members[1..], j - 1);
    } else {
      assert Without(members, 0) == members[1..];
    }
  }

  /** The key of the member stands in the other list, with a value no shorter. */
  predicate Fits(m: Member, others: seq<Member>) {
    exists j :: 0 <= j < |others| && others[j].key == m.key && |Print(m.value)| <= |Print(others[j].value)|
  }

  lemma FitsWithout(m: Member, others: seq<Member>, j: nat)
    requires Fits(m, others) && j < |others| && others[j].key != m.key
    ensures Fits(m, Without(others, j))
  {
    hide Print;
    var i :| 0 <= i < |others| && others[i].key == m.key && |Print(m.value)| <= |Print(others[i].value)|;
    var k := if i < j then i else i - 1;
    assert Without(others, j)[k] == others[i];
  }

  lemma {:induction false} MembersFit(members: seq<Member>, others: seq<Member>)
    requires KeysDistinct(members) && forall i :: 0 <= i < |members| ==> Fits(members[i], others)
    ensures |others| >= |members| && MembersSize(members) <= MembersSize(others)
    decreases |members|
  {
    if members != [] {
      hide Print;
      var m, rest := members[0], members[1..];
      assert Fits(m, others);
      var j :| 0 <= j < |others| && others[j].key == m.key && |Print(m.value)| <= |Print(others[j].value)|;
      forall i | 0 <= i < |rest| ensures Fits(rest[i], Without(others, j)) {
        assert rest[i] == members[i + 1] && Fits(members[i + 1], others);
        FitsWithout(rest[i], others, j);
      }
      MembersFit(rest, Without(others, j));
      MembersSizeWithout(others, j);
    }
  }

  /** Each key of an object means what some member with that key does. */
  lemma {:induction false} KeyMeans(members: seq<Member>, k: Text)
    requires k in DenoteMembers(members)
    ensures exists j :: 0 <= j < |members| && members[j].key == k && Denote(members[j].value) == DenoteMembers(members)[k]
  {
    var first, rest := members[0], members[1..];
    if k in DenoteMembers(rest) {
      KeyMeans(rest, k);
      var j :| 0 <= j < |rest| && rest[j].key == k && Denote(rest[j].value) == DenoteMembers(rest)[k];
      assert members[j + 1] == rest[j];
    } else {
      assert members[0].key == k;
    }
  }

  /** Of all values with one meaning, those without repeated keys print shortest. */
  lemma {:induction false} ShortestForm(v: JsValue, w: JsValue)
    requires Representable(v) && Printable(v) && Printable(w) && Denote(v) == Denote(w)
    ensures |Print(v)| <= |Print(w)|
    decreases v, 1
  {
    match v
    case JsArray(items) =>
      assert w.JsArray?;
      ShortestItems(items, w.items);
      ItemsPrinted(items);
      ItemsPrinted(w.items);
    case JsObject(members) =>
      assert w.JsObject?;
      ShortestMembers(members, w.members);
    case _ =>
  }

  lemma {:induction false} ShortestItems(items: seq<JsValue>, others: seq<JsValue>)
    requires forall i :: 0 <= i < |items| ==> Representable(items[i]) && Printable(items[i])
    requires forall i :: 0 <= i < |others| ==> Printable(others[i])
    requires DenoteItems(items) == DenoteItems(others)
    ensures |items| == |others| && ItemsSize(items) <= ItemsSize(others)
    decreases items, 0
  {
    assert |items| == |DenoteItems(items)| == |DenoteItems(others)| == |others|;
    if items != [] {
      hide Print;
      assert Denote(items[0]) == DenoteItems(items)[0] == DenoteItems(others)[0] == Denote(others[0]);
      ShortestForm(items[0], others[0]);
      assert DenoteItems(items)[1..] == DenoteItems(items[1..]) && DenoteItems(others)[1..] == DenoteItems(others[1..]);
      ShortestItems(items[1..], others[1..]);
    }
  }

  lemma {:induction false} ShortestMembers(members: seq<Member>, others: seq<Member>)
    requires KeysDistinct(members)
    requires forall i :: 0 <= i < |members| ==> Representable(members[i].value) && Printable(members[i].value)
    requires forall i :: 0 <= i < |others| ==> Printable(others[i].value)
    requires DenoteMembers(members) == DenoteMembers(others)
    ensures |PrintMembers(members)| <= |PrintMembers(others)|
    decreases members, 0
  {
    hide Print;
    MembersAsMap(members);
    forall i | 0 <= i < |members| ensures Fits(members[i], others) {
      assert members[i] in members;
      KeyMeans(others, members[i].key);
      var j :| 0 <= j < |others| && others[j].key == members[i].key
        && Denote(others[j].value) == DenoteMembers(others)[members[i].key];
      ShortestForm(members[i].value, others[j].value);
    }
    MembersFit(members, others);
    MembersPrinted(members);
    MembersPrinted(others);
  }

  // ----- Key order -----

  /** Array indices by number, then all other keys by code unit. */
  predicate KeyBefore(a: Text, b: Text) {
    if IsIndex(a) && IsIndex(b) then Decimal(a) < Decimal(b)
    else if IsIndex(a) || IsIndex(b) then IsIndex(a)
    else Leq(a, b) && a != b
  }

  /** The keys of every object stand in this order. */
  ghost predicate InOrder(v: JsValue)
    decreases v
  {
    match v
    case JsArray(items) => forall i :: 0 <= i < |items| ==> InOrder(items[i])
    case JsObject(members) =>
      && (forall i, j :: 0 <= i < j < |members| ==> KeyBefore(members[i].key, members[j].key))
      && forall i :: 0 <= i < |members| ==> InOrder(members[i].value)
    case _ => true
  }

  lemma {:induction false} DecimalPositive(t: Text)
    requires t != [] && DigitRun(t) == |t| && t[0] != 0x30
    ensures Decimal(t) >= 1
  {
    LastDigit(t);
    if |t| > 1 { DecimalPositive(t[..|t| - 1]); }
  }

  predicate IsNumeral(t: Text) { t != [] && DigitRun(t) == |t| && (|t| > 1 ==> t[0] != 0x30) }

  lemma {:induction false} DecimalInjective(a: Text, b: Text)
    requires IsNumeral(a) && IsNumeral(b) && Decimal(a) == Decimal(b)
    ensures a == b
    decreases |a|
  {
    LastDigit(a);
    LastDigit(b);
    var x, y := a[..|a| - 1], b[..|b| - 1];
    assert Decimal(a) == 10 * Decimal(x) + (a[|a| - 1] - 0x30) && Decimal(b) == 10 * Decimal(y) + (b[|b| - 1] - 0x30);
    assert Decimal(x) == Decimal(y) && a[|a| - 1] == b[|b| - 1];
    if x != [] { DecimalPositive(x); }
    if y != [] { DecimalPositive(y); }
    if x != [] { DecimalInjective(x, y); }
    assert a == x + [a[|a| - 1]] && b == y + [b[|b| - 1]];
  }

  lemma KeyBeforeAsymmetric(a: Text, b: Text)
    requires KeyBefore(a, b)
    ensures !KeyBefore(b, a) && a != b
  {
    if !IsIndex(a) && !IsIndex(b) && Leq(b, a) { LeqAntisymmetric(a, b); }
  }

  /** Two keys in the order in which they print. */
  lemma PairInOrder(members: seq<Member>, i: nat, j: nat)
    requires KeysDistinct(members) && i < j < |Arrange(members)|
    ensures KeyBefore(Arrange(members)[i].key, Arrange(members)[j].key)
  {
    hide Arrange;
    hide Leq;
    hide Decimal;
    hide DigitRun;
    PrintedKeyOrder(members);
    ArrangeKeepsKeysDistinct(members);
    var n := |Indexed(Sort(KeyLeq, members))|;
    var a, b := Arrange(members)[i].key, Arrange(members)[j].key;
    assert a != b;
    if j < n {
      if Decimal(a) == Decimal(b) { IndexInjective(a, b); }
    } else if i >= n {
      assert !IsIndex(a) && !IsIndex(b) && Leq(a, b);
    }
  }

  /** Keys in the arrangement of normalisation stand in order. */
  lemma ArrangedInOrder(members: seq<Member>)
    requires KeysDistinct(members)
    ensures forall i, j :: 0 <= i < j < |Arrange(members)| ==> KeyBefore(Arrange(members)[i].key, Arrange(members)[j].key)
  {
    hide Arrange;
    hide KeyBefore;
    forall i, j | 0 <= i < j < |Arrange(members)| ensures KeyBefore(Arrange(members)[i].key, Arrange(members)[j].key) {
      PairInOrder(members, i, j);
    }
  }

  lemma IndexInjective(a: Text, b: Text)
    requires IsIndex(a) && IsIndex(b) && Decimal(a) == Decimal(b)
    ensures a == b
  {
    DecimalInjective(a, b);
  }

  /** Normalisation puts the keys of every object in order. */
  lemma {:induction false} NormalInOrder(v: JsValue)
    requires Representable(v) && Normalize(v).Some?
    ensures InOrder(Normalize(v).value)
    decreases v
  {
    match v
    case JsArray(items) =>
      var normal := NormalizeItems(items).value;
      forall i | 0 <= i < |normal| ensures InOrder(normal[i]) { NormalInOrder(items[i]); }
    case JsObject(members) =>
      var normal := NormalizeMembers(members).value;
      forall i | 0 <= i < |normal| ensures InOrder(normal[i].value) { NormalInOrder(members[i].value); }
      assert KeysDistinct(normal);
      ArrangedValues(normal);
    case _ =>
  }

  lemma ArrangedValues(members: seq<Member>)
    requires KeysDistinct(members) && forall i :: 0 <= i < |members| ==> InOrder(members[i].value)
    ensures InOrder(JsObject(Arrange(members)))
  {
    hide Arrange;
    hide KeyBefore;
    ArrangedInOrder(members);
    ArrangePermutes(members);
    var arranged := Arrange(members);
    SameElements(members, arranged);
    forall i | 0 <= i < |arranged| ensures InOrder(arranged[i].value) {
      assert arranged[i] in members;
    }
  }

  /** A value is determined by what it means once the keys of its objects are in order. */
  lemma {:induction false} InOrderUnique(v: JsValue, w: JsValue)
    requires InOrder(v) && InOrder(w) && Printable(v) && Printable(w) && Denote(v) == Denote(w)
    ensures v == w
    decreases v, 1
  {
    match v
    case JsArray(items) =>
      assert w.JsArray?;
      var others := w.items;
      assert |items| == |DenoteItems(items)| == |DenoteItems(others)| == |others|;
      forall i | 0 <= i < |items| ensures items[i] == others[i] {
        assert Denote(items[i]) == DenoteItems(items)[i] == DenoteItems(others)[i] == Denote(others[i]);
        InOrderUnique(items[i], others[i]);
      }
    case JsObject(members) =>
      assert w.JsObject?;
      MembersUnique(members, w.members);
    case _ =>
  }

  ghost predicate Ordered(members: seq<Member>) {
    && (forall i, j :: 0 <= i < j < |members| ==> KeyBefore(members[i].key, members[j].key))
    && forall i :: 0 <= i < |members| ==> InOrder(members[i].value) && Printable(members[i].value)
  }

  lemma OrderedDistinct(members: seq<Member>)
    requires Ordered(members)
    ensures KeysDistinct(members) && Distinct(members)
  {
    hide KeyBefore;
    forall i, j | 0 <= i < j < |members| ensures members[i].key != members[j].key {
      KeyBeforeAsymmetric(members[i].key, members[j].key);
    }
  }

  predicate MemberLeq(a: Member, b: Member) { a == b || KeyBefore(a.key, b.key) }

  lemma {:induction false} MembersUnique(members: seq<Member>, others: seq<Member>)
    requires Ordered(members) && Ordered(others) && DenoteMembers(members) == DenoteMembers(others)
    ensures members == others
    decreases members, 0
  {
    hide KeyBefore;
    hide InOrder;
    hide Printable;
    OrderedDistinct(members);
    OrderedDistinct(others);
    MembersAsMap(members);
    MembersAsMap(others);
    forall m | m in members ensures m in others {
      var i :| 0 <= i < |members| && members[i] == m;
      var o :| o in others && o.key == m.key;
      var j :| 0 <= j < |others| && others[j] == o;
      InOrderUnique(members[i].value, others[j].value);
      assert m == Member(m.key, m.value) && o == Member(o.key, o.value);
    }
    forall o | o in others ensures o in members {
      var j :| 0 <= j < |others| && others[j] == o;
      var m :| m in members && m.key == o.key;
      var i :| 0 <= i < |members| && members[i] == m;
      InOrderUnique(members[i].value, others[j].value);
      assert m == Member(m.key, m.value) && o == Member(o.key, o.value);
    }
    DistinctSameSet(members, others);
    assert Separates(MemberLeq, members) by {
      forall a, b | a in members && b in members && MemberLeq(a, b) && MemberLeq(b, a) ensures a == b {
        if a != b { KeyBeforeAsymmetric(a.key, b.key); }
      }
    }
    SortedUnique(MemberLeq, members, others);
  }

  // ----- Lower-case escapes -----

  /** Whatever comes next keeps its escapes, and none of its own has a capital. */
  ghost predicate LowerBefore(a: Text) { forall b: Text :: LowerHex(b) ==> LowerHex(a + b) }

  lemma LowerJoin(a: Text, c: Text)
    requires LowerBefore(a) && LowerBefore(c)
    ensures LowerBefore(a + c)
  {
    forall b: Text | LowerHex(b) ensures LowerHex((a + c) + b) {
      assert LowerHex(c + b);
      assert (a + c) + b == a + (c + b);
    }
  }

  lemma LowerUnit(c: CodeUnit)
    requires c != BACKSLASH
    ensures LowerBefore([c])
  {
    forall b: Text | LowerHex(b) ensures LowerHex([c] + b) {
      assert ([c] + b)[1..] == b;
    }
  }

  lemma {:induction false} LowerUnits(t: Text)
    requires forall i :: 0 <= i < |t| ==> t[i] != BACKSLASH
    ensures LowerBefore(t)
  {
    if t == [] {
      forall b: Text | LowerHex(b) ensures LowerHex([] + b) { assert [] + b == b; }
    } else {
      LowerUnit(t[0]);
      LowerUnits(t[1..]);
      LowerJoin([t[0]], t[1..]);
      assert [t[0]] + t[1..] == t;
    }
  }

  lemma LowerUnicode(c: CodeUnit)
    ensures LowerBefore(UnicodeEscape(c))
  {
    var e := UnicodeEscape(c);
    forall b: Text | LowerHex(b) ensures LowerHex(e + b) {
      var t := e + b;
      assert t[6..] == b;
      assert t[0] == BACKSLASH && t[1] == 0x75;
      assert t[2] == e[2] && t[3] == e[3] && t[4] == e[4] && t[5] == e[5];
    }
  }

  lemma LowerLetter(c: CodeUnit)
    requires c != 0x75
    ensures LowerBefore([BACKSLASH, c])
  {
    forall b: Text | LowerHex(b) ensures LowerHex([BACKSLASH, c] + b) {
      var t := [BACKSLASH, c] + b;
      assert t[2..] == b && t[0] == BACKSLASH && t[1] == c;
    }
  }

  lemma LowerEscapeUnit(c: CodeUnit)
    ensures LowerBefore(EscapeUnit(c))
  {
    hide LowerBefore;
    if EscapeUnit(c) == UnicodeEscape(c) {
      LowerUnicode(c);
    } else if EscapeUnit(c) == [c] {
      LowerUnit(c);
    } else {
      LowerLetter(EscapeUnit(c)[1]);
      assert EscapeUnit(c) == [BACKSLASH, EscapeUnit(c)[1]];
    }
  }

  lemma {:induction false} LowerEscape(s: Text)
    ensures LowerBefore(Escape(s))
    decreases |s|
  {
    hide LowerBefore;
    hide EscapeUnit;
    if s == [] {
      LowerUnits([]);
    } else if IsLead(s[0]) && |s| > 1 && IsTrail(s[1]) {
      LowerUnits(s[..2]);
      LowerEscape(s[2..]);
      LowerJoin(s[..2], Escape(s[2..]));
    } else {
      LowerEscapeUnit(s[0]);
      LowerEscape(s[1..]);
      LowerJoin(EscapeUnit(s[0]), Escape(s[1..]));
    }
  }

  lemma LowerEnclosed(open: CodeUnit, body: Text, close: CodeUnit)
    requires open != BACKSLASH && close != BACKSLASH && LowerBefore(body)
    ensures LowerBefore([open] + body + [close])
  {
    LowerUnit(open);
    LowerUnit(close);
    LowerJoin([open], body);
    LowerJoin([open] + body, [close]);
  }

  lemma LowerSeparated(first: Text, separator: CodeUnit, rest: Text)
    requires separator != BACKSLASH && LowerBefore(first) && LowerBefore(rest)
    ensures LowerBefore(first + [separator] + rest)
  {
    LowerUnit(separator);
    LowerJoin(first, [separator]);
    LowerJoin(first + [separator], rest);
  }

  lemma {:induction false} LowerPrint(v: JsValue)
    requires Printable(v)
    ensures LowerBefore(Print(v))
    decreases v, 1
  {
    hide LowerBefore;
    match v
    case JsNull => LowerUnits(NULL);
    case JsBool(b) => LowerUnits(if b then TRUE else FALSE);
    case JsNumber(text) => LowerUnits(text);
    case JsString(s) =>
      LowerEscape(s);
      LowerEnclosed(QUOTE, Escape(s), QUOTE);
    case JsArray(items) =>
      LowerItems(items);
      LowerEnclosed(OPEN_BRACKET, PrintItems(items), CLOSE_BRACKET);
    case JsObject(members) =>
      LowerMembers(members);
      LowerEnclosed(OPEN_BRACE, PrintMembers(members), CLOSE_BRACE);
  }

  lemma {:induction false} LowerItems(items: seq<JsValue>)
    requires forall i :: 0 <= i < |items| ==> Printable(items[i])
    ensures LowerBefore(PrintItems(items))
    decreases items, 0
  {
    hide LowerBefore;
    if items == [] { LowerUnits([]); } else { LowerPrint(items[0]); }
    if |items| > 1 {
      LowerItems(items[1..]);
      LowerSeparated(Print(items[0]), COMMA, PrintItems(items[1..]));
    }
  }

  lemma {:induction false} LowerMembers(members: seq<Member>)
    requires forall i :: 0 <= i < |members| ==> Printable(members[i].value)
    ensures LowerBefore(PrintMembers(members))
    decreases members, 0
  {
    hide LowerBefore;
    if members == [] {
      LowerUnits([]);
    } else {
      LowerEscape(members[0].key);
      LowerEnclosed(QUOTE, Escape(members[0].key), QUOTE);
      LowerPrint(members[0].value);
      LowerSeparated(Quote(members[0].key), COLON, Print(members[0].value));
    }
    if |members| > 1 {
      LowerMembers(members[1..]);
      LowerSeparated(PrintMember(members[0]), COMMA, PrintMembers(members[1..]));
    }
  }

  // ----- Main results -----

  /** No well-formed text reads as the string in fewer characters; in as many, lower case, it is the
      one written. */
  lemma EscapeShortest(s: Text, t: Text)
    requires WellFormed(t) && ReadChars(t + [QUOTE]) == Some((s, []))
    ensures |Escape(s)| <= |t|
    ensures LowerHex(t + [QUOTE]) && |Escape(s)| == |t| ==> t == Escape(s)
  {
    NoSurrogatesWellFormed([QUOTE]);
    WellFormedJoin(t, [QUOTE]);
    CoversChars(t + [QUOTE]);
    assert (Escape(s) + [QUOTE]) + [] == Escape(s) + [QUOTE];
    assert (t + [QUOTE])[..|t|] == t && (Escape(s) + [QUOTE])[..|Escape(s)|] == Escape(s);
  }

  /** No well-formed text with the same meaning is shorter than the canonical one. */
  lemma CanonicalIsShortest(v: JsValue, t: Text)
    requires Representable(v) && Plain(v) && WellFormed(t) && Parse(t) == Some(Denote(v))
    ensures CanonicalJson(v).Some? && |CanonicalJson(v).value| <= |t|
  {
    AcceptsExactlyPlain(v);
    NormalizePreserves(v);
    CoversText(t);
    ShortestForm(Normalize(v).value, ParseTree(t).value);
  }

  ghost predicate IsShortest(t: Text) {
    forall u: Text :: WellFormed(u) && Parse(u) == Parse(t) ==> |t| <= |u|
  }

  /** The text is JSON for the meaning, with keys in order and escapes in lower case, without unpaired
      surrogates, and no such text is shorter. */
  ghost predicate IsCanonical(meaning: Json, t: Text) {
    && ParseTree(t).Some? && Denote(ParseTree(t).value) == meaning && InOrder(ParseTree(t).value)
    && WellFormed(t) && LowerHex(t) && IsShortest(t)
  }

  lemma CanonicalQualifies(v: JsValue)
    requires Representable(v) && Plain(v)
    ensures CanonicalJson(v).Some? && IsCanonical(Denote(v), CanonicalJson(v).value)
  {
    hide InOrder;
    RoundTrip(v);
    NormalizePreserves(v);
    NormalInOrder(v);
    CanonicalTextWellFormed(v);
    var t := CanonicalJson(v).value;
    LowerPrint(Normalize(v).value);
    assert LowerHex([]) && t + [] == t;
    forall u: Text | WellFormed(u) && Parse(u) == Parse(t) ensures |t| <= |u| { CanonicalIsShortest(v, u); }
  }

  /** Exactly one text qualifies: what canonicalJson returns is determined by what it is for. */
  lemma CanonicalExactly(v: JsValue, t: Text)
    requires Representable(v) && Plain(v)
    ensures CanonicalJson(v) == Some(t) <==> IsCanonical(Denote(v), t)
  {
    CanonicalQualifies(v);
    if IsCanonical(Denote(v), t) {
      var tree, normal, text := ParseTree(t).value, Normalize(v).value, CanonicalJson(v).value;
      RoundTrip(v);
      NormalizePreserves(v);
      NormalInOrder(v);
      CoversText(t);
      InOrderUnique(tree, normal);
      assert WellFormed(text) && Parse(text) == Parse(t);
    }
  }

  // ----- Spelled out -----

  lemma WordsSpelled()
    ensures CanonicalJson(JsNull) == Some(OfString("null")) && CanonicalJson(JsNegativeZero) == Some(OfString("0"))
    ensures CanonicalJson(JsBool(true)) == Some(OfString("true")) && CanonicalJson(JsBool(false)) == Some(OfString("false"))
    ensures CanonicalJson(JsArray([])) == Some(OfString("[]")) && CanonicalJson(JsObject([])) == Some(OfString("{}"))
  {
    assert OfString("true") == TRUE && OfString("false") == FALSE && OfString("null") == NULL && OfString("0") == ZERO;
    assert OfString("[]") == [OPEN_BRACKET, CLOSE_BRACKET] && OfString("{}") == [OPEN_BRACE, CLOSE_BRACE];
    assert NormalizeItems([]) == Some([]) && NormalizeMembers([]) == Some([]) && Arrange([]) == [];
    assert PrintItems([]) == [] && PrintMembers([]) == [];
    assert Print(JsArray([])) == [OPEN_BRACKET, CLOSE_BRACKET] && Print(JsObject([])) == [OPEN_BRACE, CLOSE_BRACE];
  }

  lemma SignsSpelled()
    ensures OfString("[") == [OPEN_BRACKET] && OfString("]") == [CLOSE_BRACKET] && OfString(",") == [COMMA]
    ensures OfString("{") == [OPEN_BRACE] && OfString("}") == [CLOSE_BRACE] && OfString(":") == [COLON]
    ensures OfString("\"") == [QUOTE]
  {
  }

  /** A pair of values in an array, and one member of an object. */
  lemma MarksSpelled(a: JsValue, b: JsValue, key: Text)
    ensures Print(JsArray([a, b])) == OfString("[") + (Print(a) + OfString(",") + Print(b)) + OfString("]")
    ensures Print(JsObject([Member(key, a)])) == OfString("{") + (Quote(key) + OfString(":") + Print(a)) + OfString("}")
    ensures Quote(key) == OfString("\"") + Escape(key) + OfString("\"")
  {
    hide OfString;
    SignsSpelled();
    assert [a, b][1..] == [b];
    assert PrintItems([a, b]) == Print(a) + [COMMA] + Print(b);
    assert PrintMembers([Member(key, a)]) == Quote(key) + [COLON] + Print(a);
  }

  /** JSON.stringify's table of escapes; whatever else is escaped is written in four digits. */
  lemma LettersSpelled()
    ensures EscapeUnit(0x08) == OfString("\\b") && EscapeUnit(0x09) == OfString("\\t") && EscapeUnit(0x0a) == OfString("\\n")
    ensures EscapeUnit(0x0c) == OfString("\\f") && EscapeUnit(0x0d) == OfString("\\r")
  {
  }

  lemma OthersSpelled()
    ensures EscapeUnit(0x22) == OfString("\\\"") && EscapeUnit(0x5c) == OfString("\\\\") && EscapeUnit(0x2f) == OfString("/")
  {
  }

  lemma ControlsSpelled()
    ensures EscapeUnit(0) == OfString("\\u0000") && EscapeUnit(0x1f) == OfString("\\u001f") && EscapeUnit(0x20) == OfString(" ")
  {
  }

  lemma SurrogatesSpelled()
    ensures EscapeUnit(0xd7ff) == [0xd7ff] && EscapeUnit(0xd800) == OfString("\\ud800")
    ensures EscapeUnit(0xdfff) == OfString("\\udfff") && EscapeUnit(0xe000) == [0xe000]
    ensures Escape([0xd83d, 0xde00]) == [0xd83d, 0xde00]
  {
    assert [0xd83d, 0xde00][2..] == [] && [0xd83d, 0xde00][..2] == [0xd83d, 0xde00];
  }

  lemma {:induction false} DigitsRun(t: Text)
    requires forall i :: 0 <= i < |t| ==> IsDigit(t[i])
    ensures DigitRun(t) == |t|
  {
    if t != [] { DigitsRun(t[1..]); }
  }

  lemma DecimalStep(t: Text, d: CodeUnit)
    requires DigitRun(t) == |t| && IsDigit(d)
    ensures DigitRun(t + [d]) == |t| + 1 && Decimal(t + [d]) == 10 * Decimal(t) + (d - 0x30)
  {
    forall i | 0 <= i < |t + [d]| ensures IsDigit((t + [d])[i]) {}
    DigitsRun(t + [d]);
    assert (t + [d])[..|t|] == t;
  }

  lemma FirstDigits()
    ensures DigitRun([0x34, 0x32, 0x39, 0x34]) == 4 && Decimal([0x34, 0x32, 0x39, 0x34]) == 4294
  {
    assert DigitRun([]) == 0 && Decimal([]) == 0;
    DecimalStep([], 0x34);
    DecimalStep([0x34], 0x32);
    DecimalStep([0x34, 0x32], 0x39);
    DecimalStep([0x34, 0x32, 0x39], 0x34);
    assert [] + [0x34] == [0x34] && [0x34] + [0x32] == [0x34, 0x32] && [0x34, 0x32] + [0x39] == [0x34, 0x32, 0x39];
    assert [0x34, 0x32, 0x39] + [0x34] == [0x34, 0x32, 0x39, 0x34];
  }

  lemma NineDigits()
    ensures DigitRun(OfString("429496729")) == 9 && Decimal(OfString("429496729")) == 429496729
  {
    var t: Text := [0x34, 0x32, 0x39, 0x34];
    FirstDigits();
    DecimalStep(t, 0x39);
    DecimalStep(t + [0x39], 0x36);
    DecimalStep(t + [0x39] + [0x36], 0x37);
    DecimalStep(t + [0x39] + [0x36] + [0x37], 0x32);
    DecimalStep(t + [0x39] + [0x36] + [0x37] + [0x32], 0x39);
    assert OfString("429496729") == t + [0x39] + [0x36] + [0x37] + [0x32] + [0x39];
  }

  /** Array indices end at 2^32 - 2. */
  lemma IndicesEnd(last: CodeUnit)
    requires IsDigit(last)
    ensures IsIndex(OfString("429496729") + [last]) <==> last <= 0x34
  {
    var digits := OfString("429496729");
    NineDigits();
    DecimalStep(digits, last);
    assert digits[0] == 0x34;
  }

  /** Numeral by number, names behind them. */
  lemma KeysCompared()
    ensures KeyBefore(OfString("2"), OfString("10")) && KeyBefore(OfString("10"), OfString("01"))
    ensures KeyBefore(OfString("10"), OfString("")) && KeyBefore(OfString("01"), OfString("B"))
    ensures KeyBefore(OfString("B"), OfString("a"))
  {
    assert DigitRun([]) == 0 && Decimal([]) == 0;
    DecimalStep([], 0x32);
    DecimalStep([], 0x31);
    DecimalStep([] + [0x31], 0x30);
    assert [] + [0x32] == OfString("2") && [] + [0x31] + [0x30] == OfString("10");
    assert OfString("01")[0] == 0x30 && |OfString("01")| == 2;
    assert OfString("B")[0] == 0x42 && OfString("a")[0] == 0x61 && !IsDigit(0x42) && !IsDigit(0x61);
  }
}

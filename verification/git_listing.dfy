/** How Git prints a path when it lists files for a reader (core.quotePath at its default): bytes
    outside printable ASCII, the double quote and the backslash make it a quoted C string, and
    `git status --short` also quotes a name with a space. The worktree checks of
    src/bounded-worktree.ts compare the printed text with the path. */
module GitListing {
  import opened Bits
  import opened Wrappers

  // ----- UTF-8 -----

  function Utf8Char(c: char): (bytes: seq<Byte>)
    ensures |bytes| >= 1
    ensures c as int < 0x80 ==> bytes == [c as int]
    ensures c as int >= 0x80 ==> forall i :: 0 <= i < |bytes| ==> bytes[i] >= 0x80
  {
    var n := c as int;
    if n < 0x80 then [n]
    else if n < 0x800 then [0xc0 + n / 0x40, 0x80 + n % 0x40]
    else if n < 0x1_0000 then [0xe0 + n / 0x1000, 0x80 + n / 0x40 % 0x40, 0x80 + n % 0x40]
    else [0xf0 + n / 0x4_0000, 0x80 + n / 0x1000 % 0x40, 0x80 + n / 0x40 % 0x40, 0x80 + n % 0x40]
  }

  function Utf8(s: string): seq<Byte> { if s == "" then [] else Utf8Char(s[0]) + Utf8(s[1..]) }

  predicate IsTail(b: Byte) { 0x80 <= b < 0xc0 }

  /** Six more bits. */
  function Tail(n: nat, b: Byte): nat
    requires IsTail(b)
  {
    0x40 * n + (b as int - 0x80)
  }

  /** One character off the front of a byte string and its length (RFC 3629, section 3): the shortest
      form of a scalar value. */
  function ReadUtf8Char(b: seq<Byte>): Option<(int, nat)> {
    if b == [] then None
    else if b[0] < 0x80 then Some((b[0], 1))
    else if 0xc0 <= b[0] < 0xe0 && |b| >= 2 && IsTail(b[1]) then
      var n := Tail(b[0] - 0xc0, b[1]);
      if n >= 0x80 then Some((n, 2)) else None
    else if 0xe0 <= b[0] < 0xf0 && |b| >= 3 && IsTail(b[1]) && IsTail(b[2]) then
      var n := Tail(Tail(b[0] - 0xe0, b[1]), b[2]);
      if n >= 0x800 && !(0xd800 <= n < 0xe000) then Some((n, 3)) else None
    else if 0xf0 <= b[0] < 0xf8 && |b| >= 4 && IsTail(b[1]) && IsTail(b[2]) && IsTail(b[3]) then
      var n := Tail(Tail(Tail(b[0] - 0xf0, b[1]), b[2]), b[3]);
      if 0x1_0000 <= n < 0x11_0000 then Some((n, 4)) else None
    else None
  }

  function ReadUtf8(b: seq<Byte>): Option<seq<int>>
    decreases |b|
  {
    if b == [] then Some([])
    else
      match ReadUtf8Char(b)
      case None => None
      case Some((n, size)) =>
        if size > |b| then None
        else match ReadUtf8(b[size..]) case None => None case Some(rest) => Some([n] + rest)
  }

  function Scalars(s: string): (r: seq<int>)
    ensures |r| == |s| && forall i :: 0 <= i < |s| ==> r[i] == s[i] as int
  {
    seq(|s|, i requires 0 <= i < |s| => s[i] as int)
  }

  lemma ThreeBytesRead(n: int, b: seq<Byte>)
    requires 0x800 <= n < 0x1_0000 && !(0xd800 <= n < 0xe000) && |b| >= 3
    requires b[0] == 0xe0 + n / 0x1000 && b[1] == 0x80 + n / 0x40 % 0x40 && b[2] == 0x80 + n % 0x40
    ensures ReadUtf8Char(b) == Some((n, 3))
  {
    var m := n / 0x40;
    assert n / 0x1000 == m / 0x40;
    assert Tail(b[0] - 0xe0, b[1]) == m && Tail(m, b[2]) == n;
  }

  lemma FourBytesRead(n: int, b: seq<Byte>)
    requires 0x1_0000 <= n < 0x11_0000 && |b| >= 4
    requires b[0] == 0xf0 + n / 0x4_0000 && b[1] == 0x80 + n / 0x1000 % 0x40
    requires b[2] == 0x80 + n / 0x40 % 0x40 && b[3] == 0x80 + n % 0x40
    ensures ReadUtf8Char(b) == Some((n, 4))
  {
    var l, m := n / 0x1000, n / 0x40;
    assert n / 0x4_0000 == l / 0x40 && l == m / 0x40;
    assert Tail(b[0] - 0xf0, b[1]) == l && Tail(l, b[2]) == m && Tail(m, b[3]) == n;
  }

  lemma CharReads(c: char, rest: seq<Byte>)
    ensures ReadUtf8Char(Utf8Char(c) + rest) == Some((c as int, |Utf8Char(c)|))
  {
    var n, b := c as int, Utf8Char(c) + rest;
    if n < 0x80 {
      assert b[0] == n;
    } else if n < 0x800 {
      assert b[0] == 0xc0 + n / 0x40 && b[1] == 0x80 + n % 0x40;
    } else {
      hide ReadUtf8Char;
      if n < 0x1_0000 { ThreeBytesRead(n, b); } else { FourBytesRead(n, b); }
    }
  }

  /** The bytes of a text read back as its characters. */
  lemma {:induction false} Utf8Reads(s: string)
    ensures ReadUtf8(Utf8(s)) == Some(Scalars(s))
  {
    if s != "" {
      hide Utf8Char;
      hide ReadUtf8Char;
      CharReads(s[0], Utf8(s[1..]));
      Utf8Reads(s[1..]);
      assert (Utf8Char(s[0]) + Utf8(s[1..]))[|Utf8Char(s[0])|..] == Utf8(s[1..]);
      assert Scalars(s) == [s[0] as int] + Scalars(s[1..]);
    }
  }

  // ----- Quoting -----

  predicate MustEscape(b: Byte) { b < 0x20 || b >= 0x7f || b == '"' as int || b == '\\' as int }

  function Octal(d: int): char
    requires 0 <= d < 8
  {
    "01234567"[d]
  }

  function Escape(b: Byte): (r: string)
    ensures |r| >= 1
  {
    if !MustEscape(b) then [b as char]
    else if b == '"' as int || b == '\\' as int then ['\\', b as char]
    else if 7 <= b <= 13 then ['\\', "abtnvfr"[b - 7]]
    else ['\\', Octal(b / 64), Octal(b / 8 % 8), Octal(b % 8)]
  }

  function EscapeAll(bytes: seq<Byte>): (r: string)
    ensures |r| >= |bytes|
  {
    if bytes == [] then "" else Escape(bytes[0]) + EscapeAll(bytes[1..])
  }

  predicate HasEscape(bytes: seq<Byte>) { exists i :: 0 <= i < |bytes| && MustEscape(bytes[i]) }

  /** A path in `git diff --name-only` and `git ls-files`. */
  function ListedName(path: string): string {
    if HasEscape(Utf8(path)) then "\"" + EscapeAll(Utf8(path)) + "\"" else path
  }

  /** A path in `git status --short`. */
  function StatusName(path: string): string {
    if !HasEscape(Utf8(path)) && ' ' in path then "\"" + path + "\"" else ListedName(path)
  }

  predicate IsOctal(c: char) { '0' <= c <= '7' }

  /** What a letter after a backslash stands for in C. */
  function LetterByte(c: char): Option<Byte> {
    match c
    case 'a' => Some(7) case 'b' => Some(8) case 't' => Some(9) case 'n' => Some(10)
    case 'v' => Some(11) case 'f' => Some(12) case 'r' => Some(13)
    case '"' => Some(0x22) case '\\' => Some(0x5c)
    case _ => None
  }

  /** A C string from behind its opening quote to the closing one. */
  function ReadQuoted(s: string): Option<seq<Byte>>
    decreases |s|
  {
    if s == "" then None
    else if s[0] == '"' then if |s| == 1 then Some([]) else None
    else if s[0] != '\\' then if s[0] as int < 0x80 then Join(s[0] as int, ReadQuoted(s[1..])) else None
    else if |s| >= 2 && LetterByte(s[1]).Some? then Join(LetterByte(s[1]).value, ReadQuoted(s[2..]))
    else if |s| >= 4 && '0' <= s[1] <= '3' && IsOctal(s[2]) && IsOctal(s[3]) then
      Join(64 * (s[1] as int - '0' as int) + 8 * (s[2] as int - '0' as int) + (s[3] as int - '0' as int), ReadQuoted(s[4..]))
    else None
  }

  function Join(b: Byte, rest: Option<seq<Byte>>): Option<seq<Byte>> {
    match rest case None => None case Some(bytes) => Some([b] + bytes)
  }

  lemma OctalValue(d: int)
    requires 0 <= d < 8
    ensures IsOctal(Octal(d)) && Octal(d) as int == '0' as int + d
  {
  }

  lemma DigitsRead(x: char, y: char, z: char, s: string)
    requires '0' <= x <= '3' && IsOctal(y) && IsOctal(z)
    ensures ReadQuoted(['\\', x, y, z] + s) ==
      Join(64 * (x as int - '0' as int) + 8 * (y as int - '0' as int) + (z as int - '0' as int), ReadQuoted(s))
  {
    var all := ['\\', x, y, z] + s;
    assert all[4..] == s && all[1] == x && all[2] == y && all[3] == z;
    assert LetterByte(x) == None;
  }

  lemma OctalDigits(b: Byte)
    ensures b == 64 * (b / 64) + 8 * (b / 8 % 8) + b % 8 && b / 64 < 4
  {
    assert b == 8 * (b / 8) + b % 8 && b / 8 == 8 * (b / 64) + b / 8 % 8;
  }

  lemma OctalReads(b: Byte, s: string)
    ensures ReadQuoted(['\\', Octal(b / 64), Octal(b / 8 % 8), Octal(b % 8)] + s) == Join(b, ReadQuoted(s))
  {
    hide ReadQuoted;
    hide Octal;
    OctalDigits(b);
    OctalValue(b / 64);
    OctalValue(b / 8 % 8);
    OctalValue(b % 8);
    DigitsRead(Octal(b / 64), Octal(b / 8 % 8), Octal(b % 8), s);
  }

  lemma LetterReads(c: char, s: string)
    requires LetterByte(c).Some?
    ensures ReadQuoted(['\\', c] + s) == Join(LetterByte(c).value, ReadQuoted(s))
  {
    assert (['\\', c] + s)[2..] == s;
  }

  lemma EscapeReads(b: Byte, s: string)
    ensures ReadQuoted(Escape(b) + s) == Join(b, ReadQuoted(s))
  {
    if !MustEscape(b) {
      assert ([b as char] + s)[1..] == s;
    } else if b == '"' as int || b == '\\' as int {
      LetterReads(b as char, s);
    } else if 7 <= b <= 13 {
      LetterReads("abtnvfr"[b - 7], s);
    } else {
      OctalReads(b, s);
    }
  }

  /** A quoted listing read as a C string is the bytes of the path. */
  lemma {:induction false} QuotedReads(bytes: seq<Byte>)
    ensures ReadQuoted(EscapeAll(bytes) + "\"") == Some(bytes)
  {
    if bytes == [] {
      assert EscapeAll(bytes) + "\"" == "\"";
    } else {
      hide Escape;
      QuotedReads(bytes[1..]);
      EscapeReads(bytes[0], EscapeAll(bytes[1..]) + "\"");
      assert EscapeAll(bytes) + "\"" == Escape(bytes[0]) + (EscapeAll(bytes[1..]) + "\"");
      assert bytes == [bytes[0]] + bytes[1..];
    }
  }

  /** So a name that `ls-files` and `diff` quote still tells the path, byte by byte. */
  lemma ListedNameReads(path: string)
    requires HasEscape(Utf8(path))
    ensures ListedName(path)[0] == '"' && ReadQuoted(ListedName(path)[1..]) == Some(Utf8(path))
  {
    hide ReadQuoted;
    hide EscapeAll;
    hide HasEscape;
    hide Utf8;
    QuotedReads(Utf8(path));
    assert ListedName(path)[1..] == EscapeAll(Utf8(path)) + "\"";
  }

  // ----- What the reader can rely on -----

  /** Printable ASCII without space, double quote and backslash. */
  predicate IsPlain(path: string) {
    forall i :: 0 <= i < |path| ==> 0x21 <= path[i] as int < 0x7f && path[i] != '"' && path[i] != '\\'
  }

  /** The character makes Git quote every name it occurs in. */
  predicate IsUnusual(c: char) { c as int >= 0x80 || MustEscape(c as int) }

  lemma UnusualHasEscape(c: char)
    ensures HasEscape(Utf8Char(c)) <==> IsUnusual(c)
  {
    assert Utf8Char(c)[0] in Utf8Char(c);
    if c as int >= 0x80 { assert MustEscape(Utf8Char(c)[0]); }
  }

  lemma EscapeInEither(a: seq<Byte>, b: seq<Byte>)
    ensures HasEscape(a + b) <==> HasEscape(a) || HasEscape(b)
  {
    var all := a + b;
    if i :| 0 <= i < |a| && MustEscape(a[i]) { assert all[i] == a[i]; }
    if i :| 0 <= i < |b| && MustEscape(b[i]) { assert all[|a| + i] == b[i]; }
    if i :| 0 <= i < |all| && MustEscape(all[i]) { if i >= |a| { assert b[i - |a|] == all[i]; } }
  }

  lemma {:induction false} EscapeExactly(path: string)
    ensures |Utf8(path)| >= |path|
    ensures HasEscape(Utf8(path)) <==> exists i :: 0 <= i < |path| && IsUnusual(path[i])
  {
    hide IsUnusual;
    hide Utf8Char;
    if path != "" {
      EscapeExactly(path[1..]);
      UnusualHasEscape(path[0]);
      EscapeInEither(Utf8Char(path[0]), Utf8(path[1..]));
      hide HasEscape;
      if j :| 0 <= j < |path[1..]| && IsUnusual(path[1..][j]) { assert path[j + 1] == path[1..][j]; }
      if j :| 0 <= j < |path| && IsUnusual(path[j]) { if j > 0 { assert path[1..][j - 1] == path[j]; } }
    }
  }

  /** A name is printed as it is exactly when it is plain; otherwise it comes out longer, in
      quotes. `ls-files` and `diff` print a plain name as it is, too. */
  lemma StatusNameExactly(path: string)
    ensures StatusName(path) == path <==> IsPlain(path)
    ensures IsPlain(path) ==> ListedName(path) == path
    ensures !IsPlain(path) ==> |StatusName(path)| > |path| && StatusName(path)[0] == '"'
  {
    EscapeExactly(path);
    if !IsPlain(path) {
      var i :| 0 <= i < |path| && !(0x21 <= path[i] as int < 0x7f && path[i] != '"' && path[i] != '\\');
      assert path[i] == ' ' || IsUnusual(path[i]);
    }
  }

  /** If status prints only names out of a finite set of paths, and each path of the set, then
      every path of the set is plain: a quoted name would have to be a path again, quoted once
      more, and longer each time. */
  lemma OnlyPlainNames(paths: set<string>)
    requires forall p :: p in paths ==> StatusName(p) in paths
    ensures forall p :: p in paths ==> IsPlain(p)
  {
    var bound := LengthBound(paths);
    forall p | p in paths ensures IsPlain(p) {
      if !IsPlain(p) { QuotedForever(paths, p, bound); }
    }
  }

  lemma {:induction false} QuotedForever(paths: set<string>, p: string, bound: nat)
    requires forall q :: q in paths ==> StatusName(q) in paths && |q| <= bound
    requires p in paths && !IsPlain(p)
    ensures false
    decreases bound - |p|
  {
    var q := StatusName(p);
    StatusNameExactly(p);
    assert !IsPlain(q) by { assert q[0] == '"'; }
    QuotedForever(paths, q, bound);
  }

  lemma {:induction false} LengthBound(paths: set<string>) returns (bound: nat)
    ensures forall p :: p in paths ==> |p| <= bound
  {
    if paths == {} {
      bound := 0;
    } else {
      var p :| p in paths;
      var rest := LengthBound(paths - {p});
      bound := if |p| > rest then |p| else rest;
      forall q | q in paths ensures |q| <= bound { if q != p { assert q in paths - {p}; } }
    }
  }
}

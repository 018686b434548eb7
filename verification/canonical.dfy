/** Canonical JSON (src/canonical.ts): normalisation, JSON.stringify (ECMA-262 section 25.5.2)
    and a JSON reader (RFC 8259 sections 4-7) that proves the text unambiguous. */
module Canonical {
  import opened Ordering
  import opened Text
  import opened Wrappers

  /** A JavaScript value as `normalize` meets it. Members are in the order Object.keys yields
      them; finite numbers other than -0 are their shortest decimal text. */
  datatype JsValue =
    | JsNull
    | JsBool(b: bool)
    | JsNumber(text: Text)
    | JsNegativeZero
    | JsString(s: Text)
    | JsArray(items: seq<JsValue>)
    | JsObject(members: seq<Member>)
    | JsNonFinite
    | JsUndefined
    | JsOther

  datatype Member = Member(key: Text, value: JsValue)

  /** What a JSON text means: objects are maps. */
  datatype Json =
    | Null
    | Bool(b: bool)
    | Number(text: Text)
    | String(s: Text)
    | Array(items: seq<Json>)
    | Object(fields: map<Text, Json>)

  // ----- Characters -----

  const QUOTE := 0x22
  const BACKSLASH := 0x5c
  const COMMA := 0x2c
  const COLON := 0x3a
  const OPEN_BRACKET := 0x5b
  const CLOSE_BRACKET := 0x5d
  const OPEN_BRACE := 0x7b
  const CLOSE_BRACE := 0x7d
  const ZERO: Text := [0x30]
  const TRUE: Text := [0x74, 0x72, 0x75, 0x65]
  const FALSE: Text := [0x66, 0x61, 0x6c, 0x73, 0x65]
  const NULL: Text := [0x6e, 0x75, 0x6c, 0x6c]

  // ----- Meaning -----

  function Denote(v: JsValue): Json
    decreases v, 1
  {
    match v
    case JsNull => Null
    case JsBool(b) => Bool(b)
    case JsNumber(text) => Number(text)
    case JsNegativeZero => Number(ZERO)
    case JsString(s) => String(s)
    case JsArray(items) => Array(DenoteItems(items))
    case JsObject(members) => Object(DenoteMembers(members))
    case _ => Null
  }

  function DenoteItems(items: seq<JsValue>): (r: seq<Json>)
    ensures |r| == |items| && forall i :: 0 <= i < |items| ==> r[i] == Denote(items[i])
    decreases items, 0
  {
    if items == [] then [] else [Denote(items[0])] + DenoteItems(items[1..])
  }

  /** As with JSON.parse, a later member replaces an earlier one of the same name. */
  function DenoteMembers(members: seq<Member>): map<Text, Json>
    decreases members, 0
  {
    if members == [] then map[]
    else map[members[0].key := Denote(members[0].value)] + DenoteMembers(members[1..])
  }

  // ----- Lexical classes -----

  predicate IsDigit(c: CodeUnit) { 0x30 <= c <= 0x39 }
  predicate IsLead(c: CodeUnit) { 0xd800 <= c <= 0xdbff }
  predicate IsTrail(c: CodeUnit) { 0xdc00 <= c <= 0xdfff }
  predicate IsSpace(c: CodeUnit) { c == 0x20 || c == 0x09 || c == 0x0a || c == 0x0d }

  /** Digits, sign, point and exponent markers. */
  predicate IsNumberChar(c: CodeUnit) { IsDigit(c) || c == 0x2b || c == 0x2d || c == 0x2e || c == 0x45 || c == 0x65 }

  function DigitRun(t: Text): (n: nat)
    ensures n <= |t| && forall i :: 0 <= i < n ==> IsDigit(t[i])
  {
    if t == [] || !IsDigit(t[0]) then 0 else 1 + DigitRun(t[1..])
  }

  /** RFC 8259 section 6: optional minus, integer without leading zero, fraction, exponent. */
  predicate IsNumberText(t: Text) {
    && (forall i :: 0 <= i < |t| ==> IsNumberChar(t[i]))
    && var digits := if t != [] && t[0] == 0x2d then t[1..] else t;
      var whole := DigitRun(digits);
      whole > 0 && (whole > 1 ==> digits[0] != 0x30) && IsFraction(digits[whole..])
  }

  predicate IsFraction(t: Text) {
    if t != [] && t[0] == 0x2e then
      DigitRun(t[1..]) > 0 && IsExponent(t[1 + DigitRun(t[1..])..])
    else IsExponent(t)
  }

  predicate IsExponent(t: Text) {
    t == [] ||
    ((t[0] == 0x65 || t[0] == 0x45) &&
     var digits := if |t| > 1 && (t[1] == 0x2b || t[1] == 0x2d) then t[2..] else t[1..];
     digits != [] && DigitRun(digits) == |digits|)
  }

  // ----- normalize -----

  predicate KeyLeq(a: Member, b: Member) { Leq(a.key, b.key) }

  /** The decimal value of a digit string. */
  function Decimal(key: Text): nat
    requires DigitRun(key) == |key|
  {
    if key == [] then 0
    else
      LastDigit(key);
      10 * Decimal(key[..|key| - 1]) + (key[|key| - 1] - 0x30)
  }

  lemma {:induction false} LastDigit(key: Text)
    requires key != [] && DigitRun(key) == |key|
    ensures DigitRun(key[..|key| - 1]) == |key| - 1 && IsDigit(key[|key| - 1])
  {
    if |key| > 1 {
      LastDigit(key[1..]);
      assert key[..|key| - 1][1..] == key[1..][..|key| - 2];
    }
  }

  const MAX_INDEX := 0xffff_fffe

  /** ECMA-262 array index: the property keys an object enumerates first, in numeric order. */
  predicate IsIndex(key: Text) {
    key != [] && DigitRun(key) == |key| && (|key| > 1 ==> key[0] != 0x30) && Decimal(key) <= MAX_INDEX
  }

  function Indexed(members: seq<Member>): (r: seq<Member>)
    ensures forall m :: m in r ==> m in members && IsIndex(m.key)
  {
    if members == [] then []
    else (if IsIndex(members[0].key) then [members[0]] else []) + Indexed(members[1..])
  }

  function Named(members: seq<Member>): (r: seq<Member>)
    ensures forall m :: m in r ==> m in members
  {
    if members == [] then []
    else (if IsIndex(members[0].key) then [] else [members[0]]) + Named(members[1..])
  }

  predicate NumericLeq(a: Member, b: Member) {
    (if IsIndex(a.key) then Decimal(a.key) else 0) <= (if IsIndex(b.key) then Decimal(b.key) else 0)
  }

  /** Object.keys(...).sort() and Object.fromEntries: keys in code-unit order, except that the
      rebuilt object enumerates its array indices first. */
  function Arrange(members: seq<Member>): seq<Member> {
    var sorted := Sort(KeyLeq, members);
    Sort(NumericLeq, Indexed(sorted)) + Named(sorted)
  }

  /** None where the source throws. Negative zero, which prints as 0, is folded here. */
  function Normalize(v: JsValue): Option<JsValue>
    decreases v, 1
  {
    match v
    case JsArray(items) =>
      (match NormalizeItems(items) case None => None case Some(xs) => Some(JsArray(xs)))
    case JsObject(members) =>
      (match NormalizeMembers(members) case None => None case Some(ms) => Some(JsObject(Arrange(ms))))
    case JsNegativeZero => Some(JsNumber(ZERO))
    case JsNonFinite => None
    case JsUndefined => None
    case JsOther => None
    case _ => Some(v)
  }

  function NormalizeItems(items: seq<JsValue>): (r: Option<seq<JsValue>>)
    ensures r.Some? ==> |r.value| == |items|
    ensures r.Some? ==> forall i :: 0 <= i < |items| ==> Normalize(items[i]) == Some(r.value[i])
    decreases items, 0
  {
    if items == [] then Some([])
    else
      match (Normalize(items[0]), NormalizeItems(items[1..]))
      case (Some(x), Some(xs)) => Some([x] + xs)
      case _ => None
  }

  function NormalizeMembers(members: seq<Member>): (r: Option<seq<Member>>)
    ensures r.Some? ==> |r.value| == |members|
    ensures r.Some? ==> forall i :: 0 <= i < |members| ==> r.value[i].key == members[i].key
    ensures r.Some? ==> forall i :: 0 <= i < |members| ==> Normalize(members[i].value) == Some(r.value[i].value)
    decreases members, 0
  {
    if members == [] then Some([])
    else
      match (Normalize(members[0].value), NormalizeMembers(members[1..]))
      case (Some(x), Some(ms)) => Some([Member(members[0].key, x)] + ms)
      case _ => None
  }

  // ----- JSON.stringify -----

  function HexDigit(n: nat): CodeUnit
    requires n < 16
  {
    if n < 10 then 0x30 + n else 0x61 + n - 10
  }

  function UnicodeEscape(c: CodeUnit): (t: Text)
    ensures |t| == 6
  {
    [BACKSLASH, 0x75, HexDigit(c / 0x1000), HexDigit((c / 0x100) % 16), HexDigit((c / 0x10) % 16), HexDigit(c % 16)]
  }

  function EscapeUnit(c: CodeUnit): Text {
    if c == 0x08 then [BACKSLASH, 0x62]
    else if c == 0x09 then [BACKSLASH, 0x74]
    else if c == 0x0a then [BACKSLASH, 0x6e]
    else if c == 0x0c then [BACKSLASH, 0x66]
    else if c == 0x0d then [BACKSLASH, 0x72]
    else if c == QUOTE then [BACKSLASH, QUOTE]
    else if c == BACKSLASH then [BACKSLASH, BACKSLASH]
    else if c < 0x20 || IsLead(c) || IsTrail(c) then UnicodeEscape(c)
    else [c]
  }

  /** Surrogate pairs are kept, lone surrogates escaped. */
  function Escape(s: Text): Text {
    if s == [] then []
    else if IsLead(s[0]) && |s| > 1 && IsTrail(s[1]) then s[..2] + Escape(s[2..])
    else EscapeUnit(s[0]) + Escape(s[1..])
  }

  function Quote(s: Text): Text { [QUOTE] + Escape(s) + [QUOTE] }

  function Print(v: JsValue): Text
    decreases v, 1
  {
    match v
    case JsNull => NULL
    case JsBool(b) => if b then TRUE else FALSE
    case JsNumber(text) => text
    case JsNegativeZero => ZERO
    case JsString(s) => Quote(s)
    case JsArray(items) => [OPEN_BRACKET] + PrintItems(items) + [CLOSE_BRACKET]
    case JsObject(members) => [OPEN_BRACE] + PrintMembers(members) + [CLOSE_BRACE]
    case _ => []
  }

  function PrintItems(items: seq<JsValue>): Text
    decreases items, 0
  {
    if items == [] then []
    else if |items| == 1 then Print(items[0])
    else Print(items[0]) + [COMMA] + PrintItems(items[1..])
  }

  function PrintMember(m: Member): Text
    decreases m, 0
  {
    Quote(m.key) + [COLON] + Print(m.value)
  }

  function PrintMembers(members: seq<Member>): Text
    decreases members, 0
  {
    if members == [] then []
    else if |members| == 1 then PrintMember(members[0])
    else PrintMember(members[0]) + [COMMA] + PrintMembers(members[1..])
  }

  function CanonicalJson(v: JsValue): Option<Text> {
    match Normalize(v) case None => None case Some(n) => Some(Print(n))
  }

  /** `digest`: the hash of the canonical text. */
  function Digest<D>(hash: Text -> D, v: JsValue): Option<D> {
    match CanonicalJson(v) case None => None case Some(t) => Some(hash(t))
  }

  // ----- JSON reader -----

  function SkipSpace(t: Text): (r: Text)
    ensures |r| <= |t|
  {
    if t != [] && IsSpace(t[0]) then SkipSpace(t[1..]) else t
  }

  function HexValue(c: CodeUnit): Option<nat> {
    if IsDigit(c) then Some(c - 0x30)
    else if 0x61 <= c <= 0x66 then Some(c - 0x61 + 10)
    else if 0x41 <= c <= 0x46 then Some(c - 0x41 + 10)
    else None
  }

  function ReadHex4(t: Text): Option<CodeUnit>
    requires |t| >= 4
  {
    match (HexValue(t[0]), HexValue(t[1]), HexValue(t[2]), HexValue(t[3]))
    case (Some(a), Some(b), Some(c), Some(d)) =>
      var n := 0x1000 * a + 0x100 * b + 0x10 * c + d;
      if n < 0x10000 then Some(n) else None
    case _ => None
  }

  /** The single character an escape letter stands for. */
  function EscapeLetter(c: CodeUnit): Option<CodeUnit> {
    if c == QUOTE || c == BACKSLASH || c == 0x2f then Some(c)
    else if c == 0x62 then Some(0x08)
    else if c == 0x66 then Some(0x0c)
    else if c == 0x6e then Some(0x0a)
    else if c == 0x72 then Some(0x0d)
    else if c == 0x74 then Some(0x09)
    else None
  }

  /** The characters of a string after its opening quotation mark. */
  function ReadChars(t: Text): (r: Option<(Text, Text)>)
    ensures r.Some? ==> |r.value.1| < |t|
  {
    if t == [] then None
    else if t[0] == QUOTE then Some(([], t[1..]))
    else if t[0] == BACKSLASH then
      if |t| >= 6 && t[1] == 0x75 then
        match (ReadHex4(t[2..6]), ReadChars(t[6..]))
        case (Some(c), Some((s, rest))) => Some(([c] + s, rest))
        case _ => None
      else if |t| >= 2 && EscapeLetter(t[1]).Some? then
        match ReadChars(t[2..])
        case Some((s, rest)) => Some(([EscapeLetter(t[1]).value] + s, rest))
        case None => None
      else None
    else if t[0] < 0x20 then None
    else
      match ReadChars(t[1..])
      case Some((s, rest)) => Some(([t[0]] + s, rest))
      case None => None
  }

  function NumberRun(t: Text): (n: nat)
    ensures n <= |t|
  {
    if t == [] || !IsNumberChar(t[0]) then 0 else 1 + NumberRun(t[1..])
  }

  /** A value at the start of the text (no leading space), with its members in the order they are
      written, and the text after it. */
  function ReadValue(t: Text): (r: Option<(JsValue, Text)>)
    ensures r.Some? ==> |r.value.1| < |t|
    decreases |t|, 0
  {
    if t == [] then None
    else if t[0] == QUOTE then
      match ReadChars(t[1..]) case Some((s, rest)) => Some((JsString(s), rest)) case None => None
    else if t[0] == OPEN_BRACKET then
      var body := SkipSpace(t[1..]);
      if body != [] && body[0] == CLOSE_BRACKET then Some((JsArray([]), body[1..]))
      else match ReadItems(body) case Some((xs, rest)) => Some((JsArray(xs), rest)) case None => None
    else if t[0] == OPEN_BRACE then
      var body := SkipSpace(t[1..]);
      if body != [] && body[0] == CLOSE_BRACE then Some((JsObject([]), body[1..]))
      else match ReadMembers(body) case Some((ms, rest)) => Some((JsObject(ms), rest)) case None => None
    else if NULL <= t then Some((JsNull, t[4..]))
    else if TRUE <= t then Some((JsBool(true), t[4..]))
    else if FALSE <= t then Some((JsBool(false), t[5..]))
    else
      var n := NumberRun(t);
      if IsNumberText(t[..n]) then
        assert n > 0;
        Some((JsNumber(t[..n]), t[n..]))
      else None
  }

  function ReadItems(t: Text): (r: Option<(seq<JsValue>, Text)>)
    ensures r.Some? ==> |r.value.1| < |t|
    decreases |t|, 1
  {
    match ReadValue(t)
    case None => None
    case Some((x, after)) =>
      var next := SkipSpace(after);
      if next == [] then None
      else if next[0] == CLOSE_BRACKET then Some(([x], next[1..]))
      else if next[0] != COMMA then None
      else
        match ReadItems(SkipSpace(next[1..]))
        case Some((xs, rest)) => Some(([x] + xs, rest))
        case None => None
  }

  function ReadMember(t: Text): (r: Option<(Member, Text)>)
    ensures r.Some? ==> |r.value.1| < |t|
    decreases |t|, 1
  {
    if t == [] || t[0] != QUOTE then None
    else
      match ReadChars(t[1..])
      case None => None
      case Some((key, after)) =>
        var colon := SkipSpace(after);
        if colon == [] || colon[0] != COLON then None
        else
          match ReadValue(SkipSpace(colon[1..]))
          case Some((x, rest)) => Some((Member(key, x), rest))
          case None => None
  }

  function ReadMembers(t: Text): (r: Option<(seq<Member>, Text)>)
    ensures r.Some? ==> |r.value.1| < |t|
    decreases |t|, 2
  {
    match ReadMember(t)
    case None => None
    case Some((m, after)) =>
      var next := SkipSpace(after);
      if next == [] then None
      else if next[0] == CLOSE_BRACE then Some(([m], next[1..]))
      else if next[0] != COMMA then None
      else
        match ReadMembers(SkipSpace(next[1..]))
        case Some((ms, rest)) => Some(([m] + ms, rest))
        case None => None
  }

  function ParseTree(t: Text): Option<JsValue> {
    match ReadValue(SkipSpace(t))
    case Some((v, rest)) => if SkipSpace(rest) == [] then Some(v) else None
    case None => None
  }

  /** What a text means, if it is JSON. */
  function Parse(t: Text): Option<Json> { match ParseTree(t) case None => None case Some(v) => Some(Denote(v)) }
}

/** State sets of the administrator apply protocol (src/administrator-handoff.ts): their checks, and
    why comparing canonical digests compares the sets themselves. */
module AdministratorState {
  import opened Ordering
  import opened Text
  import opened Wrappers
  import K = KeyedLists
  import C = Canonical
  import P = CanonicalProofs

  datatype Scalar = NullValue | Flag(b: bool) | Whole(n: int) | Words(s: Text)

  datatype StateEntry = StateEntry(key: Text, value: Scalar)

  datatype StateSet = StateSet(count: int, values: seq<StateEntry>)

  datatype ValueType = BooleanValue | IntegerValue | StringValue

  /** A key a control's state sets must hold, its domain, and the value it must end with, if fixed. */
  datatype Requirement = Requirement(key: Text, valueType: ValueType, requiredDesiredValue: Option<Scalar>)

  /** The decimal text of integers, the digest, and localeCompare on keys. */
  datatype Encoding = Encoding(numeral: int -> Text, hash: Text -> string, keyLeq: (Text, Text) -> bool)

  ghost predicate Numerals(numeral: int -> Text) {
    && (forall n :: C.IsNumberText(numeral(n)))
    && (forall m, n :: numeral(m) == numeral(n) ==> m == n)
  }

  ghost predicate Sound(e: Encoding) {
    Numerals(e.numeral) && P.CollisionFree(e.hash) && TotalPreorder(e.keyLeq)
  }

  // ----- The documents behind the digests -----

  const KEY: Text := [0x6b, 0x65, 0x79]
  const VALUE: Text := [0x76, 0x61, 0x6c, 0x75, 0x65]
  const COUNT: Text := [0x63, 0x6f, 0x75, 0x6e, 0x74]
  const VALUES: Text := [0x76, 0x61, 0x6c, 0x75, 0x65, 0x73]

  function ScalarDocument(e: Encoding, v: Scalar): C.JsValue {
    match v
    case NullValue => C.JsNull
    case Flag(b) => C.JsBool(b)
    case Whole(n) => C.JsNumber(e.numeral(n))
    case Words(s) => C.JsString(s)
  }

  /** An object with two members. */
  function Pair(k0: Text, v0: C.JsValue, k1: Text, v1: C.JsValue): C.JsValue {
    C.JsObject([C.Member(k0, v0), C.Member(k1, v1)])
  }

  function EntryDocument(e: Encoding, entry: StateEntry): C.JsValue {
    Pair(KEY, C.JsString(entry.key), VALUE, ScalarDocument(e, entry.value))
  }

  function EntriesDocument(e: Encoding, entries: seq<StateEntry>): C.JsValue {
    C.JsArray(seq(|entries|, i requires 0 <= i < |entries| => EntryDocument(e, entries[i])))
  }

  function StateDocument(e: Encoding, state: StateSet): C.JsValue {
    Pair(COUNT, C.JsNumber(e.numeral(state.count)), VALUES, EntriesDocument(e, state.values))
  }

  lemma PairDenotes(k0: Text, v0: C.JsValue, k1: Text, v1: C.JsValue)
    requires k0 != k1
    ensures C.Denote(Pair(k0, v0, k1, v1)) == C.Object(map[k0 := C.Denote(v0), k1 := C.Denote(v1)])
  {
    hide P.Representable;
    hide P.Plain;
    var members := [C.Member(k0, v0), C.Member(k1, v1)];
    assert members[1..] == [C.Member(k1, v1)] && members[1..][1..] == [];
    assert C.DenoteMembers(members[1..]) == map[k1 := C.Denote(v1)];
  }

  lemma PairMeans(k0: Text, v0: C.JsValue, k1: Text, v1: C.JsValue)
    requires k0 != k1
    ensures C.Denote(Pair(k0, v0, k1, v1)) == C.Object(map[k0 := C.Denote(v0), k1 := C.Denote(v1)])
    ensures P.Representable(Pair(k0, v0, k1, v1)) <==> P.Representable(v0) && P.Representable(v1)
    ensures P.Plain(Pair(k0, v0, k1, v1)) <==> P.Plain(v0) && P.Plain(v1)
  {
    PairDenotes(k0, v0, k1, v1);
    hide C.Denote;
    var members := [C.Member(k0, v0), C.Member(k1, v1)];
    assert members[0].value == v0 && members[1].value == v1;
  }

  /** Objects with the same two names mean the same exactly when their values do. */
  lemma PairIdentifies(k0: Text, v0: C.JsValue, k1: Text, v1: C.JsValue, w0: C.JsValue, w1: C.JsValue)
    requires k0 != k1
    ensures C.Denote(Pair(k0, v0, k1, v1)) == C.Denote(Pair(k0, w0, k1, w1)) <==>
      C.Denote(v0) == C.Denote(w0) && C.Denote(v1) == C.Denote(w1)
  {
    PairMeans(k0, v0, k1, v1);
    PairMeans(k0, w0, k1, w1);
    var m := map[k0 := C.Denote(v0), k1 := C.Denote(v1)];
    var n := map[k0 := C.Denote(w0), k1 := C.Denote(w1)];
    assert m[k0] == C.Denote(v0) && m[k1] == C.Denote(v1) && n[k0] == C.Denote(w0) && n[k1] == C.Denote(w1);
  }

  lemma NamesDiffer()
    ensures KEY != VALUE && COUNT != VALUES
  {
    assert KEY[0] != VALUE[0] && COUNT[0] != VALUES[0];
  }

  lemma ScalarIdentifies(e: Encoding, a: Scalar, b: Scalar)
    requires Numerals(e.numeral)
    ensures P.Representable(ScalarDocument(e, a)) && P.Plain(ScalarDocument(e, a))
    ensures C.Denote(ScalarDocument(e, a)) == C.Denote(ScalarDocument(e, b)) <==> a == b
  {
    if a.Whole? && b.Whole? { assert e.numeral(a.n) == e.numeral(b.n) ==> a.n == b.n; }
  }

  lemma EntryIdentifies(e: Encoding, a: StateEntry, b: StateEntry)
    requires Numerals(e.numeral)
    ensures P.Representable(EntryDocument(e, a)) && P.Plain(EntryDocument(e, a))
    ensures C.Denote(EntryDocument(e, a)) == C.Denote(EntryDocument(e, b)) <==> a == b
  {
    NamesDiffer();
    ScalarIdentifies(e, a.value, b.value);
    hide ScalarDocument;
    PairMeans(KEY, C.JsString(a.key), VALUE, ScalarDocument(e, a.value));
    PairIdentifies(KEY, C.JsString(a.key), VALUE, ScalarDocument(e, a.value), C.JsString(b.key), ScalarDocument(e, b.value));
  }

  lemma EntriesIdentify(e: Encoding, a: seq<StateEntry>, b: seq<StateEntry>)
    requires Numerals(e.numeral)
    ensures P.Representable(EntriesDocument(e, a)) && P.Plain(EntriesDocument(e, a))
    ensures C.Denote(EntriesDocument(e, a)) == C.Denote(EntriesDocument(e, b)) <==> a == b
  {
    var xs, ys := EntriesDocument(e, a).items, EntriesDocument(e, b).items;
    forall i | 0 <= i < |a| ensures P.Representable(xs[i]) && P.Plain(xs[i]) { EntryIdentifies(e, a[i], a[i]); }
    if C.Denote(EntriesDocument(e, a)) == C.Denote(EntriesDocument(e, b)) {
      assert C.DenoteItems(xs) == C.DenoteItems(ys);
      forall i | 0 <= i < |a| ensures a[i] == b[i] {
        assert C.DenoteItems(xs)[i] == C.DenoteItems(ys)[i];
        EntryIdentifies(e, a[i], b[i]);
      }
    }
  }

  lemma StateIdentifies(e: Encoding, a: StateSet, b: StateSet)
    requires Numerals(e.numeral)
    ensures P.Representable(StateDocument(e, a)) && P.Plain(StateDocument(e, a))
    ensures C.Denote(StateDocument(e, a)) == C.Denote(StateDocument(e, b)) <==> a == b
  {
    NamesDiffer();
    EntriesIdentify(e, a.values, b.values);
    PairMeans(COUNT, C.JsNumber(e.numeral(a.count)), VALUES, EntriesDocument(e, a.values));
    PairIdentifies(COUNT, C.JsNumber(e.numeral(a.count)), VALUES, EntriesDocument(e, a.values),
                   C.JsNumber(e.numeral(b.count)), EntriesDocument(e, b.values));
  }

  // ----- stateSetsEqual -----

  predicate StateSetsEqual(e: Encoding, left: StateSet, right: StateSet) {
    C.Digest(e.hash, StateDocument(e, left)) == C.Digest(e.hash, StateDocument(e, right))
  }

  /** Equal digests of the canonical texts mean equal state sets. */
  lemma StateSetsEqualExactly(e: Encoding, left: StateSet, right: StateSet)
    requires Sound(e)
    ensures StateSetsEqual(e, left, right) <==> left == right
  {
    StateIdentifies(e, left, right);
    StateIdentifies(e, right, left);
    P.DigestIdentifies(e.hash, StateDocument(e, left), StateDocument(e, right));
  }

  // ----- stateSetIssues -----

  const MAX_SAFE_INTEGER := 0x1f_ffff_ffff_ffff

  predicate IsSafeInteger(n: int) { -MAX_SAFE_INTEGER <= n <= MAX_SAFE_INTEGER }

  lemma SafeIntegersEnd()
    ensures IsSafeInteger(9_007_199_254_740_991) && !IsSafeInteger(9_007_199_254_740_992)
    ensures IsSafeInteger(-9_007_199_254_740_991) && !IsSafeInteger(-9_007_199_254_740_992)
  {
  }

  function EntryKey(entry: StateEntry): Text { entry.key }

  function EntryLeq(e: Encoding): (StateEntry, StateEntry) -> bool {
    (a: StateEntry, b: StateEntry) => e.keyLeq(a.key, b.key)
  }

  predicate WellFormedEntry(entry: StateEntry) { entry.value.Whole? ==> IsSafeInteger(entry.value.n) }

  /** A closed state set: the declared count, safe integers, and each key once, in order. */
  ghost predicate StateSetValid(e: Encoding, state: StateSet) {
    && state.count == |state.values| && IsSafeInteger(state.count)
    && (forall entry :: entry in state.values ==> WellFormedEntry(entry))
    && K.KeysDistinct(state.values, EntryKey) && Sorted(EntryLeq(e), state.values)
  }

  lemma OrderedExactly(e: Encoding, values: seq<StateEntry>)
    requires Sound(e)
    ensures C.Digest(e.hash, EntriesDocument(e, Sort(EntryLeq(e), values))) == C.Digest(e.hash, EntriesDocument(e, values))
      <==> Sorted(EntryLeq(e), values)
  {
    var sorted := Sort(EntryLeq(e), values);
    EntriesIdentify(e, sorted, values);
    EntriesIdentify(e, values, sorted);
    P.DigestIdentifies(e.hash, EntriesDocument(e, sorted), EntriesDocument(e, values));
    if Sorted(EntryLeq(e), values) { SortedIsFixed(EntryLeq(e), values); }
    if sorted == values {
      EntryOrderTotal(e);
      SortSorts(EntryLeq(e), values);
    }
  }

  lemma EntryOrderTotal(e: Encoding)
    requires TotalPreorder(e.keyLeq)
    ensures TotalPreorder(EntryLeq(e))
  {
    var leq := EntryLeq(e);
    forall a, b ensures leq(a, b) || leq(b, a) { assert e.keyLeq(a.key, b.key) || e.keyLeq(b.key, a.key); }
    forall a, b, c | leq(a, b) && leq(b, c) ensures leq(a, c) { assert e.keyLeq(a.key, b.key) && e.keyLeq(b.key, c.key); }
  }

  datatype StateIssue = BadCount | CountMismatch | MalformedEntry | DuplicateKey | NotSorted

  method StateSetIssues(e: Encoding, state: StateSet) returns (issues: seq<StateIssue>)
    requires Sound(e)
    ensures issues == [] <==> StateSetValid(e, state)
  {
    if !IsSafeInteger(state.count) || state.count < 0 { return [BadCount]; }
    issues := [];
    if state.count != |state.values| { issues := issues + [CountMismatch]; }
    if exists entry :: entry in state.values && !WellFormedEntry(entry) { return issues + [MalformedEntry]; }
    var duplicates := K.FindDuplicateKeys(state.values, EntryKey);
    if duplicates != [] { issues := issues + [DuplicateKey]; }
    OrderedExactly(e, state.values);
    var sorted := Sort(EntryLeq(e), state.values);
    if C.Digest(e.hash, EntriesDocument(e, sorted)) != C.Digest(e.hash, EntriesDocument(e, state.values)) {
      issues := issues + [NotSorted];
    }
  }

  /** Two valid state sets over an order that separates keys list the same entries in the same
      order as soon as they hold the same ones. */
  lemma ValidStatesByEntries(e: Encoding, a: StateSet, b: StateSet)
    requires TotalOrder(e.keyLeq) && StateSetValid(e, a) && StateSetValid(e, b)
    requires forall entry :: entry in a.values <==> entry in b.values
    ensures a == b
  {
    EntryOrderTotal(e);
    forall x, y | x in a.values && y in a.values && EntryLeq(e)(x, y) && EntryLeq(e)(y, x) ensures x == y {
      K.KeyOwner(a.values, EntryKey, x, y);
    }
    EntriesDistinct(a.values);
    EntriesDistinct(b.values);
    DistinctSameSet(a.values, b.values);
    SortedUnique(EntryLeq(e), a.values, b.values);
  }

  lemma EntriesDistinct(values: seq<StateEntry>)
    requires K.KeysDistinct(values, EntryKey)
    ensures Distinct(values)
  {
    forall i, j | 0 <= i < j < |values| ensures values[i] != values[j] {
      assert K.Keys(values, EntryKey)[i] != K.Keys(values, EntryKey)[j];
    }
  }
}

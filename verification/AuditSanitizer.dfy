/** Audit payloads: redaction of sensitive keys, bounds on shape, and collapse of what is
    still too large.  size is the length in bytes of the compact JSON text, if it has one. */
module AuditSanitizer {
  import opened ExecutionRows
  import opened Text

  const REDACTION_MARKER := "[REDACTED]"
  const TRUNCATION_MARKER := "[TRUNCATED]"
  const MAX_NESTING_DEPTH := 8
  const MAX_OBJECT_KEYS := 64
  const MAX_LIST_ITEMS := 64
  const MAX_STRING_LENGTH := 1000
  const MAX_SERIALIZED_BYTES := 8192

  /** Other: any other object, with its text if it has one.  Keys are taken as text, so a
      dictionary may come with the same key twice. */
  datatype Value =
    | Null
    | Bool(b: bool)
    | Int(n: int)
    | Float(x: real)
    | Text(s: string)
    | Bytes
    | Dict(entries: seq<Entry>)
    | List(items: seq<Value>)
    | Other(text: Option<string>)

  datatype Entry = Entry(key: string, value: Value)

  type Size = Value -> Option<nat>

  const CUT := Text(TRUNCATION_MARKER)
  const REDACTED := Text(REDACTION_MARKER)

  function SensitiveKeys(): set<string> {
    {
    "password", "passwordhash", "secret", "secretvalue", "secretkey", "apikey", "accesstoken", "refreshtoken",
    "authorization", "cookie", "setcookie", "sessiontoken", "csrftoken", "encryptionkey", "rawsessiontoken",
    "requeststate", "clientsecret", "tokenhash", "csrftokenhash", "token", "credential", "credentials",
    "authtoken", "bearertoken", "privatekey"}
  }

  predicate IsSensitive(key: string) {
    Normalize(key) in SensitiveKeys()
  }

  function Truncated(s: string): (r: string)
    ensures |r| <= MAX_STRING_LENGTH
    ensures |s| <= MAX_STRING_LENGTH ==> r == s
  {
    if |s| <= MAX_STRING_LENGTH then s else s[..MAX_STRING_LENGTH - |TRUNCATION_MARKER|] + TRUNCATION_MARKER
  }

  // ---- ordered dictionaries ---------------------------------------------------------------------

  predicate HasKey(es: seq<Entry>, key: string) {
    exists i :: 0 <= i < |es| && es[i].key == key
  }

  /** Assignment to a key keeps its place. */
  function Put(es: seq<Entry>, e: Entry): seq<Entry> {
    if es == [] then [e]
    else if es[0].key == e.key then [e] + es[1..]
    else [es[0]] + Put(es[1..], e)
  }

  function PutAll(es: seq<Entry>): seq<Entry> {
    if es == [] then [] else Put(PutAll(es[..|es| - 1]), es[|es| - 1])
  }

  // ---- the sanitizer --------------------------------------------------------------------------------

  function Summary(bytes: nat): Value {
    Dict([Entry("_truncated", CUT), Entry("_original_bytes", Int(bytes))])
  }

  const UNSERIALIZABLE := Dict([Entry("_error", CUT)])

  predicate Fits(v: Value, size: Size) {
    size(v).Some? && size(v).value <= MAX_SERIALIZED_BYTES
  }

  function BoundSerialized(v: Value, size: Size): Value {
    match size(v)
    case None => UNSERIALIZABLE
    case Some(n) => if n <= MAX_SERIALIZED_BYTES then v else Summary(n)
  }

  function SanitizeEntry(e: Entry, depth: nat, size: Size): Entry
    requires depth <= MAX_NESTING_DEPTH
    decreases MAX_NESTING_DEPTH - depth, 2
  {
    var key := Truncated(e.key);
    Entry(key, if IsSensitive(key) then REDACTED else Sanitize(e.value, depth + 1, size))
  }

  function SanitizeEntries(es: seq<Entry>, depth: nat, size: Size): (r: seq<Entry>)
    requires depth <= MAX_NESTING_DEPTH
    ensures |r| == |es| && forall i :: 0 <= i < |es| ==> r[i] == SanitizeEntry(es[i], depth, size)
    decreases MAX_NESTING_DEPTH - depth, 3
  {
    seq(|es|, i requires 0 <= i < |es| => SanitizeEntry(es[i], depth, size))
  }

  function BuildEntries(es: seq<Entry>, depth: nat, size: Size): seq<Entry>
    requires depth <= MAX_NESTING_DEPTH
    decreases MAX_NESTING_DEPTH - depth, 4
  {
    if |es| <= MAX_OBJECT_KEYS then PutAll(SanitizeEntries(es, depth, size))
    else Put(PutAll(SanitizeEntries(es[..MAX_OBJECT_KEYS], depth, size)), Entry(TRUNCATION_MARKER, CUT))
  }

  function SanitizeItems(vs: seq<Value>, depth: nat, size: Size): (r: seq<Value>)
    requires depth <= MAX_NESTING_DEPTH
    ensures |r| == |vs| && forall i :: 0 <= i < |vs| ==> r[i] == Sanitize(vs[i], depth + 1, size)
    decreases MAX_NESTING_DEPTH - depth, 3
  {
    seq(|vs|, i requires 0 <= i < |vs| => Sanitize(vs[i], depth + 1, size))
  }

  function BuildItems(vs: seq<Value>, depth: nat, size: Size): seq<Value>
    requires depth <= MAX_NESTING_DEPTH
    decreases MAX_NESTING_DEPTH - depth, 4
  {
    if |vs| <= MAX_LIST_ITEMS then SanitizeItems(vs, depth, size)
    else SanitizeItems(vs[..MAX_LIST_ITEMS], depth, size) + [CUT]
  }

  function Sanitize(v: Value, depth: nat, size: Size): Value
    requires depth <= MAX_NESTING_DEPTH + 1
    decreases MAX_NESTING_DEPTH + 1 - depth, 1
  {
    if depth > MAX_NESTING_DEPTH then CUT else
    match v
    case Null | Bool(_) | Int(_) | Float(_) => v
    case Text(s) => Text(Truncated(s))
    case Bytes => REDACTED
    case Dict(es) => BoundSerialized(Dict(BuildEntries(es, depth, size)), size)
    case List(vs) => BoundSerialized(List(BuildItems(vs, depth, size)), size)
    case Other(text) => if text.Some? then Text(Truncated(text.value)) else CUT
  }

  /** The recursion with its loops, as written. */
  method SanitizeAuditValue(v: Value, depth: nat, size: Size) returns (out: Value)
    requires depth <= MAX_NESTING_DEPTH + 1
    ensures out == Sanitize(v, depth, size)
    decreases MAX_NESTING_DEPTH + 1 - depth, 0
  {
    if depth > MAX_NESTING_DEPTH { return CUT; }
    match v
    case Null | Bool(_) | Int(_) | Float(_) => return v;
    case Text(s) => return Text(Truncated(s));
    case Bytes => return REDACTED;
    case Other(text) => return if text.Some? then Text(Truncated(text.value)) else CUT;
    case Dict(es) =>
      var built := SanitizeDict(es, depth, size);
      return BoundSerialized(Dict(built), size);
    case List(vs) =>
      var items := SanitizeList(vs, depth, size);
      return BoundSerialized(List(items), size);
  }

  method SanitizeDict(es: seq<Entry>, depth: nat, size: Size) returns (out: seq<Entry>)
    requires depth <= MAX_NESTING_DEPTH
    ensures out == BuildEntries(es, depth, size)
    decreases MAX_NESTING_DEPTH - depth, 1
  {
    hide IsSensitive, Put, Truncated, Sanitize;
    out := [];
    for index := 0 to |es|
      invariant index <= MAX_OBJECT_KEYS && out == PutAll(SanitizeEntries(es[..index], depth, size))
    {
      if index >= MAX_OBJECT_KEYS {
        out := Put(out, Entry(TRUNCATION_MARKER, CUT));
        return;
      }
      var key := Truncated(es[index].key);
      var value := REDACTED;
      if !IsSensitive(key) { value := SanitizeAuditValue(es[index].value, depth + 1, size); }
      out := Put(out, Entry(key, value));
      ghost var all := SanitizeEntries(es[..index + 1], depth, size);
      assert all[..index] == SanitizeEntries(es[..index], depth, size) && all[index] == Entry(key, value);
    }
    assert es[..|es|] == es;
  }

  method SanitizeList(vs: seq<Value>, depth: nat, size: Size) returns (out: seq<Value>)
    requires depth <= MAX_NESTING_DEPTH
    ensures out == BuildItems(vs, depth, size)
    decreases MAX_NESTING_DEPTH - depth, 1
  {
    out := [];
    var kept := if |vs| <= MAX_LIST_ITEMS then vs else vs[..MAX_LIST_ITEMS];
    for k := 0 to |kept|
      invariant out == SanitizeItems(kept[..k], depth, size)
    {
      var item := SanitizeAuditValue(kept[k], depth + 1, size);
      out := out + [item];
    }
    assert kept[..|kept|] == kept;
    if |vs| > MAX_LIST_ITEMS { out := out + [CUT]; }
  }

  // ---- what comes out --------------------------------------------------------------------------------

  predicate IsSummary(v: Value) {
    v.Dict? && |v.entries| == 2 && v.entries[0] == Entry("_truncated", CUT)
    && v.entries[1].key == "_original_bytes" && v.entries[1].value.Int?
  }

  ghost predicate DistinctKeys(es: seq<Entry>) {
    forall i, j | 0 <= i < j < |es| :: es[i].key != es[j].key
  }

  /** Every sensitive key holds the redaction marker, depth, keys, items and text are within
      their bounds, and every container fits. */
  ghost predicate Bounded(w: Value, depth: nat, size: Size)
    requires depth <= MAX_NESTING_DEPTH + 1
    decreases MAX_NESTING_DEPTH + 1 - depth, 0
  {
    if depth > MAX_NESTING_DEPTH then w == CUT else
    match w
    case Null | Bool(_) | Int(_) | Float(_) => true
    case Text(s) => |s| <= MAX_STRING_LENGTH
    case Bytes => false
    case Other(_) => false
    case Dict(es) => Fits(w, size) && (IsSummary(w) || EntriesBounded(es, depth, size))
    case List(vs) => Fits(w, size) && ItemsBounded(vs, depth, size)
  }

  ghost predicate EntriesBounded(es: seq<Entry>, depth: nat, size: Size)
    requires depth <= MAX_NESTING_DEPTH
    decreases MAX_NESTING_DEPTH - depth, 2
  {
    && |es| <= MAX_OBJECT_KEYS + 1
    && (|es| == MAX_OBJECT_KEYS + 1 ==> es[MAX_OBJECT_KEYS] == Entry(TRUNCATION_MARKER, CUT))
    && DistinctKeys(es)
    && (forall i :: 0 <= i < |es| ==> EntryBounded(es[i], depth, size))
  }

  ghost predicate EntryBounded(e: Entry, depth: nat, size: Size)
    requires depth <= MAX_NESTING_DEPTH
    decreases MAX_NESTING_DEPTH - depth, 1
  {
    && |e.key| <= MAX_STRING_LENGTH
    && (if IsSensitive(e.key) then e.value == REDACTED else Bounded(e.value, depth + 1, size))
  }

  ghost predicate ItemsBounded(vs: seq<Value>, depth: nat, size: Size)
    requires depth <= MAX_NESTING_DEPTH
    decreases MAX_NESTING_DEPTH - depth, 2
  {
    && |vs| <= MAX_LIST_ITEMS + 1
    && (|vs| == MAX_LIST_ITEMS + 1 ==> vs[MAX_LIST_ITEMS] == CUT)
    && (forall i :: 0 <= i < |vs| ==> Bounded(vs[i], depth + 1, size))
  }

  const CUT_SUMMARY := Dict([Entry("_truncated", CUT), Entry("_original_bytes", CUT)])

  /** A container as the sanitizer builds it, before its size is looked at. */
  ghost predicate IsBuilt(v: Value, depth: nat, size: Size) {
    depth <= MAX_NESTING_DEPTH
    && if v.Dict? then EntriesBounded(v.entries, depth, size) else v.List? && ItemsBounded(v.items, depth, size)
  }

  /** The small replacement objects fit.  They do in JSON text: AuditJson.JsonReplacementsFit. */
  ghost predicate ReplacementsFit(size: Size) {
    && (forall v, depth: nat :: IsBuilt(v, depth, size) && size(v).Some? ==> Fits(Summary(size(v).value), size))
    && Fits(UNSERIALIZABLE, size)
    && Fits(CUT_SUMMARY, size)
  }

  lemma SensitiveStart(k: string)
    requires k in SensitiveKeys()
    ensures |k| >= 2 && k[0] != '[' && k[0] != 'o' && (k[0] == 'e' ==> k[1] == 'n') && (k[0] == 't' ==> k[1] == 'o')
  {
  }

  lemma StartsNotSensitive(key: string)
    requires |key| >= 2 && key[0] !in "_- " && key[1] !in "_- "
    requires var c, d := Lower(key[0]), Lower(key[1]); c == '[' || c == 'o' || (c == 'e' && d != 'n') || (c == 't' && d != 'o')
    ensures !IsSensitive(key) && !IsSensitive("_" + key)
  {
    var k := Normalize(key);
    assert k[0] == Lower(key[0]);
    assert Normalize(key[1..])[0] == Lower(key[1]) && k[1] == Lower(key[1]);
    assert ("_" + key)[1..] == key && Normalize("_" + key) == k;
    if k in SensitiveKeys() { SensitiveStart(k); }
  }

  lemma MarkersNotSensitive()
    ensures !IsSensitive(TRUNCATION_MARKER) && !IsSensitive("_error")
    ensures !IsSensitive("_truncated") && !IsSensitive("_original_bytes")
  {
    hide IsSensitive;
    StartsNotSensitive(TRUNCATION_MARKER);
    StartsNotSensitive("error");
    StartsNotSensitive("truncated");
    StartsNotSensitive("original_bytes");
    assert "_" + "error" == "_error" && "_" + "truncated" == "_truncated" && "_" + "original_bytes" == "_original_bytes";
  }

  // ---- dictionaries built key by key --------------------------------------------------------------

  lemma {:induction false} PutKeys(es: seq<Entry>, e: Entry, key: string)
    ensures HasKey(Put(es, e), key) <==> HasKey(es, key) || key == e.key
  {
    KeyOfTail(Put(es, e), key);
    if es != [] {
      PutKeys(es[1..], e, key);
      KeyOfTail(es, key);
      assert Put(es, e)[1..] == if es[0].key == e.key then es[1..] else Put(es[1..], e);
    }
  }

  lemma {:induction false} PutFacts(es: seq<Entry>, e: Entry)
    requires DistinctKeys(es)
    ensures DistinctKeys(Put(es, e))
    ensures forall x :: x in Put(es, e) ==> x == e || x in es
    ensures if HasKey(es, e.key) then |Put(es, e)| == |es| else Put(es, e) == es + [e]
  {
    if es != [] {
      PutFacts(es[1..], e);
      KeyOfTail(es, e.key);
      PutKeys(es[1..], e, es[0].key);
      assert !HasKey(es[1..], es[0].key);
    }
  }

  lemma KeyOfTail(es: seq<Entry>, key: string)
    requires es != []
    ensures HasKey(es, key) <==> es[0].key == key || HasKey(es[1..], key)
  {
    if i :| 0 <= i < |es| && es[i].key == key { if i > 0 { assert es[1..][i - 1].key == key; } }
    if i :| 0 <= i < |es| - 1 && es[1..][i].key == key { assert es[i + 1].key == key; }
  }

  lemma {:induction false} PutAllFacts(es: seq<Entry>)
    ensures DistinctKeys(PutAll(es)) && |PutAll(es)| <= |es|
    ensures forall x :: x in PutAll(es) ==> x in es
  {
    if es != [] {
      PutAllFacts(es[..|es| - 1]);
      PutFacts(PutAll(es[..|es| - 1]), es[|es| - 1]);
    }
  }

  /** Rebuilding a dictionary key by key gives the same dictionary. */
  lemma {:induction false} PutAllSame(es: seq<Entry>)
    requires DistinctKeys(es)
    ensures PutAll(es) == es
  {
    if es != [] {
      var n := |es| - 1;
      PutAllSame(es[..n]);
      PutFacts(es[..n], es[n]);
      assert !HasKey(es[..n], es[n].key);
      assert es[..n] + [es[n]] == es;
    }
  }

  // ---- bounds -----------------------------------------------------------------------------------------

  lemma PutAllFrom(es: seq<Entry>, depth: nat, size: Size)
    requires depth <= MAX_NESTING_DEPTH && |es| <= MAX_OBJECT_KEYS
    requires forall i :: 0 <= i < |es| ==> EntryBounded(es[i], depth, size)
    ensures EntriesBounded(PutAll(es), depth, size) && |PutAll(es)| <= MAX_OBJECT_KEYS
  {
    hide IsSensitive;
    PutAllFacts(es);
    var out := PutAll(es);
    forall i | 0 <= i < |out| ensures EntryBounded(out[i], depth, size) { assert out[i] in es; }
  }

  lemma {:induction false} BuiltBounded(es: seq<Entry>, depth: nat, size: Size)
    requires depth <= MAX_NESTING_DEPTH && ReplacementsFit(size)
    ensures EntriesBounded(BuildEntries(es, depth, size), depth, size)
    decreases MAX_NESTING_DEPTH - depth, 1
  {
    hide IsSensitive;
    var kept := if |es| <= MAX_OBJECT_KEYS then es else es[..MAX_OBJECT_KEYS];
    var clean := SanitizeEntries(kept, depth, size);
    forall i | 0 <= i < |kept| ensures EntryBounded(clean[i], depth, size) {
      SanitizeBounded(kept[i].value, depth + 1, size);
    }
    PutAllFrom(clean, depth, size);
    if |es| > MAX_OBJECT_KEYS {
      var marker, out := Entry(TRUNCATION_MARKER, CUT), PutAll(clean);
      MarkersNotSensitive();
      PutFacts(out, marker);
      var put := Put(out, marker);
      forall i | 0 <= i < |put| ensures EntryBounded(put[i], depth, size) { assert put[i] == marker || put[i] in out; }
    }
  }

  lemma {:induction false} BuiltItemsBounded(vs: seq<Value>, depth: nat, size: Size)
    requires depth <= MAX_NESTING_DEPTH && ReplacementsFit(size)
    ensures ItemsBounded(BuildItems(vs, depth, size), depth, size)
    decreases MAX_NESTING_DEPTH - depth, 1
  {
    hide Sanitize, ReplacementsFit;
    var kept := if |vs| <= MAX_LIST_ITEMS then vs else vs[..MAX_LIST_ITEMS];
    var clean := SanitizeItems(kept, depth, size);
    forall i | 0 <= i < |kept| ensures Bounded(clean[i], depth + 1, size) {
      SanitizeBounded(kept[i], depth + 1, size);
    }
  }

  /** Whatever comes in, what goes out is within all bounds. */
  lemma {:induction false} SanitizeBounded(v: Value, depth: nat, size: Size)
    requires depth <= MAX_NESTING_DEPTH + 1 && ReplacementsFit(size)
    ensures Bounded(Sanitize(v, depth, size), depth, size)
    decreases MAX_NESTING_DEPTH + 1 - depth, 0
  {
    hide EntriesBounded, ItemsBounded, BuildEntries, BuildItems, ReplacementsFit;
    if depth > MAX_NESTING_DEPTH { return; }
    if v.Dict? {
      BuiltBounded(v.entries, depth, size);
      BoundBounded(Dict(BuildEntries(v.entries, depth, size)), depth, size);
    } else if v.List? {
      BuiltItemsBounded(v.items, depth, size);
      BoundBounded(List(BuildItems(v.items, depth, size)), depth, size);
    }
  }

  lemma BoundBounded(v: Value, depth: nat, size: Size)
    requires depth <= MAX_NESTING_DEPTH && ReplacementsFit(size)
    requires IsBuilt(v, depth, size)
    ensures Bounded(BoundSerialized(v, size), depth, size)
  {
    hide IsSensitive, EntriesBounded, ItemsBounded;
    UnserializableBounded(depth, size);
  }

  lemma UnserializableBounded(depth: nat, size: Size)
    requires depth <= MAX_NESTING_DEPTH
    ensures EntriesBounded(UNSERIALIZABLE.entries, depth, size)
  {
    MarkersNotSensitive();
    hide IsSensitive;
    assert EntryBounded(UNSERIALIZABLE.entries[0], depth, size);
  }

  lemma SummaryEntriesBounded(w: Value, depth: nat, size: Size)
    requires depth < MAX_NESTING_DEPTH && IsSummary(w)
    ensures EntriesBounded(w.entries, depth, size)
  {
    MarkersNotSensitive();
    hide IsSensitive;
    var es := w.entries;
    assert EntryBounded(es[0], depth, size) && EntryBounded(es[1], depth, size);
    assert es[0].key[1] != es[1].key[1];
  }

  // ---- sanitizing again ---------------------------------------------------------------------------------

  /** A summary object that sits at the last permitted depth. */
  predicate DeepSummary(w: Value, depth: nat)
    decreases w
  {
    match w
    case Dict(es) =>
      if depth == MAX_NESTING_DEPTH then IsSummary(w)
      else depth < MAX_NESTING_DEPTH && exists i :: 0 <= i < |es| && DeepSummary(es[i].value, depth + 1)
    case List(vs) => depth < MAX_NESTING_DEPTH && exists i :: 0 <= i < |vs| && DeepSummary(vs[i], depth + 1)
    case _ => false
  }

  /** Entries already within bounds come back under their own keys, in their own places. */
  lemma RebuiltInPlace(es: seq<Entry>, depth: nat, size: Size)
    requires depth <= MAX_NESTING_DEPTH && EntriesBounded(es, depth, size)
    ensures var built := BuildEntries(es, depth, size);
      && |built| == |es|
      && forall i :: 0 <= i < |es| ==> built[i] == SanitizeEntry(es[i], depth, size)
  {
    hide IsSensitive, Sanitize, Bounded, PutAll, Put, Normalize;
    var kept := if |es| <= MAX_OBJECT_KEYS then es else es[..MAX_OBJECT_KEYS];
    var clean := SanitizeEntries(kept, depth, size);
    assert forall i :: 0 <= i < |kept| ==> clean[i].key == es[i].key;
    PutAllSame(clean);
    if |es| > MAX_OBJECT_KEYS {
      var marker := Entry(TRUNCATION_MARKER, CUT);
      PutFacts(clean, marker);
      assert !HasKey(clean, TRUNCATION_MARKER);
      MarkerEntryKept(depth, size);
    }
  }

  lemma MarkerEntryKept(depth: nat, size: Size)
    requires depth <= MAX_NESTING_DEPTH
    ensures SanitizeEntry(Entry(TRUNCATION_MARKER, CUT), depth, size) == Entry(TRUNCATION_MARKER, CUT)
  {
    MarkersNotSensitive();
    hide IsSensitive;
  }

  lemma {:induction false} EntryAgain(e: Entry, depth: nat, size: Size)
    requires depth <= MAX_NESTING_DEPTH && ReplacementsFit(size) && EntryBounded(e, depth, size)
    ensures SanitizeEntry(e, depth, size) == e <==> !DeepSummary(e.value, depth + 1)
    decreases MAX_NESTING_DEPTH - depth, 1
  {
    TextNotDeep(REDACTED, depth + 1);
    ShortKeyKept(e.key);
    hide IsSensitive, Sanitize, DeepSummary, Bounded, ReplacementsFit, Truncated;
    if !IsSensitive(e.key) { SanitizeAgain(e.value, depth + 1, size); }
  }

  lemma TextNotDeep(w: Value, depth: nat)
    requires w.Text?
    ensures !DeepSummary(w, depth)
  {
  }

  /** A sanitized value sanitizes to itself exactly when it holds no summary object at depth 8:
      one level further down its byte count is cut. */
  lemma {:induction false} SanitizeAgain(w: Value, depth: nat, size: Size)
    requires depth <= MAX_NESTING_DEPTH + 1 && ReplacementsFit(size) && Bounded(w, depth, size)
    ensures Sanitize(w, depth, size) == w <==> !DeepSummary(w, depth)
    decreases MAX_NESTING_DEPTH + 1 - depth, 0
  {
    hide IsSensitive;
    if depth > MAX_NESTING_DEPTH { return; }
    match w
    case Dict(es) =>
      if depth == MAX_NESTING_DEPTH && IsSummary(w) {
        CutsTheCount(w, size);
      } else {
        if IsSummary(w) { SummaryEntriesBounded(w, depth, size); }
        EntriesAgain(es, depth, size);
      }
    case List(vs) =>
      ItemsAgain(vs, depth, size);
    case _ =>
  }

  lemma CutsTheCount(w: Value, size: Size)
    requires IsSummary(w) && ReplacementsFit(size)
    ensures Sanitize(w, MAX_NESTING_DEPTH, size) == CUT_SUMMARY
  {
    MarkersNotSensitive();
    hide IsSensitive, BuildEntries;
    assert w.entries[0].key[1] != w.entries[1].key[1];
    CutPair(w.entries, size);
  }

  lemma CutPair(es: seq<Entry>, size: Size)
    requires |es| == 2 && es[0].key != es[1].key
    requires forall i :: 0 <= i < 2 ==> !IsSensitive(es[i].key) && |es[i].key| <= MAX_STRING_LENGTH
    ensures BuildEntries(es, MAX_NESTING_DEPTH, size) == [Entry(es[0].key, CUT), Entry(es[1].key, CUT)]
  {
    hide IsSensitive, SanitizeEntry, PutAll;
    var clean := SanitizeEntries(es, MAX_NESTING_DEPTH, size);
    CutEntry(es[0], size);
    CutEntry(es[1], size);
    PutAllSame(clean);
  }

  lemma CutEntry(e: Entry, size: Size)
    requires !IsSensitive(e.key) && |e.key| <= MAX_STRING_LENGTH
    ensures SanitizeEntry(e, MAX_NESTING_DEPTH, size) == Entry(e.key, CUT)
  {
    hide IsSensitive;
  }

  lemma {:induction false} EntriesAgain(es: seq<Entry>, depth: nat, size: Size)
    requires depth <= MAX_NESTING_DEPTH && ReplacementsFit(size) && EntriesBounded(es, depth, size) && Fits(Dict(es), size)
    requires depth == MAX_NESTING_DEPTH ==> !IsSummary(Dict(es))
    ensures Sanitize(Dict(es), depth, size) == Dict(es) <==> !DeepSummary(Dict(es), depth)
    decreases MAX_NESTING_DEPTH - depth, 2
  {
    hide ReplacementsFit, EntryBounded, SanitizeEntry;
    RebuiltInPlace(es, depth, size);
    forall i | 0 <= i < |es| ensures SanitizeEntry(es[i], depth, size) == es[i] <==> !DeepSummary(es[i].value, depth + 1) {
      EntryAgain(es[i], depth, size);
    }
    EntriesConclude(es, BuildEntries(es, depth, size), depth, size);
  }

  lemma EntriesConclude(es: seq<Entry>, built: seq<Entry>, depth: nat, size: Size)
    requires depth <= MAX_NESTING_DEPTH && Fits(Dict(es), size) && |built| == |es|
    requires depth == MAX_NESTING_DEPTH ==> !IsSummary(Dict(es))
    requires forall i :: 0 <= i < |es| ==> (built[i] == es[i] <==> !DeepSummary(es[i].value, depth + 1))
    ensures BoundSerialized(Dict(built), size) == Dict(es) <==> !DeepSummary(Dict(es), depth)
  {
    hide DeepSummary;
    DeepBelow(Dict(es), depth);
    BoundUnchanged(Dict(built), Dict(es), size);
    if i :| 0 <= i < |es| && DeepSummary(es[i].value, depth + 1) {
      assert built[i] != es[i];
    } else {
      assert built == es;
    }
  }

  /** Where a deep summary may sit, one level at a time. */
  lemma DeepBelow(w: Value, depth: nat)
    requires depth <= MAX_NESTING_DEPTH
    ensures w.Dict? && !(depth == MAX_NESTING_DEPTH && IsSummary(w)) ==>
      (DeepSummary(w, depth) <==> exists i :: 0 <= i < |w.entries| && DeepSummary(w.entries[i].value, depth + 1))
    ensures w.List? ==> (DeepSummary(w, depth) <==> exists i :: 0 <= i < |w.items| && DeepSummary(w.items[i], depth + 1))
    ensures IsSummary(w) || w == UNSERIALIZABLE ==>
      forall i :: 0 <= i < |w.entries| ==> !DeepSummary(w.entries[i].value, depth + 1)
  {
  }

  /** Bounding leads back to a value that fits only from that value, unless the value is a
      replacement object itself. */
  lemma BoundUnchanged(v: Value, w: Value, size: Size)
    requires Fits(w, size)
    ensures v == w ==> BoundSerialized(v, size) == w
    ensures BoundSerialized(v, size) == w ==> v == w || IsSummary(w) || w == UNSERIALIZABLE
  {
  }

  lemma {:induction false} ItemsAgain(vs: seq<Value>, depth: nat, size: Size)
    requires depth <= MAX_NESTING_DEPTH && ReplacementsFit(size) && ItemsBounded(vs, depth, size) && Fits(List(vs), size)
    ensures Sanitize(List(vs), depth, size) == List(vs) <==> !DeepSummary(List(vs), depth)
    decreases MAX_NESTING_DEPTH - depth, 2
  {
    hide ReplacementsFit;
    ItemsRebuilt(vs, depth, size);
    forall i | 0 <= i < |vs| ensures Sanitize(vs[i], depth + 1, size) == vs[i] <==> !DeepSummary(vs[i], depth + 1) {
      SanitizeAgain(vs[i], depth + 1, size);
    }
    ItemsConclude(vs, BuildItems(vs, depth, size), depth, size);
  }

  lemma ItemsRebuilt(vs: seq<Value>, depth: nat, size: Size)
    requires depth <= MAX_NESTING_DEPTH && ItemsBounded(vs, depth, size)
    ensures |BuildItems(vs, depth, size)| == |vs|
    ensures forall i :: 0 <= i < |vs| ==> BuildItems(vs, depth, size)[i] == Sanitize(vs[i], depth + 1, size)
  {
  }

  lemma ItemsConclude(vs: seq<Value>, built: seq<Value>, depth: nat, size: Size)
    requires depth <= MAX_NESTING_DEPTH && Fits(List(vs), size) && |built| == |vs|
    requires forall i :: 0 <= i < |vs| ==> (built[i] == vs[i] <==> !DeepSummary(vs[i], depth + 1))
    ensures BoundSerialized(List(built), size) == List(vs) <==> !DeepSummary(List(vs), depth)
  {
    hide DeepSummary;
    DeepBelow(List(vs), depth);
    BoundUnchanged(List(built), List(vs), size);
    if i :| 0 <= i < |vs| && DeepSummary(vs[i], depth + 1) {
      assert built[i] != vs[i];
    } else {
      assert built == vs;
    }
  }

  // ---- which inputs collapse at the last depth ----------------------------------------------------------

  /** Entry i is still there once the dictionary is built: it is within the bound on keys, and
      nothing later, the truncation marker included, takes its key. */
  predicate Survives(es: seq<Entry>, i: nat) {
    && i < |es| && i < MAX_OBJECT_KEYS
    && (forall j :: i < j < |es| && j < MAX_OBJECT_KEYS ==> Truncated(es[j].key) != Truncated(es[i].key))
    && (|es| > MAX_OBJECT_KEYS ==> Truncated(es[i].key) != TRUNCATION_MARKER)
  }

  /** Down surviving, insensitive entries and kept items, through containers that fit, there is
      one at the last permitted depth that does not. */
  predicate CollapsesDeep(v: Value, depth: nat, size: Size)
    requires depth <= MAX_NESTING_DEPTH + 1
    decreases MAX_NESTING_DEPTH + 1 - depth
  {
    if depth > MAX_NESTING_DEPTH then false else
    match v
    case Dict(es) =>
      var built := Dict(BuildEntries(es, depth, size));
      if depth == MAX_NESTING_DEPTH then size(built).Some? && !Fits(built, size)
      else Fits(built, size) && exists i ::
        0 <= i < |es| && Survives(es, i) && !IsSensitive(Truncated(es[i].key)) && CollapsesDeep(es[i].value, depth + 1, size)
    case List(vs) =>
      var built := List(BuildItems(vs, depth, size));
      if depth == MAX_NESTING_DEPTH then size(built).Some? && !Fits(built, size)
      else Fits(built, size) && exists i ::
        0 <= i < |vs| && i < MAX_LIST_ITEMS && CollapsesDeep(vs[i], depth + 1, size)
    case _ => false
  }

  predicate LastWithKey(es: seq<Entry>, i: nat) {
    i < |es| && forall j :: i < j < |es| ==> es[j].key != es[i].key
  }

  lemma {:induction false} PutMember(es: seq<Entry>, e: Entry, x: Entry)
    requires DistinctKeys(es)
    ensures x in Put(es, e) <==> x == e || (x in es && x.key != e.key)
  {
    if es != [] {
      PutMember(es[1..], e, x);
      if es[0].key == e.key {
        assert x in es[1..] ==> x.key != e.key;
      } else {
        assert Put(es, e)[1..] == Put(es[1..], e);
      }
    }
  }

  /** What is left of a dictionary built key by key: for each key the last entry. */
  lemma {:induction false} PutAllMember(es: seq<Entry>, x: Entry)
    ensures x in PutAll(es) <==> exists i: nat :: LastWithKey(es, i) && es[i] == x
  {
    if es == [] { return; }
    var n := |es| - 1;
    var init := es[..n];
    PutAllMember(init, x);
    PutAllFacts(init);
    PutMember(PutAll(init), es[n], x);
    assert forall j :: 0 <= j < n ==> init[j] == es[j];
    assert LastWithKey(es, n);
    if i: nat :| LastWithKey(init, i) && init[i] == x && x.key != es[n].key { assert LastWithKey(es, i); }
    if i: nat :| LastWithKey(es, i) && es[i] == x && i < n { assert LastWithKey(init, i); }
  }

  /** The built dictionary holds the surviving entries, sanitized, and perhaps the marker. */
  lemma BuiltMember(es: seq<Entry>, depth: nat, size: Size, x: Entry)
    requires depth <= MAX_NESTING_DEPTH
    ensures x in BuildEntries(es, depth, size) <==>
      || (|es| > MAX_OBJECT_KEYS && x == Entry(TRUNCATION_MARKER, CUT))
      || exists i: nat :: Survives(es, i) && x == SanitizeEntry(es[i], depth, size)
  {
    hide Truncated, IsSensitive, Sanitize, PutAll, Put;
    var kept := if |es| <= MAX_OBJECT_KEYS then es else es[..MAX_OBJECT_KEYS];
    var clean := SanitizeEntries(kept, depth, size);
    PutAllMember(clean, x);
    PutAllFacts(clean);
    assert forall i :: 0 <= i < |kept| ==> clean[i].key == Truncated(es[i].key);
    if |es| > MAX_OBJECT_KEYS { PutMember(PutAll(clean), Entry(TRUNCATION_MARKER, CUT), x); }
    if i: nat :| Survives(es, i) && x == SanitizeEntry(es[i], depth, size) {
      assert LastWithKey(clean, i) && clean[i] == x;
    }
    if i: nat :| LastWithKey(clean, i) && clean[i] == x && (|es| > MAX_OBJECT_KEYS ==> x.key != TRUNCATION_MARKER) {
      assert Survives(es, i);
    }
  }

  lemma BuiltTexts(es: seq<Entry>, size: Size)
    ensures forall x :: x in BuildEntries(es, MAX_NESTING_DEPTH, size) ==> x.value.Text?
  {
    forall x | x in BuildEntries(es, MAX_NESTING_DEPTH, size) ensures x.value.Text? {
      BuiltMember(es, MAX_NESTING_DEPTH, size, x);
    }
  }

  /** The sanitized value holds a summary object at the last depth exactly when the value
      collapses there. */
  lemma {:induction false} CollapseShows(v: Value, depth: nat, size: Size)
    requires depth <= MAX_NESTING_DEPTH + 1
    ensures DeepSummary(Sanitize(v, depth, size), depth) <==> CollapsesDeep(v, depth, size)
    decreases MAX_NESTING_DEPTH + 1 - depth, 0
  {
    if depth > MAX_NESTING_DEPTH { return; }
    if v.Dict? {
      if depth == MAX_NESTING_DEPTH { LastDictShows(v.entries, size); } else { DictShows(v.entries, depth, size); }
    } else if v.List? && depth < MAX_NESTING_DEPTH {
      ListShows(v.items, depth, size);
    }
  }

  lemma LastDictShows(es: seq<Entry>, size: Size)
    ensures DeepSummary(Sanitize(Dict(es), MAX_NESTING_DEPTH, size), MAX_NESTING_DEPTH) <==>
      CollapsesDeep(Dict(es), MAX_NESTING_DEPTH, size)
  {
    hide BuildEntries;
    BuiltTexts(es, size);
    var built := BuildEntries(es, MAX_NESTING_DEPTH, size);
    assert !IsSummary(Dict(built)) by { if |built| == 2 { assert built[1] in built; } }
  }

  lemma {:induction false} DictShows(es: seq<Entry>, depth: nat, size: Size)
    requires depth < MAX_NESTING_DEPTH
    ensures DeepSummary(Sanitize(Dict(es), depth, size), depth) <==> CollapsesDeep(Dict(es), depth, size)
    decreases MAX_NESTING_DEPTH - depth, 1
  {
    hide BuildEntries, DeepSummary, IsSensitive, Truncated;
    var built := BuildEntries(es, depth, size);
    DeepBelow(BoundSerialized(Dict(built), size), depth);
    TextNotDeep(REDACTED, depth + 1);
    TextNotDeep(CUT, depth + 1);
    forall i | 0 <= i < |es| && Survives(es, i)
      ensures DeepSummary(SanitizeEntry(es[i], depth, size).value, depth + 1) <==>
        !IsSensitive(Truncated(es[i].key)) && CollapsesDeep(es[i].value, depth + 1, size)
    {
      CollapseShows(es[i].value, depth + 1, size);
    }
    if i :| 0 <= i < |es| && Survives(es, i) && DeepSummary(SanitizeEntry(es[i], depth, size).value, depth + 1) {
      BuiltMember(es, depth, size, SanitizeEntry(es[i], depth, size));
    }
    if j :| 0 <= j < |built| && DeepSummary(built[j].value, depth + 1) {
      BuiltMember(es, depth, size, built[j]);
    }
  }

  lemma {:induction false} ListShows(vs: seq<Value>, depth: nat, size: Size)
    requires depth < MAX_NESTING_DEPTH
    ensures DeepSummary(Sanitize(List(vs), depth, size), depth) <==> CollapsesDeep(List(vs), depth, size)
    decreases MAX_NESTING_DEPTH - depth, 1
  {
    hide DeepSummary;
    var built := BuildItems(vs, depth, size);
    DeepBelow(BoundSerialized(List(built), size), depth);
    TextNotDeep(CUT, depth + 1);
    forall i | 0 <= i < |vs| && i < MAX_LIST_ITEMS
      ensures DeepSummary(built[i], depth + 1) <==> CollapsesDeep(vs[i], depth + 1, size)
    {
      CollapseShows(vs[i], depth + 1, size);
    }
  }

  // ---- twice and three times -------------------------------------------------------------------------

  /** Sanitizing twice is sanitizing once exactly when the value does not collapse at the last
      permitted depth. */
  lemma SanitizeTwice(v: Value, size: Size)
    requires ReplacementsFit(size)
    ensures var once := Sanitize(v, 0, size);
      Sanitize(once, 0, size) == once <==> !CollapsesDeep(v, 0, size)
  {
    SanitizeBounded(v, 0, size);
    SanitizeAgain(Sanitize(v, 0, size), 0, size);
    CollapseShows(v, 0, size);
  }

  /** A second pass leaves no such summary, so a third changes nothing. */
  lemma SanitizeThrice(v: Value, size: Size)
    requires ReplacementsFit(size)
    ensures var twice := Sanitize(Sanitize(v, 0, size), 0, size);
      Sanitize(twice, 0, size) == twice
  {
    var once := Sanitize(v, 0, size);
    SanitizeBounded(v, 0, size);
    SecondPassSettles(once, 0, size);
    SanitizeBounded(once, 0, size);
    SanitizeAgain(Sanitize(once, 0, size), 0, size);
  }

  lemma {:induction false} SecondPassSettles(w: Value, depth: nat, size: Size)
    requires depth <= MAX_NESTING_DEPTH + 1 && ReplacementsFit(size) && Bounded(w, depth, size)
    ensures !DeepSummary(Sanitize(w, depth, size), depth)
    decreases MAX_NESTING_DEPTH + 1 - depth, 0
  {
    hide ReplacementsFit, IsSensitive;
    if depth > MAX_NESTING_DEPTH { return; }
    if depth == MAX_NESTING_DEPTH {
      if w.Dict? && IsSummary(w) { CutsTheCount(w, size); } else { SanitizeAgain(w, depth, size); LastLevel(w); }
    } else if w.Dict? {
      if IsSummary(w) { SummaryEntriesBounded(w, depth, size); }
      EntriesSettle(w.entries, depth, size);
    } else if w.List? {
      ItemsSettle(w.items, depth, size);
    }
  }

  lemma LastLevel(w: Value)
    ensures DeepSummary(w, MAX_NESTING_DEPTH) <==> w.Dict? && IsSummary(w)
  {
  }

  lemma {:induction false} EntriesSettle(es: seq<Entry>, depth: nat, size: Size)
    requires depth < MAX_NESTING_DEPTH && ReplacementsFit(size) && EntriesBounded(es, depth, size)
    ensures !DeepSummary(Sanitize(Dict(es), depth, size), depth)
    decreases MAX_NESTING_DEPTH - depth, 2
  {
    hide ReplacementsFit, IsSensitive;
    RebuiltInPlace(es, depth, size);
    forall i | 0 <= i < |es| ensures !DeepSummary(SanitizeEntry(es[i], depth, size).value, depth + 1) {
      if !IsSensitive(es[i].key) { SecondPassSettles(es[i].value, depth + 1, size); }
    }
    var built := BuildEntries(es, depth, size);
    DeepBelow(Dict(built), depth);
    DeepBelow(BoundSerialized(Dict(built), size), depth);
  }

  lemma {:induction false} ItemsSettle(vs: seq<Value>, depth: nat, size: Size)
    requires depth < MAX_NESTING_DEPTH && ReplacementsFit(size) && ItemsBounded(vs, depth, size)
    ensures !DeepSummary(Sanitize(List(vs), depth, size), depth)
    decreases MAX_NESTING_DEPTH - depth, 2
  {
    hide ReplacementsFit;
    ItemsRebuilt(vs, depth, size);
    forall i | 0 <= i < |vs| ensures !DeepSummary(Sanitize(vs[i], depth + 1, size), depth + 1) {
      SecondPassSettles(vs[i], depth + 1, size);
    }
    var built := BuildItems(vs, depth, size);
    DeepBelow(List(built), depth);
    DeepBelow(BoundSerialized(List(built), size), depth);
  }

  lemma ShortKeyKept(key: string)
    requires |key| <= MAX_STRING_LENGTH
    ensures Truncated(key) == key
  {
  }

  // ---- the top level -------------------------------------------------------------------------------------

  /** A before, after or change-set column: null or an object. */
  function EnsureObject(v: Value, size: Size): (r: Value)
    ensures r.Null? || r.Dict?
  {
    if v.Null? then Null
    else
      var clean := Sanitize(v, 0, size);
      if clean.Dict? then clean else Dict([Entry("_value", clean)])
  }
}

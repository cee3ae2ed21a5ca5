/** The size of an audit payload as compact JSON in UTF-8, and what the sanitizer does under
    it.  floatBytes is the length of a float's text. */
module AuditJson {
  import opened ExecutionRows
  import opened AuditSanitizer
  import opened Text

  // ---- the length of the text --------------------------------------------------------------------

  function CharBytes(c: char): nat {
    if c == '"' || c == '\\' || c in "\n\r\t" || c == 8 as char || c == 12 as char then 2
    else if c < ' ' then 6
    else if c < 0x80 as char then 1
    else if c < 0x800 as char then 2
    else if c < 0x1_0000 as char then 3
    else 4
  }

  function TextBytes(s: string): nat {
    if s == "" then 2 else TextBytes(s[..|s| - 1]) + CharBytes(s[|s| - 1])
  }

  /** Integers too long to write raise. */
  function IntBytes(n: int): Option<nat> {
    var d := |Digits(if n < 0 then -n else n)|;
    if d > MAX_INT_DIGITS then None else Some(d + if n < 0 then 1 else 0)
  }

  function Both(a: Option<nat>, b: Option<nat>): Option<nat> {
    if a.Some? && b.Some? then Some(a.value + b.value) else None
  }

  /** Bytes and other objects never occur in a sanitized value. */
  function Bytes(v: Value, floatBytes: real -> nat): Option<nat>
    decreases v, if v.Dict? then |v.entries| + 1 else if v.List? then |v.items| + 1 else 0
  {
    match v
    case Null => Some(4)
    case Bool(b) => Some(if b then 4 else 5)
    case Int(n) => IntBytes(n)
    case Float(x) => Some(floatBytes(x))
    case Text(s) => Some(TextBytes(s))
    case Dict(es) => if es == [] then Some(2) else Both(Some(1), EntriesBytes(v, |es|, floatBytes))
    case List(vs) => if vs == [] then Some(2) else Both(Some(1), ItemsBytes(v, |vs|, floatBytes))
    case _ => None
  }

  /** The first n entries, each with its colon and a comma or brace. */
  function EntriesBytes(v: Value, n: nat, floatBytes: real -> nat): Option<nat>
    requires v.Dict? && n <= |v.entries|
    decreases v, n
  {
    if n == 0 then Some(0)
    else Both(EntriesBytes(v, n - 1, floatBytes), Both(Some(TextBytes(v.entries[n - 1].key) + 2), Bytes(v.entries[n - 1].value, floatBytes)))
  }

  function ItemsBytes(v: Value, n: nat, floatBytes: real -> nat): Option<nat>
    requires v.List? && n <= |v.items|
    decreases v, n
  {
    if n == 0 then Some(0) else Both(ItemsBytes(v, n - 1, floatBytes), Both(Some(1), Bytes(v.items[n - 1], floatBytes)))
  }

  function JsonSize(floatBytes: real -> nat): Size {
    (v: Value) => Bytes(v, floatBytes)
  }

  ghost predicate FloatsShort(floatBytes: real -> nat) {
    forall x :: floatBytes(x) <= 32
  }

  // ---- the text itself -----------------------------------------------------------------------------

  const HEX := "0123456789abcdef"

  /** A character inside a JSON string, as it is written where non-ASCII text is left alone. */
  function Written(c: char): string {
    if c == '"' then "\\\"" else if c == '\\' then "\\\\"
    else if c == '\n' then "\\n" else if c == '\r' then "\\r" else if c == '\t' then "\\t"
    else if c == '\U{8}' then "\\b" else if c == '\U{c}' then "\\f"
    else if c < ' ' then "\\u00" + [HEX[c as int / 16], HEX[c as int % 16]]
    else [c]
  }

  function Quoted(s: string): string {
    if s == "" then "\"" else Quoted(s[..|s| - 1]) + Written(s[|s| - 1])
  }

  /** The compact JSON text, if it can be written. */
  function Json(v: Value, floatText: real -> string): Option<string>
    decreases v, if v.Dict? then |v.entries| + 1 else if v.List? then |v.items| + 1 else 0
  {
    match v
    case Null => Some("null")
    case Bool(b) => Some(if b then "true" else "false")
    case Int(n) =>
      var digits := Digits(if n < 0 then -n else n);
      if |digits| > MAX_INT_DIGITS then None else Some(if n < 0 then "-" + digits else digits)
    case Float(x) => Some(floatText(x))
    case Text(s) => Some(Quoted(s) + "\"")
    case Dict(es) =>
      var inner := JsonEntries(v, |es|, floatText);
      if inner.None? then None else Some("{" + inner.value + "}")
    case List(vs) =>
      var inner := JsonItems(v, |vs|, floatText);
      if inner.None? then None else Some("[" + inner.value + "]")
    case _ => None
  }

  function JsonEntries(v: Value, n: nat, floatText: real -> string): Option<string>
    requires v.Dict? && n <= |v.entries|
    decreases v, n
  {
    if n == 0 then Some("")
    else
      AddEntry(JsonEntries(v, n - 1, floatText), if n == 1 then "" else ",", v.entries[n - 1].key,
               Json(v.entries[n - 1].value, floatText))
  }

  function AddEntry(before: Option<string>, comma: string, key: string, value: Option<string>): Option<string> {
    if before.None? || value.None? then None else Some(before.value + comma + Quoted(key) + "\":" + value.value)
  }

  function JsonItems(v: Value, n: nat, floatText: real -> string): Option<string>
    requires v.List? && n <= |v.items|
    decreases v, n
  {
    if n == 0 then Some("")
    else
      var before, value := JsonItems(v, n - 1, floatText), Json(v.items[n - 1], floatText);
      if before.None? || value.None? then None
      else Some(before.value + (if n == 1 then "" else ",") + value.value)
  }

  /** The length of a text in UTF-8. */
  function Utf8Length(s: string): nat {
    if s == "" then 0
    else
      var n := s[|s| - 1] as int;
      Utf8Length(s[..|s| - 1]) + if n < 0x80 then 1 else if n < 0x800 then 2 else if n < 0x1_0000 then 3 else 4
  }

  lemma {:induction false} LengthsAdd(s: string, t: string)
    ensures Utf8Length(s + t) == Utf8Length(s) + Utf8Length(t)
  {
    if t == "" {
      assert s + t == s;
    } else {
      assert (s + t)[..|s + t| - 1] == s + t[..|t| - 1];
      LengthsAdd(s, t[..|t| - 1]);
    }
  }

  predicate AsciiText(s: string) {
    forall k :: 0 <= k < |s| ==> s[k] < 0x80 as char
  }

  lemma {:induction false} AsciiLength(s: string)
    requires AsciiText(s)
    ensures Utf8Length(s) == |s|
  {
    if s != "" { AsciiLength(s[..|s| - 1]); }
  }

  lemma WrittenLength(c: char)
    ensures Utf8Length(Written(c)) == CharBytes(c)
  {
    if AsciiText(Written(c)) {
      AsciiLength(Written(c));
    } else {
      assert Written(c) == [c] && [c][..0] == "";
    }
  }

  lemma {:induction false} QuotedLength(s: string)
    ensures Utf8Length(Quoted(s)) + 1 == TextBytes(s)
  {
    if s == "" {
      AsciiLength("\"");
    } else {
      QuotedLength(s[..|s| - 1]);
      WrittenLength(s[|s| - 1]);
      LengthsAdd(Quoted(s[..|s| - 1]), Written(s[|s| - 1]));
    }
  }

  ghost predicate SizesOf(floatBytes: real -> nat, floatText: real -> string) {
    forall x :: floatBytes(x) == Utf8Length(floatText(x))
  }

  ghost predicate SameSize(text: Option<string>, bytes: Option<nat>) {
    text.Some? == bytes.Some? && (text.Some? ==> Utf8Length(text.value) == bytes.value)
  }

  /** The size the sanitizer is measured with is the length in UTF-8 of the JSON text. */
  lemma {:induction false} BytesOfJson(v: Value, floatBytes: real -> nat, floatText: real -> string)
    requires SizesOf(floatBytes, floatText)
    ensures SameSize(Json(v, floatText), Bytes(v, floatBytes))
    decreases v, if v.Dict? then |v.entries| + 1 else if v.List? then |v.items| + 1 else 0
  {
    hide Utf8Length, AsciiText;
    match v
    case Dict(es) =>
      BytesOfEntries(v, |es|, floatBytes, floatText);
      Bracketed("{", JsonEntries(v, |es|, floatText), "}");
    case List(vs) =>
      BytesOfItems(v, |vs|, floatBytes, floatText);
      Bracketed("[", JsonItems(v, |vs|, floatText), "]");
    case _ => BytesOfLeaf(v, floatBytes, floatText);
  }

  lemma BytesOfLeaf(v: Value, floatBytes: real -> nat, floatText: real -> string)
    requires SizesOf(floatBytes, floatText) && !v.Dict? && !v.List?
    ensures SameSize(Json(v, floatText), Bytes(v, floatBytes))
  {
    hide Utf8Length, Digits, Quoted, TextBytes;
    match v
    case Null => AsciiLength("null");
    case Bool(b) => AsciiLength(if b then "true" else "false");
    case Int(n) => IntLength(n);
    case Text(s) =>
      QuotedLength(s);
      AsciiLength("\"");
      LengthsAdd(Quoted(s), "\"");
    case _ =>
  }

  lemma IntLength(n: int)
    ensures var digits := Digits(if n < 0 then -n else n);
      Utf8Length(digits) == |digits| && Utf8Length("-" + digits) == |digits| + 1
  {
    var m := if n < 0 then -n else n;
    ParseDigits(m);
    AsciiLength(Digits(m));
    AsciiLength("-" + Digits(m));
  }

  lemma Bracketed(open: string, inner: Option<string>, close: string)
    requires open in ["{", "["] && close in ["}", "]"]
    ensures inner.Some? ==> Utf8Length(open + inner.value + close) == Utf8Length(inner.value) + 2
  {
    if inner.Some? {
      AsciiLength(open);
      AsciiLength(close);
      LengthsAdd(open, inner.value);
      LengthsAdd(open + inner.value, close);
    }
  }

  /** What one more entry adds: a comma unless it is the first, its key, a colon, its value. */
  lemma OneEntry(before: string, comma: string, key: string, value: string)
    requires comma in ["", ","]
    ensures Utf8Length(before + comma + Quoted(key) + "\":" + value) ==
      Utf8Length(before) + |comma| + TextBytes(key) + 1 + Utf8Length(value)
  {
    QuotedLength(key);
    AsciiLength("\":");
    AsciiLength(comma);
    hide Utf8Length, Quoted, TextBytes;
    LengthsAdd(before, comma);
    LengthsAdd(before + comma, Quoted(key));
    LengthsAdd(before + comma + Quoted(key), "\":");
    LengthsAdd(before + comma + Quoted(key) + "\":", value);
  }

  lemma NothingWritten()
    ensures Utf8Length("") == 0
  {
  }

  lemma EntrySizes(before: Option<string>, comma: string, key: string, value: Option<string>, b: Option<nat>, n: Option<nat>)
    requires comma in ["", ","] && SameSize(value, n)
    requires before.Some? == b.Some? && (before.Some? ==> Utf8Length(before.value) + |comma| == b.value)
    ensures var text, bytes := AddEntry(before, comma, key, value), Both(b, Both(Some(TextBytes(key) + 2), n));
      text.Some? == bytes.Some? && (text.Some? ==> Utf8Length(text.value) + 1 == bytes.value)
  {
    hide Utf8Length, Quoted, TextBytes;
    if before.Some? && value.Some? { OneEntry(before.value, comma, key, value.value); }
  }

  /** The size of the first n entries counts a comma or brace with each. */
  lemma {:induction false} BytesOfEntries(v: Value, n: nat, floatBytes: real -> nat, floatText: real -> string)
    requires v.Dict? && n <= |v.entries| && SizesOf(floatBytes, floatText)
    ensures var text, bytes := JsonEntries(v, n, floatText), EntriesBytes(v, n, floatBytes);
      && text.Some? == bytes.Some?
      && (text.Some? ==> Utf8Length(text.value) + (if n == 0 then 0 else 1) == bytes.value)
    decreases v, n
  {
    hide Utf8Length, AsciiText, Quoted, TextBytes, Json, Bytes, SizesOf, SameSize, AddEntry, Both;
    if n == 0 {
      NothingWritten();
    } else {
      var e := v.entries[n - 1];
      BytesOfEntries(v, n - 1, floatBytes, floatText);
      BytesOfJson(e.value, floatBytes, floatText);
      EntrySizes(JsonEntries(v, n - 1, floatText), if n == 1 then "" else ",", e.key, Json(e.value, floatText),
                 EntriesBytes(v, n - 1, floatBytes), Bytes(e.value, floatBytes));
    }
  }

  lemma {:induction false} BytesOfItems(v: Value, n: nat, floatBytes: real -> nat, floatText: real -> string)
    requires v.List? && n <= |v.items| && SizesOf(floatBytes, floatText)
    ensures var text, bytes := JsonItems(v, n, floatText), ItemsBytes(v, n, floatBytes);
      && text.Some? == bytes.Some?
      && (text.Some? ==> Utf8Length(text.value) + (if n == 0 then 0 else 1) == bytes.value)
    decreases v, n
  {
    if n > 0 {
      BytesOfItems(v, n - 1, floatBytes, floatText);
      BytesOfJson(v.items[n - 1], floatBytes, floatText);
      AsciiLength(",");
      if JsonItems(v, n, floatText).Some? {
        var before, value := JsonItems(v, n - 1, floatText).value, Json(v.items[n - 1], floatText).value;
        var comma := if n == 1 then "" else ",";
        LengthsAdd(before, comma);
        LengthsAdd(before + comma, value);
      }
    }
  }

  // ---- what is built is never so large that its size would not fit a summary ------------------------

  lemma {:induction false} TextBytesBounds(s: string)
    ensures |s| + 2 <= TextBytes(s) <= 6 * |s| + 2
  {
    if s != "" { TextBytesBounds(s[..|s| - 1]); }
  }

  function Pow10(k: nat): nat {
    if k == 0 then 1 else 10 * Pow10(k - 1)
  }

  lemma {:induction false} DigitsBound(n: nat, k: nat)
    requires k >= 1 && n < Pow10(k)
    ensures |Digits(n)| <= k
  {
    if n >= 10 {
      assert k >= 2;
      assert n / 10 < Pow10(k - 1);
      DigitsBound(n / 10, k - 1);
    }
  }

  /** A part of a built container. */
  lemma PartSmall(c: Value, depth: nat, floatBytes: real -> nat)
    requires depth <= MAX_NESTING_DEPTH && FloatsShort(floatBytes)
    requires c == REDACTED || Bounded(c, depth + 1, JsonSize(floatBytes))
    ensures Bytes(c, floatBytes).Some? ==> Bytes(c, floatBytes).value <= MAX_SERIALIZED_BYTES
  {
    if c.Text? { TextBytesBounds(c.s); }
  }

  lemma {:induction false} EntriesSmall(v: Value, depth: nat, n: nat, floatBytes: real -> nat)
    requires v.Dict? && n <= |v.entries| && depth <= MAX_NESTING_DEPTH && FloatsShort(floatBytes)
    requires EntriesBounded(v.entries, depth, JsonSize(floatBytes))
    ensures EntriesBytes(v, n, floatBytes).Some? ==> EntriesBytes(v, n, floatBytes).value <= 15000 * n
  {
    hide Bytes, IsSensitive, Bounded;
    if n > 0 {
      EntriesSmall(v, depth, n - 1, floatBytes);
      var e := v.entries[n - 1];
      assert EntryBounded(e, depth, JsonSize(floatBytes));
      TextBytesBounds(e.key);
      PartSmall(e.value, depth, floatBytes);
    }
  }

  lemma {:induction false} ItemsSmall(v: Value, depth: nat, n: nat, floatBytes: real -> nat)
    requires v.List? && n <= |v.items| && depth <= MAX_NESTING_DEPTH && FloatsShort(floatBytes)
    requires ItemsBounded(v.items, depth, JsonSize(floatBytes))
    ensures ItemsBytes(v, n, floatBytes).Some? ==> ItemsBytes(v, n, floatBytes).value <= 15000 * n
  {
    hide Bytes, Bounded;
    if n > 0 {
      ItemsSmall(v, depth, n - 1, floatBytes);
      PartSmall(v.items[n - 1], depth, floatBytes);
    }
  }

  lemma BuiltSmall(v: Value, depth: nat, floatBytes: real -> nat)
    requires FloatsShort(floatBytes) && IsBuilt(v, depth, JsonSize(floatBytes))
    ensures Bytes(v, floatBytes).Some? ==> Bytes(v, floatBytes).value < 1000000
  {
    if v.Dict? { EntriesSmall(v, depth, |v.entries|, floatBytes); } else { ItemsSmall(v, depth, |v.items|, floatBytes); }
  }

  lemma EntriesStep(v: Value, n: nat, floatBytes: real -> nat)
    requires v.Dict? && 1 <= n <= |v.entries|
    ensures EntriesBytes(v, 0, floatBytes) == Some(0) && Bytes(v, floatBytes) == Both(Some(1), EntriesBytes(v, |v.entries|, floatBytes))
    ensures EntriesBytes(v, n, floatBytes) == Both(EntriesBytes(v, n - 1, floatBytes),
      Both(Some(TextBytes(v.entries[n - 1].key) + 2), Bytes(v.entries[n - 1].value, floatBytes)))
  {
  }

  lemma TwoEntries(v: Value, floatBytes: real -> nat)
    requires v.Dict? && |v.entries| == 2
    ensures Bytes(v, floatBytes) == Both(Some(TextBytes(v.entries[0].key) + TextBytes(v.entries[1].key) + 5),
      Both(Bytes(v.entries[0].value, floatBytes), Bytes(v.entries[1].value, floatBytes)))
  {
    hide TextBytes, Bytes, EntriesBytes;
    EntriesStep(v, 1, floatBytes);
    EntriesStep(v, 2, floatBytes);
  }

  lemma MarkerBytes()
    ensures TextBytes("_truncated") <= 100 && TextBytes("_original_bytes") <= 100
    ensures TextBytes("_error") <= 100 && TextBytes(TRUNCATION_MARKER) <= 100
  {
    TextBytesBounds("_truncated");
    TextBytesBounds("_original_bytes");
    TextBytesBounds("_error");
    TextBytesBounds(TRUNCATION_MARKER);
  }

  lemma SummarySmall(n: nat, floatBytes: real -> nat)
    requires n < 1000000
    ensures Bytes(Summary(n), floatBytes).Some? && Bytes(Summary(n), floatBytes).value <= 400
  {
    hide TextBytes;
    MarkerBytes();
    assert Pow10(6) == 1000000;
    DigitsBound(n, 6);
    TwoEntries(Summary(n), floatBytes);
  }

  /** Under the real size the replacement objects fit, whatever has been built. */
  lemma JsonReplacementsFit(floatBytes: real -> nat)
    requires FloatsShort(floatBytes)
    ensures ReplacementsFit(JsonSize(floatBytes))
  {
    hide TextBytes, IsBuilt;
    var size := JsonSize(floatBytes);
    MarkerBytes();
    EntriesStep(UNSERIALIZABLE, 1, floatBytes);
    TwoEntries(CUT_SUMMARY, floatBytes);
    forall v, depth: nat | IsBuilt(v, depth, size) && size(v).Some? ensures Fits(Summary(size(v).value), size) {
      BuiltSmall(v, depth, floatBytes);
      SummarySmall(size(v).value, floatBytes);
    }
  }

  // ---- an input for which sanitizing again is not the same --------------------------------------------

  /** A thousand times one digit. */
  function LongKey(i: nat): (key: string)
    requires i < 10
    ensures |key| == 1000 && key[0] == ('0' as int + i) as char
  {
    seq(1000, _ => ('0' as int + i) as char)
  }

  const LONG_KEYS := Dict(seq(9, i requires 0 <= i < 9 => Entry(LongKey(i), Null)))

  function Nested(v: Value, n: nat): Value {
    if n == 0 then v else List([Nested(v, n - 1)])
  }

  lemma {:induction false} KeysAddUp(v: Value, n: nat, floatBytes: real -> nat)
    requires v.Dict? && n <= |v.entries|
    requires forall i :: 0 <= i < n ==> |v.entries[i].key| == 1000 && v.entries[i].value.Text?
    ensures EntriesBytes(v, n, floatBytes).Some? && EntriesBytes(v, n, floatBytes).value >= 1000 * n
  {
    if n > 0 {
      KeysAddUp(v, n - 1, floatBytes);
      TextBytesBounds(v.entries[n - 1].key);
    }
  }

  /** Nine keys of a thousand characters do not fit. */
  lemma LongKeysCollapse(floatBytes: real -> nat) returns (n: nat)
    requires FloatsShort(floatBytes)
    ensures CollapsesDeep(LONG_KEYS, MAX_NESTING_DEPTH, JsonSize(floatBytes))
    ensures n < 1000000 && Sanitize(LONG_KEYS, MAX_NESTING_DEPTH, JsonSize(floatBytes)) == Summary(n)
  {
    hide IsSensitive, Truncated;
    var depth, size, es := MAX_NESTING_DEPTH, JsonSize(floatBytes), LONG_KEYS.entries;
    JsonReplacementsFit(floatBytes);
    BuiltBounded(es, depth, size);
    var clean := SanitizeEntries(es, depth, size);
    forall i | 0 <= i < 9 ensures clean[i].key == es[i].key && clean[i].value.Text? { ShortKeyKept(es[i].key); }
    forall i, j | 0 <= i < j < 9 ensures clean[i].key != clean[j].key { assert es[i].key[0] != es[j].key[0]; }
    PutAllSame(clean);
    KeysAddUp(Dict(clean), 9, floatBytes);
    BuiltSmall(Dict(clean), depth, floatBytes);
    n := Bytes(Dict(clean), floatBytes).value;
  }

  lemma OneItem(x: Value, floatBytes: real -> nat)
    ensures Bytes(List([x]), floatBytes) == Both(Some(2), Bytes(x, floatBytes))
  {
    var v := List([x]);
    assert ItemsBytes(v, 0, floatBytes) == Some(0);
    assert ItemsBytes(v, 1, floatBytes) == Both(Some(0), Both(Some(1), Bytes(x, floatBytes)));
  }

  /** Lists around it fit and hand the collapse up. */
  lemma {:induction false} NestedCollapses(n: nat, floatBytes: real -> nat) returns (bytes: nat)
    requires n <= MAX_NESTING_DEPTH && FloatsShort(floatBytes)
    ensures CollapsesDeep(Nested(LONG_KEYS, n), MAX_NESTING_DEPTH - n, JsonSize(floatBytes))
    ensures Bytes(Sanitize(Nested(LONG_KEYS, n), MAX_NESTING_DEPTH - n, JsonSize(floatBytes)), floatBytes) == Some(bytes)
    ensures bytes <= 400 + 2 * n
  {
    hide Bytes, Sanitize, CollapsesDeep;
    var size, depth := JsonSize(floatBytes), MAX_NESTING_DEPTH - n;
    if n == 0 {
      var k := LongKeysCollapse(floatBytes);
      SummarySmall(k, floatBytes);
      bytes := Bytes(Summary(k), floatBytes).value;
    } else {
      var inner := NestedCollapses(n - 1, floatBytes);
      ListCollapses(Nested(LONG_KEYS, n - 1), depth, inner, floatBytes);
      bytes := inner + 2;
    }
  }

  lemma ListCollapses(x: Value, depth: nat, inner: nat, floatBytes: real -> nat)
    requires depth < MAX_NESTING_DEPTH && inner <= 8000
    requires CollapsesDeep(x, depth + 1, JsonSize(floatBytes))
    requires Bytes(Sanitize(x, depth + 1, JsonSize(floatBytes)), floatBytes) == Some(inner)
    ensures CollapsesDeep(List([x]), depth, JsonSize(floatBytes))
    ensures Bytes(Sanitize(List([x]), depth, JsonSize(floatBytes)), floatBytes) == Some(inner + 2)
  {
    hide Bytes;
    var size := JsonSize(floatBytes);
    var y := Sanitize(x, depth + 1, size);
    assert BuildItems([x], depth, size) == [y];
    OneItem(y, floatBytes);
    assert Fits(List([y]), size);
    assert CollapsesDeep([x][0], depth + 1, size);
  }

  /** The nine long keys eight lists down: a second pass changes what the first has made. */
  lemma IdempotenceFails(floatBytes: real -> nat)
    requires FloatsShort(floatBytes)
    ensures var size := JsonSize(floatBytes);
      var once := Sanitize(Nested(LONG_KEYS, MAX_NESTING_DEPTH), 0, size);
      Sanitize(once, 0, size) != once
  {
    JsonReplacementsFit(floatBytes);
    var _ := NestedCollapses(MAX_NESTING_DEPTH, floatBytes);
    SanitizeTwice(Nested(LONG_KEYS, MAX_NESTING_DEPTH), JsonSize(floatBytes));
  }
}

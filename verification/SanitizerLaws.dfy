/** What is found in a sanitized audit payload, value by value, in terms of the payload that
    came in. */
module SanitizerLaws {
  import opened ExecutionRows
  import opened Text
  import opened AuditSanitizer

  // ---- which keys are sensitive ----------------------------------------------------------

  lemma SensitiveKeyIsWord(word: string)
    requires word in SensitiveKeys()
    ensures IsWord(word)
  {
    if |word| <= 7 {
    } else if |word| <= 11 {
    } else {
    }
  }

  /** A key is sensitive exactly when it spells one of the listed names. */
  lemma SensitiveMeans(key: string)
    ensures IsSensitive(key) <==> exists word :: word in SensitiveKeys() && Spells(key, word)
  {
    hide SensitiveKeys;
    if IsSensitive(key) {
      SensitiveKeyIsWord(Normalize(key));
      SpellsMeans(key, Normalize(key));
    }
    if word :| word in SensitiveKeys() && Spells(key, word) {
      SensitiveKeyIsWord(word);
      SpellsMeans(key, word);
    }
  }

  lemma {:induction false} SpellsItself(word: string)
    requires IsWord(word)
    ensures Spells(word, word)
  {
    if word != "" { SpellsItself(word[1..]); }
  }

  /** Words may be told apart by a separator. */
  lemma {:induction false} SpellsApart(a: string, u: string, sep: char, b: string, v: string)
    requires Spells(a, u) && IsSeparator(sep) && Spells(b, v)
    ensures Spells(a + [sep] + b, u + v)
  {
    if a == "" {
      assert a + [sep] + b == [sep] + b && ([sep] + b)[1..] == b && u + v == v;
    } else {
      assert (a + [sep] + b)[1..] == a[1..] + [sep] + b;
      if IsSeparator(a[0]) {
        SpellsApart(a[1..], u, sep, b, v);
      } else {
        assert (u + v)[1..] == u[1..] + v;
        SpellsApart(a[1..], u[1..], sep, b, v);
      }
    }
  }

  /** A listed name in two parts around a separator. */
  lemma PartedKeyIsSensitive(a: string, sep: char, b: string)
    requires IsWord(a) && IsWord(b) && IsSeparator(sep) && a + b in SensitiveKeys()
    ensures IsSensitive(a + [sep] + b)
  {
    hide SensitiveKeys;
    SpellsItself(a);
    SpellsItself(b);
    SpellsApart(a, a, sep, b, b);
    SensitiveMeans(a + [sep] + b);
  }

  lemma ApiKeyIsSensitive()
    ensures IsSensitive("api-key")
  {
    hide IsSensitive;
    assert "api" + "key" == "apikey" && "api" + ['-'] + "key" == "api-key";
    PartedKeyIsSensitive("api", '-', "key");
  }

  // ---- text and other leaves ---------------------------------------------------------------

  /** Text of at most a thousand characters stays; longer text keeps its first 989 and ends in
      the marker. */
  predicate Shortened(s: string, r: string) {
    if |s| <= 1000 then r == s else |r| == 1000 && r[..989] == s[..989] && r[989..] == "[TRUNCATED]"
  }

  lemma TruncatedMeans(s: string)
    ensures Shortened(s, Truncated(s))
  {
  }

  lemma LeavesSanitized(v: Value, depth: nat, size: Size)
    requires depth <= MAX_NESTING_DEPTH + 1
    ensures var w := Sanitize(v, depth, size);
      if depth > 8 then w == Text("[TRUNCATED]")
      else
        && (v.Null? || v.Bool? || v.Int? || v.Float? ==> w == v)
        && (v.Text? ==> w.Text? && Shortened(v.s, w.s))
        && (v.Bytes? ==> w == Text("[REDACTED]"))
        && (v.Other? && v.text.Some? ==> w.Text? && Shortened(v.text.value, w.s))
        && (v.Other? && v.text.None? ==> w == Text("[TRUNCATED]"))
  {
    if v.Text? { TruncatedMeans(v.s); }
    if v.Other? && v.text.Some? { TruncatedMeans(v.text.value); }
  }

  // ---- containers ----------------------------------------------------------------------------

  /** A container stays if its JSON text has at most 8192 bytes; if it is longer its place is
      taken by the byte count, and if it has none by an error object. */
  ghost predicate SizeBounded(built: Value, w: Value, size: Size) {
    if size(built).None? then w == Dict([Entry("_error", Text("[TRUNCATED]"))])
    else if size(built).value <= 8192 then w == built
    else w == Dict([Entry("_truncated", Text("[TRUNCATED]")), Entry("_original_bytes", Int(size(built).value))])
  }

  /** The list as rebuilt: its first 64 items, sanitized, and the marker if there were more. */
  ghost predicate ItemsKept(vs: seq<Value>, items: seq<Value>, depth: nat, size: Size)
    requires depth <= MAX_NESTING_DEPTH
  {
    && |items| == (if |vs| <= 64 then |vs| else 65)
    && (forall i :: 0 <= i < |vs| && i < 64 ==> items[i] == Sanitize(vs[i], depth + 1, size))
    && (|vs| > 64 ==> items[64] == Text("[TRUNCATED]"))
  }

  lemma ListSanitized(vs: seq<Value>, depth: nat, size: Size)
    requires depth <= MAX_NESTING_DEPTH
    ensures exists items :: ItemsKept(vs, items, depth, size) && SizeBounded(List(items), Sanitize(List(vs), depth, size), size)
  {
    hide Sanitize;
    var items := BuildItems(vs, depth, size);
    assert ItemsKept(vs, items, depth, size);
    ListBounded(vs, depth, size);
  }

  lemma ListBounded(vs: seq<Value>, depth: nat, size: Size)
    requires depth <= MAX_NESTING_DEPTH
    ensures SizeBounded(List(BuildItems(vs, depth, size)), Sanitize(List(vs), depth, size), size)
  {
    hide BuildItems;
  }

  /** What stands under the key of one entry: the redaction marker if the key spells a listed
      name, and otherwise the sanitized value. */
  ghost predicate EntrySanitized(e: Entry, x: Entry, depth: nat, size: Size)
    requires depth <= MAX_NESTING_DEPTH
  {
    && Shortened(e.key, x.key)
    && x.value == if (exists word :: word in SensitiveKeys() && Spells(x.key, word)) then Text("[REDACTED]")
                  else Sanitize(e.value, depth + 1, size)
  }

  lemma ShortenedOnce(s: string, r: string)
    requires Shortened(s, r)
    ensures r == Truncated(s)
  {
    if |s| > 1000 { assert r == r[..989] + r[989..]; }
  }

  lemma EntrySanitizedMeans(e: Entry, x: Entry, depth: nat, size: Size)
    requires depth <= MAX_NESTING_DEPTH
    ensures EntrySanitized(e, x, depth, size) <==> x == SanitizeEntry(e, depth, size)
  {
    TruncatedMeans(e.key);
    SensitiveMeans(x.key);
    hide SensitiveKeys, Spells, Truncated, Sanitize, IsSensitive;
    if Shortened(e.key, x.key) { ShortenedOnce(e.key, x.key); }
  }

  /** No later entry, nor the marker for too many keys, takes the place of entry i. */
  ghost predicate Stays(es: seq<Entry>, i: nat) {
    && i < |es| && i < 64
    && (forall j :: i < j < |es| && j < 64 ==> Truncated(es[j].key) != Truncated(es[i].key))
    && (|es| > 64 ==> Truncated(es[i].key) != "[TRUNCATED]")
  }

  /** The dictionary as rebuilt: it has exactly the entries that stay, sanitized, each key once,
      and the marker if there were more than 64. */
  ghost predicate EntriesKept(es: seq<Entry>, built: seq<Entry>, depth: nat, size: Size)
    requires depth <= MAX_NESTING_DEPTH
  {
    && DistinctKeys(built)
    && (forall i: nat :: Stays(es, i) ==> exists x :: x in built && EntrySanitized(es[i], x, depth, size))
    && (forall x :: x in built ==>
          || (|es| > 64 && x == Entry("[TRUNCATED]", Text("[TRUNCATED]")))
          || exists i: nat :: Stays(es, i) && EntrySanitized(es[i], x, depth, size))
    && (|es| > 64 ==> Entry("[TRUNCATED]", Text("[TRUNCATED]")) in built)
  }

  lemma BuiltKept(es: seq<Entry>, depth: nat, size: Size)
    requires depth <= MAX_NESTING_DEPTH
    ensures EntriesKept(es, BuildEntries(es, depth, size), depth, size)
  {
    hide BuildEntries, SanitizeEntry, EntrySanitized, Truncated;
    var built := BuildEntries(es, depth, size);
    BuiltDistinct(es, depth, size);
    forall i: nat, x | Stays(es, i) ensures EntrySanitized(es[i], x, depth, size) <==> x == SanitizeEntry(es[i], depth, size) {
      EntrySanitizedMeans(es[i], x, depth, size);
    }
    forall i: nat | Stays(es, i) ensures exists x :: x in built && EntrySanitized(es[i], x, depth, size) {
      var x := SanitizeEntry(es[i], depth, size);
      assert Survives(es, i);
      BuiltMember(es, depth, size, x);
      assert x in built && EntrySanitized(es[i], x, depth, size);
    }
    forall x | x in built
      ensures (|es| > 64 && x == Entry("[TRUNCATED]", Text("[TRUNCATED]")))
        || exists i: nat :: Stays(es, i) && EntrySanitized(es[i], x, depth, size)
    {
      BuiltMember(es, depth, size, x);
      if i: nat :| Survives(es, i) && x == SanitizeEntry(es[i], depth, size) { assert Stays(es, i); }
    }
    BuiltMember(es, depth, size, Entry(TRUNCATION_MARKER, CUT));
  }

  lemma BuiltDistinct(es: seq<Entry>, depth: nat, size: Size)
    requires depth <= MAX_NESTING_DEPTH
    ensures DistinctKeys(BuildEntries(es, depth, size))
  {
    hide SanitizeEntries, Put, PutAll, DistinctKeys;
    var kept := if |es| <= MAX_OBJECT_KEYS then es else es[..MAX_OBJECT_KEYS];
    PutAllFacts(SanitizeEntries(kept, depth, size));
    PutFacts(PutAll(SanitizeEntries(kept, depth, size)), Entry(TRUNCATION_MARKER, CUT));
  }

  lemma DictSanitized(es: seq<Entry>, depth: nat, size: Size)
    requires depth <= MAX_NESTING_DEPTH
    ensures exists built :: EntriesKept(es, built, depth, size) && SizeBounded(Dict(built), Sanitize(Dict(es), depth, size), size)
  {
    hide EntriesKept;
    BuiltKept(es, depth, size);
    DictBounded(es, depth, size);
  }

  lemma DictBounded(es: seq<Entry>, depth: nat, size: Size)
    requires depth <= MAX_NESTING_DEPTH
    ensures SizeBounded(Dict(BuildEntries(es, depth, size)), Sanitize(Dict(es), depth, size), size)
  {
    hide BuildEntries;
  }

  /** So a secret never comes through: under a key that spells a listed name, in whatever
      capitals and however parted, stands the marker. */
  lemma SecretsRedacted(es: seq<Entry>, depth: nat, size: Size, word: string)
    requires depth <= MAX_NESTING_DEPTH && Fits(Dict(BuildEntries(es, depth, size)), size) && word in SensitiveKeys()
    ensures var w := Sanitize(Dict(es), depth, size);
      && w.Dict?
      && (forall x :: x in w.entries && Spells(x.key, word) ==> x.value == Text("[REDACTED]"))
      && (forall i: nat :: Stays(es, i) && Spells(Truncated(es[i].key), word) ==>
            Entry(Truncated(es[i].key), Text("[REDACTED]")) in w.entries)
  {
    hide BuildEntries, Spells, SensitiveKeys, Truncated, EntriesKept;
    var built := BuildEntries(es, depth, size);
    BuiltKept(es, depth, size);
    KeptRedacted(es, built, depth, size, word);
  }

  lemma KeptRedacted(es: seq<Entry>, built: seq<Entry>, depth: nat, size: Size, word: string)
    requires depth <= MAX_NESTING_DEPTH && EntriesKept(es, built, depth, size) && word in SensitiveKeys()
    ensures forall x :: x in built && Spells(x.key, word) ==> x.value == Text("[REDACTED]")
    ensures forall i: nat :: Stays(es, i) && Spells(Truncated(es[i].key), word) ==>
      Entry(Truncated(es[i].key), Text("[REDACTED]")) in built
  {
    hide SensitiveKeys, Truncated, Sanitize, IsSensitive, Spells, EntrySanitized, DistinctKeys;
    MarkersNotSensitive();
    SensitiveMeans("[TRUNCATED]");
    forall x | x in built && Spells(x.key, word) ensures x.value == Text("[REDACTED]") {
      var i: nat :| Stays(es, i) && EntrySanitized(es[i], x, depth, size);
      SpelledRedacted(es[i], x, depth, size, word);
    }
    forall i: nat | Stays(es, i) && Spells(Truncated(es[i].key), word)
      ensures Entry(Truncated(es[i].key), Text("[REDACTED]")) in built
    {
      var x :| x in built && EntrySanitized(es[i], x, depth, size);
      SpelledRedacted(es[i], x, depth, size, word);
    }
  }

  lemma SpelledRedacted(e: Entry, x: Entry, depth: nat, size: Size, word: string)
    requires depth <= MAX_NESTING_DEPTH && EntrySanitized(e, x, depth, size)
    ensures x.key == Truncated(e.key)
    ensures word in SensitiveKeys() && Spells(x.key, word) ==> x.value == Text("[REDACTED]")
  {
    hide SensitiveKeys, Truncated, Sanitize, Spells;
    ShortenedOnce(e.key, x.key);
  }

  // ---- the order of keys ---------------------------------------------------------------------

  function Keys(es: seq<Entry>): (keys: seq<string>)
    ensures |keys| == |es| && forall i :: 0 <= i < |es| ==> keys[i] == es[i].key
  {
    if es == [] then [] else [es[0].key] + Keys(es[1..])
  }

  /** Each key once, where it first stands. */
  function FirstOnly(keys: seq<string>): seq<string> {
    if keys == [] then []
    else
      var rest := FirstOnly(keys[..|keys| - 1]);
      if keys[|keys| - 1] in rest then rest else rest + [keys[|keys| - 1]]
  }

  lemma {:induction false} PutKeepsOrder(es: seq<Entry>, e: Entry)
    ensures Keys(Put(es, e)) == if e.key in Keys(es) then Keys(es) else Keys(es) + [e.key]
  {
    if es != [] {
      if es[0].key == e.key {
        assert ([e] + es[1..])[1..] == es[1..];
      } else {
        PutKeepsOrder(es[1..], e);
        assert ([es[0]] + Put(es[1..], e))[1..] == Put(es[1..], e);
        assert e.key in Keys(es) <==> e.key in Keys(es[1..]);
      }
    }
  }

  lemma {:induction false} PutAllKeepsOrder(es: seq<Entry>)
    ensures Keys(PutAll(es)) == FirstOnly(Keys(es))
  {
    if es == [] { return; }
    var n := |es| - 1;
    PutAllKeepsOrder(es[..n]);
    PutKeepsOrder(PutAll(es[..n]), es[n]);
    assert Keys(es)[..n] == Keys(es[..n]);
  }

  /** Keys stand in the order in which they first came, cut to length; the marker comes last
      unless it was a key before. */
  lemma KeysInOrder(es: seq<Entry>, depth: nat, size: Size)
    requires depth <= MAX_NESTING_DEPTH
    ensures var cut := Map((e: Entry) => Truncated(e.key), es);
      Keys(BuildEntries(es, depth, size)) ==
        if |es| <= 64 then FirstOnly(cut) else FirstOnly(cut[..64] + ["[TRUNCATED]"])
  {
    hide Truncated, IsSensitive, Sanitize, Put, PutAll;
    var kept := if |es| <= MAX_OBJECT_KEYS then es else es[..MAX_OBJECT_KEYS];
    var clean := SanitizeEntries(kept, depth, size);
    var cut := Map((e: Entry) => Truncated(e.key), es);
    PutAllKeepsOrder(clean);
    if |es| <= MAX_OBJECT_KEYS {
      assert Keys(clean) == cut;
    } else {
      assert Keys(clean) == cut[..64];
      var more := cut[..64] + ["[TRUNCATED]"];
      assert more[..64] == cut[..64];
      PutKeepsOrder(PutAll(clean), Entry(TRUNCATION_MARKER, CUT));
    }
  }

  // ---- the top level -------------------------------------------------------------------------

  /** A column holds null for null, the sanitized object for what stays an object, and anything
      else under one key. */
  lemma ColumnHolds(v: Value, size: Size)
    ensures var w := Sanitize(v, 0, size);
      EnsureObject(v, size) == if v.Null? then Null else if w.Dict? then w else Dict([Entry("_value", w)])
  {
  }
}

/** The JSON Pointer subset of plan bindings (sections 3 and 4 of RFC 6901): one file escapes
    names into a pointer, another splits, decodes and evaluates it. */
module JsonPointer {
  import opened ExecutionRows
  import opened Text

  datatype Json =
    | Null
    | Bool(b: bool)
    | Int(n: int)
    | Float(x: real)
    | Str(s: string)
    | Arr(items: seq<Json>)
    | Obj(fields: map<string, Json>)

  // ---- string replacement ---------------------------------------------------------------------

  /** Replaces every character c. */
  function ReplaceChar(s: string, c: char, with: string): string {
    if s == "" then "" else (if s[0] == c then with else [s[0]]) + ReplaceChar(s[1..], c, with)
  }

  /** Replaces every occurrence of the two characters, left to right, none overlapping. */
  function ReplacePair(s: string, c: char, d: char, with: string): string
    decreases |s|
  {
    if s == "" then ""
    else if |s| >= 2 && s[0] == c && s[1] == d then with + ReplacePair(s[2..], c, d, with)
    else [s[0]] + ReplacePair(s[1..], c, d, with)
  }

  function EscapeName(name: string): string {
    ReplaceChar(ReplaceChar(name, '~', "~0"), '/', "~1")
  }

  function DecodeToken(token: string): string {
    ReplacePair(ReplacePair(token, '~', '1', "/"), '~', '0', "~")
  }

  // ---- what the two passes amount to ------------------------------------------------------------

  function EscapeOne(c: char): string {
    if c == '~' then "~0" else if c == '/' then "~1" else [c]
  }

  /** Section 3 of RFC 6901, one character at a time. */
  function Escaped(name: string): string {
    if name == "" then "" else EscapeOne(name[0]) + Escaped(name[1..])
  }

  /** A reference token: no slash, and a tilde only before 0 or 1. */
  predicate IsToken(t: string)
    decreases |t|
  {
    t == "" ||
    if t[0] == '~' then |t| >= 2 && (t[1] == '0' || t[1] == '1') && IsToken(t[2..])
    else t[0] != '/' && IsToken(t[1..])
  }

  /** Section 4 of RFC 6901 in one pass over a reference token. */
  function Unescaped(t: string): string
    requires IsToken(t)
    decreases |t|
  {
    if t == "" then ""
    else if t[0] == '~' then [if t[1] == '0' then '~' else '/'] + Unescaped(t[2..])
    else [t[0]] + Unescaped(t[1..])
  }

  lemma {:induction false} ReplaceCharAppend(s: string, t: string, c: char, with: string)
    ensures ReplaceChar(s + t, c, with) == ReplaceChar(s, c, with) + ReplaceChar(t, c, with)
  {
    if s == "" {
      assert s + t == t;
    } else {
      assert (s + t)[1..] == s[1..] + t;
      ReplaceCharAppend(s[1..], t, c, with);
    }
  }

  /** The two-pass encoder is the one-pass one. */
  lemma {:induction false} EncoderIsOnePass(name: string)
    ensures EscapeName(name) == Escaped(name)
  {
    if name != "" {
      var head := if name[0] == '~' then "~0" else [name[0]];
      var tail := ReplaceChar(name[1..], '~', "~0");
      ReplaceCharAppend(head, tail, '/', "~1");
      OneCharacter(name[0]);
      EncoderIsOnePass(name[1..]);
    }
  }

  lemma OneCharacter(c: char)
    ensures ReplaceChar(if c == '~' then "~0" else [c], '/', "~1") == EscapeOne(c)
  {
    var head := if c == '~' then "~0" else [c];
    assert head[1..] == if c == '~' then "0" else "";
    assert "0"[1..] == "";
  }

  /** After the first decoding pass a token has no ~1 left and its slashes are data. */
  function HalfDecoded(t: string): string
    requires IsToken(t)
    decreases |t|
  {
    if t == "" then ""
    else if t[0] == '~' then (if t[1] == '0' then "~0" else "/") + HalfDecoded(t[2..])
    else [t[0]] + HalfDecoded(t[1..])
  }

  lemma TildeZero(t: string)
    requires "~0" <= t
    ensures ReplacePair(t, '~', '1', "/") == "~0" + ReplacePair(t[2..], '~', '1', "/")
  {
    var rest := t[1..];
    assert rest[0] == '0' && rest[1..] == t[2..];
    assert ReplacePair(t, '~', '1', "/") == [t[0]] + ReplacePair(rest, '~', '1', "/");
    assert ReplacePair(rest, '~', '1', "/") == [rest[0]] + ReplacePair(rest[1..], '~', '1', "/");
  }

  lemma {:induction false} FirstPass(t: string)
    requires IsToken(t)
    ensures ReplacePair(t, '~', '1', "/") == HalfDecoded(t)
    decreases |t|
  {
    if t == "" { return; }
    if t[0] != '~' {
      FirstPass(t[1..]);
    } else {
      FirstPass(t[2..]);
      if t[1] == '0' { TildeZero(t); }
    }
  }

  lemma {:induction false} SecondPass(t: string)
    requires IsToken(t)
    ensures ReplacePair(HalfDecoded(t), '~', '0', "~") == Unescaped(t)
    decreases |t|
  {
    if t != "" {
      if t[0] == '~' {
        SecondPass(t[2..]);
        var h := HalfDecoded(t[2..]);
        assert ("~0" + h)[2..] == h && ("/" + h)[1..] == h;
      } else {
        SecondPass(t[1..]);
        assert ([t[0]] + HalfDecoded(t[1..]))[1..] == HalfDecoded(t[1..]);
      }
    }
  }

  /** On a reference token the two-pass decoder is the one-pass one: ~1 goes first, so ~01
      decodes to ~1 and never to a slash. */
  lemma DecoderIsOnePass(t: string)
    requires IsToken(t)
    ensures DecodeToken(t) == Unescaped(t)
  {
    FirstPass(t);
    SecondPass(t);
  }

  /** Reference tokens and names correspond one to one. */
  lemma {:induction false} NameRoundTrip(name: string)
    ensures IsToken(Escaped(name)) && Unescaped(Escaped(name)) == name
  {
    if name != "" {
      NameRoundTrip(name[1..]);
      var rest := Escaped(name[1..]);
      var t := EscapeOne(name[0]) + rest;
      if name[0] == '~' || name[0] == '/' { assert t[2..] == rest; } else { assert t[1..] == rest; }
    }
  }

  lemma {:induction false} TokenRoundTrip(t: string)
    requires IsToken(t)
    ensures Escaped(Unescaped(t)) == t
    decreases |t|
  {
    if t != "" {
      var u := Unescaped(t);
      if t[0] == '~' {
        TokenRoundTrip(t[2..]);
        assert u[1..] == Unescaped(t[2..]);
        assert t == EscapeOne(u[0]) + t[2..];
      } else {
        TokenRoundTrip(t[1..]);
        assert u[1..] == Unescaped(t[1..]);
        assert t == [t[0]] + t[1..];
      }
    }
  }

  /** Decoding undoes encoding, whatever the name. */
  lemma DecodeEscape(name: string)
    ensures DecodeToken(EscapeName(name)) == name
  {
    EncoderIsOnePass(name);
    NameRoundTrip(name);
    DecoderIsOnePass(EscapeName(name));
  }

  // ---- pointers -----------------------------------------------------------------------------------

  function Split(s: string, sep: char): (parts: seq<string>)
    ensures |parts| >= 1
  {
    if s == "" then [""]
    else
      var rest := Split(s[1..], sep);
      if s[0] == sep then [""] + rest else [[s[0]] + rest[0]] + rest[1..]
  }

  function Join(parts: seq<string>, sep: char): string {
    if parts == [] then "" else if |parts| == 1 then parts[0] else parts[0] + [sep] + Join(parts[1..], sep)
  }

  lemma {:induction false} JoinSplit(s: string, sep: char)
    ensures Join(Split(s, sep), sep) == s
    ensures forall k :: 0 <= k < |Split(s, sep)| ==> sep !in Split(s, sep)[k]
  {
    if s != "" {
      JoinSplit(s[1..], sep);
      var rest := Split(s[1..], sep);
      if s[0] == sep {
        assert ([""] + rest)[1..] == rest;
      } else {
        var parts := [[s[0]] + rest[0]] + rest[1..];
        assert parts[1..] == rest[1..];
        assert s == [s[0]] + s[1..];
      }
    }
  }

  lemma {:induction false} SplitJoin(parts: seq<string>, sep: char)
    requires parts != [] && forall k :: 0 <= k < |parts| ==> sep !in parts[k]
    ensures Split(Join(parts, sep), sep) == parts
    decreases |parts|, if parts == [] then 0 else |parts[0]|
  {
    var joined := Join(parts, sep);
    if parts[0] == "" {
      if |parts| > 1 {
        assert joined[1..] == Join(parts[1..], sep);
        SplitJoin(parts[1..], sep);
        assert [""] + parts[1..] == parts;
      }
    } else {
      var shorter := [parts[0][1..]] + parts[1..];
      assert joined[1..] == Join(shorter, sep) by { assert shorter[1..] == parts[1..]; }
      assert forall k :: 0 <= k < |shorter| ==> sep !in shorter[k];
      SplitJoin(shorter, sep);
      assert parts[0] == [parts[0][0]] + parts[0][1..];
      assert [[joined[0]] + shorter[0]] + shorter[1..] == parts;
    }
  }

  predicate HasDoubleSlash(s: string) {
    exists i :: 0 <= i < |s| - 1 && s[i] == '/' && s[i + 1] == '/'
  }

  /** The whole-string pattern: a slash, then nonempty tokens between slashes. */
  predicate MatchesPattern(path: string) {
    && path != "" && path[0] == '/'
    && var parts := Split(path[1..], '/');
       path == "/" || forall k :: 0 <= k < |parts| ==> parts[k] != "" && IsToken(parts[k])
  }

  predicate IsValidPointer(path: string) {
    && path != "" && path[0] == '/' && '#' !in path && !HasDoubleSlash(path)
    && (path == "/" || MatchesPattern(path))
  }

  /** A path that is not a valid pointer raises. */
  function PointerTokens(path: string): Result<seq<string>> {
    if !IsValidPointer(path) then Err(ValidationError)
    else if path == "/" then Ok([])
    else
      var parts := Split(path[1..], '/');
      Ok(seq(|parts|, k requires 0 <= k < |parts| => DecodeToken(parts[k])))
  }

  function Escapes(names: seq<string>): (parts: seq<string>)
    ensures |parts| == |names| && forall k :: 0 <= k < |names| ==> parts[k] == EscapeName(names[k])
  {
    seq(|names|, k requires 0 <= k < |names| => EscapeName(names[k]))
  }

  /** Escape, join with slashes, put one in front. */
  function Print(names: seq<string>): string {
    "/" + Join(Escapes(names), '/')
  }

  /** A name some pointer of the subset can carry. */
  predicate Clean(name: string) {
    name != "" && '#' !in name
  }

  predicate AllClean(names: seq<string>) {
    forall k :: 0 <= k < |names| ==> Clean(names[k])
  }

  lemma {:induction false} EscapedKeeps(name: string)
    ensures (Escaped(name) == "" <==> name == "") && ('#' in Escaped(name) <==> '#' in name) && '/' !in Escaped(name)
  {
    if name != "" {
      EscapedKeeps(name[1..]);
      assert name == [name[0]] + name[1..];
    }
  }

  lemma {:induction false} JoinHas(parts: seq<string>, c: char)
    requires c != '/'
    ensures c in Join(parts, '/') <==> exists k :: 0 <= k < |parts| && c in parts[k]
  {
    if |parts| > 1 {
      JoinHas(parts[1..], c);
      if k :| 0 <= k < |parts| && c in parts[k] { if k > 0 { assert c in parts[1..][k - 1]; } }
      if k :| 0 <= k < |parts| - 1 && c in parts[1..][k] { assert c in parts[k + 1]; }
    }
  }

  /** No two slashes meet in a join of nonempty parts without slashes. */
  lemma {:induction false} JoinNoDouble(parts: seq<string>)
    requires parts != [] && forall k :: 0 <= k < |parts| ==> parts[k] != "" && '/' !in parts[k]
    ensures var s := Join(parts, '/'); s != "" && s[0] != '/' && !HasDoubleSlash(s)
  {
    if |parts| > 1 {
      JoinNoDouble(parts[1..]);
      var rest := Join(parts[1..], '/');
      var s := parts[0] + "/" + rest;
      forall i | 0 <= i < |s| - 1 ensures !(s[i] == '/' && s[i + 1] == '/') {
        if i < |parts[0]| {
          assert s[i] == parts[0][i];
        } else if i == |parts[0]| {
          assert s[i + 1] == rest[0];
        } else {
          assert s[i] == rest[i - |parts[0]| - 1] && s[i + 1] == rest[i - |parts[0]|];
        }
      }
    }
  }

  predicate TokenOf(t: string, name: string) {
    && IsToken(t) && '/' !in t && DecodeToken(t) == name
    && (t == "" <==> name == "") && ('#' in t <==> '#' in name)
  }

  lemma EscapesAreTokens(names: seq<string>)
    ensures forall k :: 0 <= k < |names| ==> TokenOf(Escapes(names)[k], names[k])
  {
    forall k | 0 <= k < |names| ensures TokenOf(Escapes(names)[k], names[k]) {
      EncoderIsOnePass(names[k]);
      NameRoundTrip(names[k]);
      EscapedKeeps(names[k]);
      DecodeEscape(names[k]);
    }
  }

  lemma PrintValid(names: seq<string>)
    requires names != [] && AllClean(names)
    ensures IsValidPointer(Print(names)) && Print(names) != "/" && Split(Print(names)[1..], '/') == Escapes(names)
  {
    var parts, path := Escapes(names), Print(names);
    EscapesAreTokens(names);
    JoinNoDouble(parts);
    JoinHas(parts, '#');
    SplitJoin(parts, '/');
    assert path[1..] == Join(parts, '/');
    forall i | 0 <= i < |path| - 1 ensures !(path[i] == '/' && path[i + 1] == '/') {
      if i > 0 { assert path[i] == path[1..][i - 1] && path[i + 1] == path[1..][i]; }
    }
  }

  /** A printed pointer parses back to its names exactly when every name is nonempty and has
      no hash: those the subset cannot carry. */
  lemma PrintParse(names: seq<string>)
    ensures PointerTokens(Print(names)) == Ok(names) <==> AllClean(names)
  {
    var parts, path := Escapes(names), Print(names);
    if names == [] { return; }
    EscapesAreTokens(names);
    if AllClean(names) {
      PrintValid(names);
      assert PointerTokens(path).value == names;
    } else if PointerTokens(path) == Ok(names) {
      SplitJoin(parts, '/');
      assert path[1..] == Join(parts, '/');
      assert path != "/";
      assert Split(path[1..], '/') == parts;
      JoinHas(parts, '#');
      forall k | 0 <= k < |names| ensures Clean(names[k]) {
        assert parts[k] != "" && '#' !in path[1..];
      }
    }
  }

  /** Every pointer the parser takes is the printed form of what it reads. */
  lemma ParsePrint(path: string)
    requires PointerTokens(path).Ok?
    ensures AllClean(PointerTokens(path).value) && Print(PointerTokens(path).value) == path
  {
    var names := PointerTokens(path).value;
    assert path == "/" + path[1..];
    if path == "/" { return; }
    var parts := Split(path[1..], '/');
    JoinSplit(path[1..], '/');
    JoinHas(parts, '#');
    forall k | 0 <= k < |parts| ensures EscapeName(names[k]) == parts[k] && Clean(names[k]) {
      DecoderIsOnePass(parts[k]);
      TokenRoundTrip(parts[k]);
      EncoderIsOnePass(names[k]);
      EscapedKeeps(names[k]);
    }
    assert Escapes(names) == parts;
  }

  /** Any other list of names is refused, but for the single empty name: its pointer is the
      root. */
  lemma UncleanRefused(names: seq<string>)
    requires !AllClean(names)
    ensures PointerTokens(Print(names)) == if names == [""] then Ok([]) else Err(ValidationError)
  {
    var path := Print(names);
    if names == [""] {
      assert Escapes(names) == [""];
    } else if PointerTokens(path).Ok? {
      ParsedMeansClean(names);
    }
  }

  lemma PrintInjective(a: seq<string>, b: seq<string>)
    requires a != [] && b != [] && Print(a) == Print(b)
    ensures a == b
  {
    EscapesAreTokens(a);
    EscapesAreTokens(b);
    SplitJoin(Escapes(a), '/');
    SplitJoin(Escapes(b), '/');
    assert Print(a)[1..] == Join(Escapes(a), '/') && Print(b)[1..] == Join(Escapes(b), '/');
    forall k | 0 <= k < |a| && k < |b| ensures a[k] == b[k] {
      assert Escapes(a)[k] == Escapes(b)[k];
    }
  }

  lemma ParsedMeansClean(names: seq<string>)
    requires names != [] && names != [""] && PointerTokens(Print(names)).Ok?
    ensures AllClean(names)
  {
    var path := Print(names);
    ParsePrint(path);
    EscapesAreTokens(names);
    SplitJoin(Escapes(names), '/');
    assert path[1..] == Join(Escapes(names), '/');
    assert path != "/" by {
      if |names| == 1 { assert Escapes(names)[0] != ""; }
    }
    assert PointerTokens(path).value != [];
    PrintInjective(names, PointerTokens(path).value);
  }

  // ---- evaluation -------------------------------------------------------------------------------

  /** An index the digit test and the test for leading zeros let through. */
  predicate IsIndex(token: string) {
    IsDigits(token) && (token == "0" || token[0] != '0')
  }

  /** One token against one value; None is MISSING, which is not null.  An index that cannot
      be read as an integer raises. */
  function Member(j: Json, token: string): Result<Option<Json>> {
    match j
    case Obj(fields) => Ok(if token in fields then Some(fields[token]) else None)
    case Arr(items) =>
      if !IsIndex(token) then Ok(None)
      else if !Readable(token) then Err(ValidationError)
      else if ParseNat(token) < |items| then Ok(Some(items[ParseNat(token)])) else Ok(None)
    case _ => Ok(None)
  }

  function Follow(root: Json, tokens: seq<string>): Result<Option<Json>> {
    if tokens == [] then Ok(Some(root))
    else
      var next := Member(root, tokens[0]);
      if next.Ok? && next.value.Some? then Follow(next.value.value, tokens[1..]) else next
  }

  /** The tokens before the k-th lead to a list, and the k-th is an index of more than 4300
      digits or with a digit that is not decimal. */
  ghost predicate StopsAt(root: Json, tokens: seq<string>, k: nat) {
    && k < |tokens|
    && var before := Follow(root, tokens[..k]);
    && before.Ok? && before.value.Some? && before.value.value.Arr?
    && IsIndex(tokens[k]) && (|tokens[k]| > MAX_INT_DIGITS || !IsDecimal(tokens[k]))
  }

  /** Evaluation raises on exactly such paths. */
  lemma {:induction false} FollowRaises(root: Json, tokens: seq<string>)
    ensures Follow(root, tokens).Err? <==> exists k :: StopsAt(root, tokens, k)
    decreases |tokens|
  {
    if tokens == [] { return; }
    var next := Member(root, tokens[0]);
    assert tokens[..0] == [];
    if next.Err? {
      assert StopsAt(root, tokens, 0);
    } else if next.value.Some? {
      var j, rest := next.value.value, tokens[1..];
      FollowRaises(j, rest);
      forall k: nat | k < |rest| ensures StopsAt(root, tokens, k + 1) <==> StopsAt(j, rest, k) {
        assert tokens[..k + 1][0] == tokens[0] && tokens[..k + 1][1..] == rest[..k];
      }
      if k: nat :| StopsAt(j, rest, k) { assert StopsAt(root, tokens, k + 1); }
      if k: nat :| StopsAt(root, tokens, k) {
        assert k > 0;
        var m: nat := k - 1;
        assert StopsAt(root, tokens, m + 1);
        assert StopsAt(j, rest, m);
      }
    } else if k: nat :| StopsAt(root, tokens, k) {
      if k > 0 { assert tokens[..k][0] == tokens[0]; }
    }
  }

  /** In an object a token finds the value of that name, null included; elsewhere nothing. */
  lemma ObjectMember(j: Json, name: string, v: Json)
    requires !j.Arr?
    ensures Member(j, name) == Ok(Some(v)) <==> j.Obj? && name in j.fields && j.fields[name] == v
    ensures Member(j, name).Ok?
  {
  }

  predicate Ascii(s: string) {
    forall k :: 0 <= k < |s| ==> s[k] < 0x80 as char
  }

  /** In a list, the token that finds an item is the numeral of its position. */
  lemma ListMember(items: seq<Json>, token: string, v: Json)
    requires Ascii(token) && |token| <= MAX_INT_DIGITS
    ensures Member(Arr(items), token) == Ok(Some(v)) <==> exists n: nat :: n < |items| && token == Digits(n) && v == items[n]
    ensures Member(Arr(items), token).Ok?
  {
    hide OtherDigit;
    if IsIndex(token) {
      AsciiDigits(token);
      DigitsParse(token);
      forall n: nat | token == Digits(n) ensures n == ParseNat(token) { ParseDigits(n); }
    } else if n: nat :| token == Digits(n) {
      ParseDigits(n);
    }
  }

  lemma AsciiDigits(token: string)
    requires Ascii(token) && IsDigits(token)
    ensures forall k :: 0 <= k < |token| ==> '0' <= token[k] <= '9'
    ensures IsDecimal(token)
  {
  }

  /** Such a path against the empty list, where any index is out of range. */
  lemma LongIndexRaises()
    ensures Follow(Arr([]), [seq(4301, _ => '9')]) == Err(ValidationError)
  {
  }

  method Resolve(root: Json, path: string) returns (result: Result<Option<Json>>)
    ensures PointerTokens(path).Err? ==> result == Err(PointerTokens(path).error)
    ensures PointerTokens(path).Ok? ==> result == Follow(root, PointerTokens(path).value)
  {
    var parsed := PointerTokens(path);
    if parsed.Err? { return Err(parsed.error); }
    var tokens := parsed.value;
    var current := root;
    for k := 0 to |tokens|
      invariant Follow(root, tokens) == Follow(current, tokens[k..])
    {
      var next := Member(current, tokens[k]);
      assert tokens[k..][1..] == tokens[k + 1..];
      if next.Err? || next.value.None? { return next; }
      current := next.value.value;
    }
    return Ok(Some(current));
  }
}

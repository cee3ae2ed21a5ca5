/** The list-to-detail pair: finding the one id to hand over, filling the second Tool's input,
    and the validator that reads the result. */
module Handoff {
  import opened ExecutionRows
  import opened Text
  import opened JsonPointer

  // ---- text ------------------------------------------------------------------------------------

  function DropDashes(s: string): string {
    if s != "" && s[0] == '-' then DropDashes(s[1..]) else s
  }

  function EndsWith(s: string, t: string): bool {
    |t| <= |s| && s[|s| - |t|..] == t
  }

  const ID_PARAM_NAMES: set<string> :=
    {"id", "petid", "pet_id", "itemid", "item_id", "entityid", "entity_id", "objectid", "object_id"}

  predicate IsIdLike(name: string) {
    || Normalize(name) in ID_PARAM_NAMES
    || ((EndsWith(name, "_id") || EndsWith(name, "-id") || EndsWith(name, "Id")) && |name| > 2)
  }

  // ---- id literals -----------------------------------------------------------------------------

  /** Reading and writing floating-point numbers as text. */
  datatype FloatText = FloatText(parse: string -> Option<real>, show: real -> string) {
    ghost predicate ShowsSomething() {
      forall x :: Strip(show(x)) != ""
    }
  }

  datatype Coercion = Coerced(value: Json) | Unusable | Raises

  function Magnitude(n: int): nat {
    if n < 0 then -n else n
  }

  function ShowInt(n: int): Coercion {
    var digits := Digits(Magnitude(n));
    if |digits| > MAX_INT_DIGITS then Raises else Coerced(Str(if n < 0 then "-" + digits else digits))
  }

  /** The text test lets any number of leading dashes, of digits and of other digits through;
      the conversion takes one dash and what can be read as an integer. */
  function CoerceText(s: string): Coercion {
    var t := Strip(s);
    if !IsDigits(DropDashes(t)) then Unusable
    else
      var digits := if t[0] == '-' then t[1..] else t;
      if !Readable(digits) then Raises
      else Coerced(Int(if t[0] == '-' then 0 - ParseNat(digits) else ParseNat(digits)))
  }

  function Coerce(v: Json, target: string, floats: FloatText): Coercion {
    match target
    case "integer" =>
      (match v
       case Int(_) => Coerced(v)
       case Float(x) => if x.Floor as real == x then Coerced(Int(x.Floor)) else Unusable
       case Str(s) => CoerceText(s)
       case _ => Unusable)
    case "number" =>
      (match v
       case Int(_) => Coerced(v)
       case Float(_) => Coerced(v)
       case Str(s) =>
         var x := floats.parse(Strip(s));
         if x.Some? then Coerced(Float(x.value)) else Unusable
       case _ => Unusable)
    case "string" =>
      (match v
       case Str(s) => if Strip(s) != "" then Coerced(v) else Unusable
       case Int(n) => ShowInt(n)
       case Float(x) => Coerced(Str(floats.show(x)))
       case _ => Unusable)
    case _ => Unusable
  }

  /** A coerced literal coerces to itself, so checking it again changes nothing. */
  lemma CoerceIdempotent(v: Json, target: string, floats: FloatText)
    requires floats.ShowsSomething() && Coerce(v, target, floats).Coerced?
    ensures Coerce(Coerce(v, target, floats).value, target, floats) == Coerce(v, target, floats)
  {
    hide DigitValue, OtherDigit, TrimLeft, TrimRight, IsDigits, ParseNat, DropDashes, Readable;
    if target == "string" && v.Int? {
      var s := ShowInt(v.n).value.s;
      TrimBare(s, WhiteSpace);
      assert !IsBlank(s[|s| - 1], WhiteSpace) && Strip(s) != "";
    }
  }

  /** What the conversion raises on: a text of digits behind two or more dashes, a text of more
      than 4300 digits or with a digit that is not decimal, and, to become text, an integer
      of more than 4300 digits. */
  predicate Unconvertible(v: Json, target: string) {
    || (target == "integer" && v.Str?
        && var digits := DropDashes(Strip(v.s));
        && IsDigits(digits) && ("--" <= Strip(v.s) || |digits| > MAX_INT_DIGITS || !IsDecimal(digits)))
    || (target == "string" && v.Int? && |Digits(Magnitude(v.n))| > MAX_INT_DIGITS)
  }

  lemma CoerceRaises(v: Json, target: string, floats: FloatText)
    ensures Coerce(v, target, floats).Raises? <==> Unconvertible(v, target)
  {
    hide DigitValue, OtherDigit, Trim, DropDashes;
    if v.Str? {
      var t := Strip(v.s);
      if IsDigits(DropDashes(t)) { DashesDropped(t); }
    }
  }

  /** Each of them alone: two dashes and a five, a superscript two, and 4301 nines. */
  lemma TwoDashesRaise(floats: FloatText)
    ensures Coerce(Str("--5"), "integer", floats).Raises?
  {
    BareTrimmed("--5", WhiteSpace);
    assert "--5"[1..] == "-5" && "-5"[1..] == "5";
    CoerceRaises(Str("--5"), "integer", floats);
  }

  lemma SuperscriptRaises(floats: FloatText)
    ensures Coerce(Str("\U{b2}"), "integer", floats).Raises?
  {
    BareTrimmed("\U{b2}", WhiteSpace);
  }

  lemma LongDigitsRaise(floats: FloatText)
    ensures Coerce(Str(seq(4301, _ => '9')), "integer", floats).Raises?
  {
    var nines := seq(4301, _ => '9');
    BareTrimmed(nines, WhiteSpace);
    assert nines[0] == '9';
    assert DropDashes(nines) == nines;
  }

  lemma DashesDropped(t: string)
    requires IsDigits(DropDashes(t))
    ensures t[0] == '-' || t == DropDashes(t)
    ensures t[0] == '-' && !("--" <= t) ==> t[1..] == DropDashes(t)
    ensures "--" <= t ==> !IsDecimal(t[1..])
  {
    if t[0] == '-' {
      var u := t[1..];
      assert DropDashes(t) == DropDashes(u);
      assert "--" <= t <==> u != "" && u[0] == '-';
      if u == "" || u[0] != '-' { assert DropDashes(u) == u; }
    }
  }

  /** Equality across the two kinds of number. */
  predicate SameValue(a: Json, b: Json) {
    match (a, b)
    case (Int(n), Float(x)) => n as real == x
    case (Float(x), Int(n)) => x == n as real
    case _ => a == b
  }

  // ---- the request -----------------------------------------------------------------------------

  datatype Provenance =
    | UserExplicit | WorkflowInput | ConversationConfirmed | FromStepOutput | PolicyDefault | ModelDerived | SecretReference

  datatype Entity = Entity(name: string, value: Json, source: Provenance)

  /** Given or confirmed by the user. */
  predicate IsExplicit(source: Provenance) {
    source.UserExplicit? || source.ConversationConfirmed?
  }

  /** asksFirstItem: the wording asks for the first item of a list, without ambiguity. */
  datatype StructuredRequest = StructuredRequest(entities: seq<Entity>, asksFirstItem: bool)

  function ExplicitIds(entities: seq<Entity>): seq<Json> {
    if entities == [] then []
    else
      var e := entities[|entities| - 1];
      ExplicitIds(entities[..|entities| - 1]) + if GivenId(e) then [e.value] else []
  }

  /** An id-like entity the user gave or confirmed. */
  predicate GivenId(e: Entity) {
    IsExplicit(e.source) && IsIdLike(e.name)
  }

  ghost predicate SoleGivenId(entities: seq<Entity>, i: int) {
    && 0 <= i < |entities| && GivenId(entities[i])
    && forall j :: 0 <= j < |entities| && j != i ==> !GivenId(entities[j])
  }

  lemma {:induction false} ExplicitIdsCount(entities: seq<Entity>)
    ensures ExplicitIds(entities) == [] <==> forall j :: 0 <= j < |entities| ==> !GivenId(entities[j])
    ensures forall i :: SoleGivenId(entities, i) ==> ExplicitIds(entities) == [entities[i].value]
    ensures |ExplicitIds(entities)| == 1 ==> exists i :: SoleGivenId(entities, i)
  {
    hide GivenId;
    if entities == [] { return; }
    var n := |entities| - 1;
    var init := entities[..n];
    ExplicitIdsCount(init);
    assert forall j :: 0 <= j < n ==> init[j] == entities[j];
    forall i | SoleGivenId(entities, i) ensures ExplicitIds(entities) == [entities[i].value] {
      if i < n { assert SoleGivenId(init, i); }
    }
    if |ExplicitIds(entities)| == 1 {
      if GivenId(entities[n]) {
        assert SoleGivenId(entities, n);
      } else {
        var i :| SoleGivenId(init, i);
        assert SoleGivenId(entities, i);
      }
    }
  }

  /** The value is that of the one entity that is an id the user gave or confirmed; with
      none, or several, there is no value. */
  lemma ExplicitIdIsSole(request: StructuredRequest)
    ensures forall i :: SoleGivenId(request.entities, i) ==> ExplicitId(request) == request.entities[i].value
    ensures (forall i :: !SoleGivenId(request.entities, i)) ==> ExplicitId(request) == Null
  {
    ExplicitIdsCount(request.entities);
  }

  method ExtractExplicitId(request: StructuredRequest) returns (value: Json)
    ensures forall i :: SoleGivenId(request.entities, i) ==> value == request.entities[i].value
    ensures (forall i :: !SoleGivenId(request.entities, i)) ==> value == Null
    ensures value == ExplicitId(request)
  {
    ExplicitIdIsSole(request);
    var matches := [];
    for k := 0 to |request.entities|
      invariant matches == ExplicitIds(request.entities[..k])
    {
      var entity := request.entities[k];
      assert request.entities[..k + 1][..k] == request.entities[..k];
      if GivenId(entity) { matches := matches + [entity.value]; }
    }
    assert request.entities[..|request.entities|] == request.entities;
    value := if |matches| != 1 then Null else matches[0];
  }

  function ExplicitId(request: StructuredRequest): Json {
    var matches := ExplicitIds(request.entities);
    if |matches| != 1 then Null else matches[0]
  }

  // ---- schemas -----------------------------------------------------------------------------------

  function Get(j: Json, key: string): Json {
    if j.Obj? && key in j.fields then j.fields[key] else Null
  }

  function Properties(schema: Json): map<string, Json> {
    if schema.Obj? && Get(schema, "type") == Str("object") && Get(schema, "properties").Obj?
    then Get(schema, "properties").fields else map[]
  }

  function Strings(items: seq<Json>): seq<string> {
    if items == [] then [] else (if items[0].Str? then [items[0].s] else []) + Strings(items[1..])
  }

  function Required(schema: Json): seq<string> {
    if Get(schema, "required").Arr? then Strings(Get(schema, "required").items) else []
  }

  function JsonType(schema: Json): Option<string> {
    var raw := Get(schema, "type");
    if raw.Str? && Strip(raw.s) != "" then Some(Strip(raw.s)) else None
  }

  predicate Compatible(source: string, target: string) {
    source == target || (source == "integer" && target == "number")
  }

  /** The fragment of JSON Schema the discovery reads: type, properties and items. */
  ghost predicate Conforms(v: Json, schema: Json)
    decreases schema
  {
    schema.Obj? ==>
      && ("type" in schema.fields && schema.fields["type"].Str? ==> HasType(v, schema.fields["type"].s))
      && ("properties" in schema.fields && schema.fields["properties"].Obj? && v.Obj? ==>
            var props := schema.fields["properties"].fields;
            forall k :: k in props && k in v.fields ==> Conforms(v.fields[k], props[k]))
      && ("items" in schema.fields && v.Arr? ==>
            forall n :: 0 <= n < |v.items| ==> Conforms(v.items[n], schema.fields["items"]))
  }

  predicate HasType(v: Json, t: string) {
    match t
    case "object" => v.Obj?
    case "array" => v.Arr?
    case "string" => v.Str?
    case "integer" => v.Int? || (v.Float? && v.x.Floor as real == v.x)
    case "number" => v.Int? || v.Float?
    case "boolean" => v.Bool?
    case "null" => v.Null?
    case _ => true
  }

  // ---- discovering the handoff -------------------------------------------------------------------

  datatype Handoff = Handoff(targetParam: string, fromPath: string, sourceType: string, targetType: string)

  datatype Source = Source(collection: string, id: string)

  /** A top-level array of objects with an id field named "id" or like the target parameter. */
  ghost predicate Offers(output: Json, target: string, s: Source) {
    && s.collection in Properties(output)
    && var collection := Properties(output)[s.collection];
    && Get(collection, "type") == Str("array")
    && s.id in Properties(Get(collection, "items"))
    && IsIdName(s.id, target)
  }

  predicate IsIdName(name: string, target: string) {
    Normalize(name) == "id" || Normalize(name) == Normalize(target)
  }

  function IdSchema(output: Json, s: Source): Json {
    Get(Get(Get(Get(Get(output, "properties"), s.collection), "items"), "properties"), s.id)
  }

  function Path(s: Source, envelope: bool): string {
    (if envelope then "/" + "structured_content" + "/" + "body" else "/" + "structured_content")
    + "/" + EscapeName(s.collection) + "/" + "0" + "/" + EscapeName(s.id)
  }

  /** What a discovered handoff is: the only source there is, with a type that fits. */
  ghost predicate Discovered(output: Json, input: Json, envelope: bool, h: Handoff, s: Source) {
    && Required(input) == [h.targetParam] && IsIdLike(h.targetParam)
    && h.targetParam in Properties(input)
    && JsonType(Properties(input)[h.targetParam]) == Some(h.targetType)
    && h.targetType in {"string", "integer", "number"}
    && Offers(output, h.targetParam, s)
    && (forall t :: Offers(output, h.targetParam, t) ==> t == s)
    && JsonType(IdSchema(output, s)) == Some(h.sourceType)
    && Compatible(h.sourceType, h.targetType)
    && h.fromPath == Path(s, envelope)
  }

  /** The sources of one collection. */
  method CollectIds(collection: string, items: Json, target: string) returns (found: seq<Source>)
    ensures forall s :: s in found <==> s.collection == collection && s.id in Properties(items) && IsIdName(s.id, target)
    ensures forall i, j | 0 <= i < j < |found| :: found[i] != found[j]
  {
    found := [];
    var rest := Properties(items).Keys;
    while rest != {}
      invariant rest <= Properties(items).Keys
      invariant forall s :: s in found <==>
        s.collection == collection && s.id in Properties(items) && s.id !in rest && IsIdName(s.id, target)
      invariant forall i, j | 0 <= i < j < |found| :: found[i] != found[j]
    {
      var id :| id in rest;
      rest := rest - {id};
      if IsIdName(id, target) { found := found + [Source(collection, id)]; }
    }
  }

  method CollectSources(output: Json, target: string) returns (found: seq<Source>)
    ensures forall s :: s in found <==> Offers(output, target, s)
    ensures forall i, j | 0 <= i < j < |found| :: found[i] != found[j]
  {
    found := [];
    var rest := Properties(output).Keys;
    while rest != {}
      invariant rest <= Properties(output).Keys
      invariant forall s :: s in found <==> Offers(output, target, s) && s.collection !in rest
      invariant forall i, j | 0 <= i < j < |found| :: found[i] != found[j]
    {
      var name :| name in rest;
      rest := rest - {name};
      var collection := Properties(output)[name];
      if Get(collection, "type") == Str("array") {
        var more := CollectIds(name, Get(collection, "items"), target);
        found := found + more;
      }
    }
  }

  method DiscoverIdHandoff(output: Json, input: Json, envelope: bool) returns (found: Option<Handoff>)
    ensures found.Some? ==> exists s :: Discovered(output, input, envelope, found.value, s)
    ensures found.None? ==> forall h, s :: !Discovered(output, input, envelope, h, s)
  {
    hide Path, IdSchema, IsIdLike, JsonType, Offers, Compatible;
    found := None;
    var required := Required(input);
    if |required| != 1 || !IsIdLike(required[0]) { return; }
    var target := required[0];
    if target !in Properties(input) { return; }
    var targetType := JsonType(Properties(input)[target]);
    if targetType.None? || targetType.value !in {"string", "integer", "number"} { return; }
    var candidates := CollectSources(output, target);
    if |candidates| != 1 {
      forall s | Offers(output, target, s) ensures exists t :: Offers(output, target, t) && t != s {
        var k :| 0 <= k < |candidates| && candidates[k] == s;
        var other := candidates[if k == 0 then 1 else 0];
        assert other in candidates && other != s;
      }
      return;
    }
    var source := candidates[0];
    assert forall t :: Offers(output, target, t) ==> t in candidates;
    var sourceType := JsonType(IdSchema(output, source));
    if sourceType.None? || !Compatible(sourceType.value, targetType.value) {
      assert Offers(output, target, source);
      return;
    }
    found := Some(Handoff(target, Path(source, envelope), sourceType.value, targetType.value));
    assert Discovered(output, input, envelope, found.value, source);
  }

  // ---- what the path finds -------------------------------------------------------------------------

  function Names(s: Source, envelope: bool): seq<string> {
    (if envelope then ["structured_content", "body"] else ["structured_content"]) + [s.collection, "0", s.id]
  }

  lemma {:induction false} PlainName(name: string)
    requires '~' !in name && '/' !in name
    ensures EscapeName(name) == name
  {
    EncoderIsOnePass(name);
    if name != "" {
      PlainName(name[1..]);
      EncoderIsOnePass(name[1..]);
    }
  }

  lemma FixedNames()
    ensures EscapeName("structured_content") == "structured_content" && EscapeName("body") == "body" && EscapeName("0") == "0"
  {
    hide EscapeName, ReplaceChar;
    PlainName("structured_content");
    PlainName("body");
    PlainName("0");
  }

  lemma PathIsPrinted(s: Source, envelope: bool)
    ensures Path(s, envelope) == Print(Names(s, envelope))
  {
    FixedNames();
    hide EscapeName, JsonPointer.Join;
    Assembled("structured_content", "body", EscapeName(s.collection), "0", EscapeName(s.id));
    if envelope {
      assert Escapes(Names(s, envelope)) == ["structured_content", "body", EscapeName(s.collection), "0", EscapeName(s.id)];
    } else {
      assert Escapes(Names(s, envelope)) == ["structured_content", EscapeName(s.collection), "0", EscapeName(s.id)];
    }
  }

  lemma Assembled(a: string, b: string, x: string, y: string, z: string)
    ensures "/" + JsonPointer.Join([a, b, x, y, z], '/') == "/" + (a + ("/" + b)) + "/" + (x + "/" + y + "/" + z)
    ensures "/" + JsonPointer.Join([a, x, y, z], '/') == "/" + a + "/" + (x + "/" + y + "/" + z)
  {
    JoinThree(x, y, z);
    JoinMore(b, [x, y, z]);
    JoinMore(a, [b] + [x, y, z]);
    JoinMore(a, [x, y, z]);
    assert [a, b, x, y, z] == [a] + ([b] + [x, y, z]) && [a, x, y, z] == [a] + [x, y, z];
  }

  lemma JoinMore(x: string, parts: seq<string>)
    requires parts != []
    ensures JsonPointer.Join([x] + parts, '/') == x + "/" + JsonPointer.Join(parts, '/')
  {
    assert ([x] + parts)[1..] == parts;
  }

  lemma JoinThree(x: string, y: string, z: string)
    ensures JsonPointer.Join([x, y, z], '/') == x + "/" + y + "/" + z
  {
    assert [x, y, z] == [x] + [y, z] && [y, z] == [y] + [z];
    JoinMore(y, [z]);
    JoinMore(x, [y, z]);
  }

  /** The Tool result around the body the schema speaks of. */
  function Wrapped(body: Json, envelope: bool, others: map<string, Json>): Json {
    Obj(others["structured_content" := if envelope then Obj(map["body" := body]) else body])
  }

  /** The first item's id field. */
  function FirstId(body: Json, s: Source): Option<Json> {
    var collection := Get(body, s.collection);
    if !collection.Arr? || collection.items == [] then None
    else if collection.items[0].Obj? && s.id in collection.items[0].fields then Some(collection.items[0].fields[s.id])
    else None
  }

  lemma OffersShape(output: Json, target: string, s: Source, body: Json)
    requires Offers(output, target, s) && Conforms(body, output)
    ensures body.Obj?
    ensures s.collection in body.fields ==> body.fields[s.collection].Arr?
    ensures s.collection in body.fields && body.fields[s.collection].items != [] ==>
      body.fields[s.collection].items[0].Obj?
    ensures FirstId(body, s).Some? ==> Conforms(FirstId(body, s).value, IdSchema(output, s))
  {
    var props := output.fields["properties"].fields;
    var collection := props[s.collection];
    if s.collection in body.fields {
      var list := body.fields[s.collection];
      assert Conforms(list, collection);
      if list.items != [] {
        assert Conforms(list.items[0], collection.fields["items"]);
      }
    }
  }

  /** Against any result that conforms to the output schema the path finds the first item's
      id, of the source type, or nothing when there is no first item with an id.  It can be
      evaluated at all exactly when neither name is empty or holds a hash. */
  lemma PathFindsFirstId(output: Json, input: Json, envelope: bool, h: Handoff, s: Source, body: Json, others: map<string, Json>)
    requires Discovered(output, input, envelope, h, s) && Conforms(body, output)
    ensures PointerTokens(h.fromPath).Ok? <==> Clean(s.collection) && Clean(s.id)
    ensures PointerTokens(h.fromPath).Ok? ==>
      Follow(Wrapped(body, envelope, others), PointerTokens(h.fromPath).value) == Ok(FirstId(body, s))
    ensures FirstId(body, s).Some? ==> Conforms(FirstId(body, s).value, IdSchema(output, s))
  {
    var names := Names(s, envelope);
    PathIsPrinted(s, envelope);
    NamesClean(s, envelope);
    OffersShape(output, h.targetParam, s, body);
    if AllClean(names) {
      PrintParse(names);
      FollowNames(body, envelope, others, s);
      FollowTail(body, s);
    } else {
      UncleanRefused(names);
    }
  }

  lemma NamesClean(s: Source, envelope: bool)
    ensures AllClean(Names(s, envelope)) <==> Clean(s.collection) && Clean(s.id)
    ensures Names(s, envelope) != [""]
  {
    var names := Names(s, envelope);
    assert names[|names| - 3] == s.collection && names[|names| - 1] == s.id;
  }

  lemma FollowTail(body: Json, s: Source)
    requires body.Obj?
    requires s.collection in body.fields ==> body.fields[s.collection].Arr?
    requires s.collection in body.fields && body.fields[s.collection].items != [] ==> body.fields[s.collection].items[0].Obj?
    ensures Follow(body, [s.collection, "0", s.id]) == Ok(FirstId(body, s))
  {
    hide IsIndex, Readable;
    FollowMore(body, s.collection, ["0", s.id]);
    assert [s.collection, "0", s.id] == [s.collection] + ["0", s.id];
    if s.collection in body.fields {
      var list := body.fields[s.collection];
      FollowMore(list, "0", [s.id]);
      assert ["0", s.id] == ["0"] + [s.id];
      ZeroIndex();
      if list.items != [] {
        FollowMore(list.items[0], s.id, []);
        assert [s.id] == [s.id] + [];
      }
    }
  }

  lemma FollowNames(body: Json, envelope: bool, others: map<string, Json>, s: Source)
    ensures Follow(Wrapped(body, envelope, others), Names(s, envelope)) == Follow(body, [s.collection, "0", s.id])
  {
    var root, tail := Wrapped(body, envelope, others), [s.collection, "0", s.id];
    if envelope {
      FollowMore(root, "structured_content", ["body"] + tail);
      FollowMore(root.fields["structured_content"], "body", tail);
      assert Names(s, envelope) == ["structured_content"] + (["body"] + tail);
    } else {
      FollowMore(root, "structured_content", tail);
      assert Names(s, envelope) == ["structured_content"] + tail;
    }
  }

  lemma ZeroIndex()
    ensures IsIndex("0") && Readable("0") && ParseNat("0") == 0
  {
    assert "0"[..0] == "";
  }

  lemma FollowMore(root: Json, token: string, tokens: seq<string>)
    ensures Follow(root, [token] + tokens) ==
      var next := Member(root, token);
      if next.Ok? && next.value.Some? then Follow(next.value.value, tokens) else next
  {
    assert ([token] + tokens)[1..] == tokens;
  }
}

/** Filling the second Tool's input, the two-step plan, and the validator that reads both. */
module PairPlan {
  import opened ExecutionRows
  import opened Text
  import opened JsonPointer
  import opened Handoff

  const TOOL_1 := "tool_1"
  const TOOL_2 := "tool_2"

  datatype Binding = Literal(value: Json) | StepOutput(step: string, path: string) | OtherKind

  type Bindings = map<string, Binding>

  datatype PairStep = PairStep(id: string, isTool: bool, dependsOn: seq<string>, bindings: Bindings)

  datatype Issue = SchemaInvalid | BindingInvalid

  // ---- the generator -----------------------------------------------------------------------------

  datatype Resolution = Bound(bindings: Bindings) | NotResolved | ConversionRaises

  /** The user's own id if there is one, else the first item's when that was asked for. */
  function ResolveBindings(request: StructuredRequest, h: Handoff, floats: FloatText): Resolution {
    var explicit := ExplicitId(request);
    if explicit != Null then
      match Coerce(explicit, h.targetType, floats)
      case Raises => ConversionRaises
      case Unusable => NotResolved
      case Coerced(v) => Bound(map[h.targetParam := Literal(v)])
    else if request.asksFirstItem then Bound(map[h.targetParam := StepOutput(TOOL_1, h.fromPath)])
    else NotResolved
  }

  function BuildPair(primary: Bindings, companion: Bindings): seq<PairStep> {
    [PairStep(TOOL_1, true, [], primary), PairStep(TOOL_2, true, [TOOL_1], companion)]
  }

  // ---- the validator -----------------------------------------------------------------------------

  /** The schema of a Tool config holds every STEP_OUTPUT path to the pointer subset. */
  ghost predicate ParsesAsToolConfig(bindings: Bindings) {
    forall k :: k in bindings && bindings[k].StepOutput? ==> IsValidPointer(bindings[k].path)
  }

  ghost predicate IsPair(steps: seq<PairStep>, responses: seq<string>, refs: set<string>)
    requires |steps| == 2
  {
    && steps[0].id == TOOL_1 && steps[1].id == TOOL_2
    && steps[0].isTool && steps[1].isTool
    && steps[0].dependsOn == [] && steps[1].dependsOn == [TOOL_1]
    && responses == [TOOL_2]
    && refs == {TOOL_1, TOOL_2}
    && ParsesAsToolConfig(steps[1].bindings)
  }

  method ValidateShape(steps: seq<PairStep>, responses: seq<string>, refs: set<string>) returns (failed: seq<Issue>)
    requires |steps| == 2
    ensures failed == [] <==> IsPair(steps, responses, refs)
  {
    failed := [];
    if steps[0].id != TOOL_1 || steps[1].id != TOOL_2 { failed := failed + [SchemaInvalid]; }
    if !steps[0].isTool || !steps[1].isTool { failed := failed + [SchemaInvalid]; }
    if steps[0].dependsOn != [] { failed := failed + [SchemaInvalid]; }
    if steps[1].dependsOn != [TOOL_1] { failed := failed + [SchemaInvalid]; }
    if responses != [TOOL_2] { failed := failed + [SchemaInvalid]; }
    if refs != {TOOL_1, TOOL_2} { failed := failed + [SchemaInvalid]; }
    var parses := ParseToolConfig(steps[1].bindings);
    if !parses { failed := failed + [SchemaInvalid]; }
  }

  method ParseToolConfig(bindings: Bindings) returns (ok: bool)
    ensures ok <==> ParsesAsToolConfig(bindings)
  {
    ok := true;
    var rest := bindings.Keys;
    while rest != {}
      invariant rest <= bindings.Keys
      invariant ok <==> forall k :: k in bindings && k !in rest && bindings[k].StepOutput? ==> IsValidPointer(bindings[k].path)
    {
      var key :| key in rest;
      rest := rest - {key};
      if bindings[key].StepOutput? && !IsValidPointer(bindings[key].path) { ok := false; }
    }
  }

  datatype LiteralCheck = Matches | Differs | CheckRaises

  /** Whether a LITERAL for a parameter is the user's own id. */
  function MatchesExplicitId(request: StructuredRequest, param: string, literal: Json, target: string, floats: FloatText)
    : LiteralCheck
  {
    var explicit := ExplicitId(request);
    if !IsIdLike(param) || explicit == Null then Differs
    else
      var expected := Coerce(explicit, target, floats);
      if expected.Raises? then CheckRaises
      else
        var actual := Coerce(literal, target, floats);
        if actual.Raises? then CheckRaises
        else if expected.Coerced? && actual.Coerced? && SameValue(expected.value, actual.value) then Matches
        else Differs
  }

  /** One binding of tool_2; request is None when it could not be loaded. */
  function BindingCheck(input: Json, key: string, b: Binding, request: StructuredRequest, floats: FloatText): LiteralCheck {
    match b
    case StepOutput(step, path) => if step == TOOL_1 && "/" <= path then Matches else Differs
    case Literal(value) =>
      (match JsonType(Get(Get(input, "properties"), key))
       case None => Differs
       case Some(target) => MatchesExplicitId(request, key, value, target, floats))
    case OtherKind => Differs
  }

  predicate HasProperties(input: Json) {
    input.Obj? && Get(input, "type") == Str("object") && Get(input, "properties").Obj?
  }

  ghost predicate NamesFit(bindings: Bindings, input: Json) {
    && HasProperties(input)
    && (forall k :: k in bindings ==> k in Get(input, "properties").fields)
    && (forall r :: r in Required(input) ==> r in bindings)
  }

  /** The issues of tool_2's bindings; an error when a conversion raises. */
  method ValidateCompanionBindings(bindings: Bindings, input: Json, request: Option<StructuredRequest>, floats: FloatText)
    returns (result: Result<seq<Issue>>)
    ensures result == Ok([]) <==>
      && NamesFit(bindings, input)
      && (request.Some? ==> forall k :: k in bindings ==> BindingCheck(input, k, bindings[k], request.value, floats).Matches?)
    ensures result.Err? <==>
      && HasProperties(input) && request.Some?
      && exists k :: k in bindings && BindingCheck(input, k, bindings[k], request.value, floats).CheckRaises?
  {
    var failed := [];
    if !HasProperties(input) { return Ok([BindingInvalid]); }
    var unknown := exists k :: k in bindings && k !in Get(input, "properties").fields;
    if unknown { failed := failed + [BindingInvalid]; }
    var required := Required(input);
    for i := 0 to |required|
      invariant failed == [] <==> !unknown && forall j :: 0 <= j < i ==> required[j] in bindings
    {
      if required[i] !in bindings { failed := failed + [BindingInvalid]; }
    }
    assert failed == [] <==> NamesFit(bindings, input);
    if request.None? { return Ok(failed); }
    var rest := bindings.Keys;
    while rest != {}
      invariant rest <= bindings.Keys
      invariant failed == [] <==>
        && NamesFit(bindings, input)
        && forall k :: k in bindings && k !in rest ==> BindingCheck(input, k, bindings[k], request.value, floats).Matches?
      invariant forall k :: k in bindings && k !in rest ==> !BindingCheck(input, k, bindings[k], request.value, floats).CheckRaises?
    {
      var key :| key in rest;
      rest := rest - {key};
      var check := BindingCheck(input, key, bindings[key], request.value, floats);
      if check.CheckRaises? { return Err(ValidationError); }
      if check.Differs? { failed := failed + [BindingInvalid]; }
    }
    result := Ok(failed);
  }

  ghost predicate BindingsAccepted(bindings: Bindings, input: Json, request: StructuredRequest, floats: FloatText) {
    && NamesFit(bindings, input)
    && forall k :: k in bindings ==> BindingCheck(input, k, bindings[k], request, floats).Matches?
  }

  // ---- they agree ----------------------------------------------------------------------------------

  lemma ResolvedNamesFit(output: Json, input: Json, envelope: bool, h: Handoff, s: Source, b: Binding)
    requires Discovered(output, input, envelope, h, s)
    ensures NamesFit(map[h.targetParam := b], input)
    ensures JsonType(Get(Get(input, "properties"), h.targetParam)) == Some(h.targetType) && IsIdLike(h.targetParam)
  {
    hide IsIdLike, Offers, Path, JsonType, IdSchema;
    assert forall r :: r in Required(input) ==> r == h.targetParam;
  }

  /** For a discovered handoff, whatever bindings the generator resolves raise no issue. */
  lemma ResolvedBindingsAccepted(output: Json, input: Json, envelope: bool, h: Handoff, s: Source,
                                 request: StructuredRequest, floats: FloatText)
    requires Discovered(output, input, envelope, h, s) && floats.ShowsSomething()
    requires ResolveBindings(request, h, floats).Bound?
    ensures BindingsAccepted(ResolveBindings(request, h, floats).bindings, input, request, floats)
  {
    hide IsIdLike, Offers, Path, JsonType, IdSchema, Discovered, ExplicitId, NamesFit, Coerce, Print;
    var b := ResolveBindings(request, h, floats).bindings[h.targetParam];
    ResolvedNamesFit(output, input, envelope, h, s, b);
    if ExplicitId(request) != Null {
      CoerceIdempotent(ExplicitId(request), h.targetType, floats);
      assert MatchesExplicitId(request, h.targetParam, b.value, h.targetType, floats).Matches?;
    } else {
      PathStartsWithSlash(output, input, envelope, h, s);
    }
  }

  lemma PathStartsWithSlash(output: Json, input: Json, envelope: bool, h: Handoff, s: Source)
    requires Discovered(output, input, envelope, h, s)
    ensures h.fromPath == Print(Names(s, envelope)) && "/" <= h.fromPath
  {
    PathIsPrinted(s, envelope);
  }

  /** The plan built from them raises no shape issue either, except that a STEP_OUTPUT over a
      name that is empty or holds a hash makes a config that does not parse. */
  lemma BuiltPairAccepted(output: Json, input: Json, envelope: bool, h: Handoff, s: Source,
                          request: StructuredRequest, floats: FloatText, primary: Bindings)
    requires Discovered(output, input, envelope, h, s)
    requires ResolveBindings(request, h, floats).Bound?
    ensures IsPair(BuildPair(primary, ResolveBindings(request, h, floats).bindings), [TOOL_2], {TOOL_1, TOOL_2}) <==>
      ExplicitId(request) != Null || (Clean(s.collection) && Clean(s.id))
  {
    hide Discovered, ExplicitId, Coerce, Print, IsValidPointer, Clean, Names;
    var bindings := ResolveBindings(request, h, floats).bindings;
    PathStartsWithSlash(output, input, envelope, h, s);
    NamesClean(s, envelope);
    PrintOfNamesValid(s, envelope);
    assert h.targetParam in bindings;
  }

  lemma PrintOfNamesValid(s: Source, envelope: bool)
    ensures IsValidPointer(Print(Names(s, envelope))) <==> AllClean(Names(s, envelope))
  {
    var names := Names(s, envelope);
    if AllClean(names) { PrintParse(names); } else { NamesClean(s, envelope); UncleanRefused(names); }
  }

  /** An accepted LITERAL is the user's sole explicit id, up to the conversion both go through. */
  lemma AcceptedLiteralIsGrounded(bindings: Bindings, input: Json, request: StructuredRequest, floats: FloatText, key: string)
    requires BindingsAccepted(bindings, input, request, floats) && key in bindings && bindings[key].Literal?
    ensures IsIdLike(key) && JsonType(Properties(input)[key]).Some?
    ensures exists i ::
      && SoleGivenId(request.entities, i)
      && Grounds(request.entities[i].value, bindings[key].value, JsonType(Properties(input)[key]).value, floats)
  {
    hide Coerce, GivenId, IsIdLike;
    assert BindingCheck(input, key, bindings[key], request, floats).Matches?;
    ExplicitIdIsSole(request);
    var i :| SoleGivenId(request.entities, i);
    assert ExplicitId(request) == request.entities[i].value;
  }

  /** Both values convert to the target type, and to the same value. */
  predicate Grounds(id: Json, literal: Json, target: string, floats: FloatText) {
    && Coerce(id, target, floats).Coerced? && Coerce(literal, target, floats).Coerced?
    && SameValue(Coerce(id, target, floats).value, Coerce(literal, target, floats).value)
  }

  /** The generator raises on exactly the ids the conversion raises on. */
  lemma ResolutionFails(request: StructuredRequest, h: Handoff, floats: FloatText)
    ensures ResolveBindings(request, h, floats).ConversionRaises? <==>
      Unconvertible(ExplicitId(request), h.targetType)
  {
    CoerceRaises(ExplicitId(request), h.targetType, floats);
  }

  /** The validator raises on exactly the literals it has to convert, beside an id, where one
      of the two cannot be. */
  lemma CheckFails(input: Json, key: string, b: Binding, request: StructuredRequest, floats: FloatText)
    ensures BindingCheck(input, key, b, request, floats).CheckRaises? <==>
      && b.Literal? && IsIdLike(key) && ExplicitId(request) != Null
      && var target := JsonType(Get(Get(input, "properties"), key));
      && target.Some?
      && (Unconvertible(ExplicitId(request), target.value) || Unconvertible(b.value, target.value))
  {
    hide Coerce, Unconvertible, ExplicitId, IsIdLike, JsonType, Get;
    if b.Literal? && JsonType(Get(Get(input, "properties"), key)).Some? {
      var target := JsonType(Get(Get(input, "properties"), key)).value;
      CoerceRaises(ExplicitId(request), target, floats);
      CoerceRaises(b.value, target, floats);
    }
  }

  // ---- a handoff the validator refuses -------------------------------------------------------------

  function Typed(t: string): Json {
    Obj(map["type" := Str(t)])
  }

  function IdField(t: string): Json {
    Obj(map["type" := Str("object"), "properties" := Obj(map["id" := Typed(t)])])
  }

  function DetailInput(t: string): Json {
    Obj(map["type" := Str("object"), "properties" := Obj(map["id" := Typed(t)]), "required" := Arr([Str("id")])])
  }

  /** A list of objects with an id of the given type, under the given name. */
  function ListOutput(name: string, t: string): Json {
    Obj(map["type" := Str("object"), "properties" := Obj(map[name := Obj(map["type" := Str("array"), "items" := IdField(t)])])])
  }

  lemma TypeOf(t: string)
    requires t != "" && Bare(t, WhiteSpace)
    ensures JsonType(Typed(t)) == Some(t)
  {
    BareTrimmed(t, WhiteSpace);
    hide Strip;
  }

  lemma IdIsId()
    ensures Normalize("id") == "id" && IsIdLike("id") && IsIdName("id", "id")
  {
    hide EndsWith;
    assert "id"[1..] == "d" && "d"[1..] == "";
    assert "id" in ID_PARAM_NAMES;
  }

  lemma DetailRequired(t: string)
    ensures Required(DetailInput(t)) == ["id"] && Properties(DetailInput(t)) == map["id" := Typed(t)]
  {
    assert [Str("id")][1..] == [];
  }

  lemma ListSource(name: string, t: string)
    ensures var s := Source(name, "id");
      && Offers(ListOutput(name, t), "id", s) && IdSchema(ListOutput(name, t), s) == Typed(t)
      && forall other :: Offers(ListOutput(name, t), "id", other) ==> other == s
  {
    IdIsId();
    hide IsIdName;
    var output := ListOutput(name, t);
    assert Properties(output) == map[name := Obj(map["type" := Str("array"), "items" := IdField(t)])];
    assert Properties(IdField(t)) == map["id" := Typed(t)];
  }

  lemma ListDiscovered(name: string, t: string, envelope: bool)
    requires t in {"string", "integer", "number"}
    ensures Discovered(ListOutput(name, t), DetailInput(t), envelope,
                       Handoff("id", Path(Source(name, "id"), envelope), t, t), Source(name, "id"))
  {
    hide JsonType, IsIdLike, IsIdName, Path, Required, Normalize, Properties, Offers, IdSchema, DetailInput, ListOutput, Typed;
    IdIsId();
    BareType(t);
    TypeOf(t);
    DetailRequired(t);
    ListSource(name, t);
  }

  lemma BareType(t: string)
    requires t in {"string", "integer", "number"}
    ensures t != "" && Bare(t, WhiteSpace)
  {
  }

  /** For every name that is empty or holds a hash there is a discovered handoff whose path
      cannot be evaluated and whose plan the validator refuses. */
  lemma UncleanNameFails(name: string, t: string, envelope: bool, floats: FloatText)
    requires !Clean(name) && t in {"string", "integer", "number"}
    ensures var s := Source(name, "id");
      var h := Handoff("id", Path(s, envelope), t, t);
      var request := StructuredRequest([], true);
      && Discovered(ListOutput(name, t), DetailInput(t), envelope, h, s)
      && PointerTokens(h.fromPath).Err?
      && ResolveBindings(request, h, floats).Bound?
      && !IsPair(BuildPair(map[], ResolveBindings(request, h, floats).bindings), [TOOL_2], {TOOL_1, TOOL_2})
  {
    var s := Source(name, "id");
    var h := Handoff("id", Path(s, envelope), t, t);
    ListDiscovered(name, t, envelope);
    hide Discovered, Path, Clean, IsPair, Names, Print, Coerce;
    PathStartsWithSlash(ListOutput(name, t), DetailInput(t), envelope, h, s);
    NamesClean(s, envelope);
    UncleanRefused(Names(s, envelope));
    BuiltPairAccepted(ListOutput(name, t), DetailInput(t), envelope, h, s, StructuredRequest([], true), floats, map[]);
  }
}

/** What the conversion of an id gives, and what the generator binds and the validator accepts,
    in terms of the request. */
module PairLaws {
  import opened ExecutionRows
  import opened Text
  import opened JsonPointer
  import opened Handoff
  import opened PairPlan

  // ---- conversion ------------------------------------------------------------------------

  /** The decimal numeral of an integer. */
  function Numeral(n: int): string {
    if n < 0 then "-" + Digits(-n) else Digits(n)
  }

  predicate Short(n: int) {
    |Digits(Magnitude(n))| <= 4300
  }

  /** Text around which there is only white space reads back as the integer it is the numeral of. */
  lemma NumeralReadsBack(n: int, text: string, floats: FloatText)
    requires Short(n) && Strip(text) == Numeral(n)
    ensures Coerce(Str(text), "integer", floats) == Coerced(Int(n))
    ensures Coerce(Int(n), "string", floats) == Coerced(Str(Numeral(n)))
  {
    var digits := Digits(Magnitude(n));
    ParseDigits(Magnitude(n));
    hide Coerce, ParseNat, IsDecimal, DigitValue, Strip, CoerceText;
    TextReads(text, digits, n < 0);
    ByTarget(text, n, floats);
  }

  lemma ByTarget(text: string, n: int, floats: FloatText)
    ensures Coerce(Str(text), "integer", floats) == CoerceText(text)
    ensures Coerce(Int(n), "string", floats) == ShowInt(n)
  {
    hide CoerceText, ShowInt;
  }

  lemma TextReads(text: string, digits: string, negative: bool)
    requires Readable(digits) && digits[0] != '-' && Strip(text) == if negative then "-" + digits else digits
    ensures CoerceText(text) == Coerced(Int(if negative then 0 - ParseNat(digits) else ParseNat(digits)))
  {
    hide DigitValue, OtherDigit, Strip, ParseNat, IsDigits, IsDecimal, DropDashes;
    SignedDigits(digits);
  }

  lemma SignedDigits(digits: string)
    requires IsDecimal(digits) && digits[0] != '-'
    ensures DropDashes(digits) == digits && DropDashes("-" + digits) == digits && ("-" + digits)[1..] == digits
    ensures IsDigits(digits)
  {
    hide DigitValue, OtherDigit;
    assert ("-" + digits)[1..] == digits;
  }

  /** And only such text does, where it has ASCII digits and no zeros in front. */
  lemma OnlyNumeralsRead(n: int, text: string, floats: FloatText)
    requires Ascii(DropDashes(Strip(text))) && (DropDashes(Strip(text)) != "" ==> DropDashes(Strip(text))[0] != '0')
    requires Coerce(Str(text), "integer", floats) == Coerced(Int(n))
    ensures Strip(text) == Numeral(n)
  {
    hide DigitValue, OtherDigit, Strip;
    var t := Strip(text);
    DashesDropped(t);
    DigitsOfNumeral(DropDashes(t));
    if t[0] == '-' { assert t == "-" + t[1..]; }
  }

  lemma DigitsOfNumeral(digits: string)
    requires Ascii(digits) && IsDigits(digits) && digits[0] != '0'
    ensures ParseNat(digits) > 0 && Digits(ParseNat(digits)) == digits
  {
    AsciiDigits(digits);
    DigitsParse(digits);
    ParseDigits(ParseNat(digits));
  }

  /** What a value converts to is of the type asked for. */
  predicate IsOf(v: Json, target: string) {
    match target
    case "integer" => v.Int?
    case "number" => v.Int? || v.Float?
    case "string" => v.Str?
    case _ => false
  }

  /** The other conversions: what is of the type stays, whole numbers become integers, numbers
      become text, and everything else is unusable. */
  lemma CoerceTable(v: Json, target: string, floats: FloatText)
    ensures var c := Coerce(v, target, floats);
      && (c.Coerced? ==> IsOf(c.value, target))
      && (IsOf(v, target) && !(v.Str? && Strip(v.s) == "") ==> c == Coerced(v))
      && (v.Float? && target == "string" ==> c == Coerced(Str(floats.show(v.x))))
      && (v.Str? && target == "number" ==>
            c == if floats.parse(Strip(v.s)).Some? then Coerced(Float(floats.parse(Strip(v.s)).value)) else Unusable)
      && (v.Str? && target == "integer" && !IsDigits(DropDashes(Strip(v.s))) ==> c.Unusable?)
      && (v.Str? && target == "string" && Strip(v.s) == "" ==> c.Unusable?)
      && (v.Null? || v.Bool? || v.Arr? || v.Obj? || target !in {"integer", "number", "string"} ==> c.Unusable?)
  {
    hide IsDigits, DropDashes, Strip, Readable, ParseNat;
  }

  lemma WholeNumbersOnly(x: real, n: int, floats: FloatText)
    ensures Coerce(Float(x), "integer", floats) == Coerced(Int(n)) <==> n as real == x
    ensures !Coerce(Float(x), "integer", floats).Raises?
  {
    assert (n as real).Floor == n;
  }

  // ---- ids ---------------------------------------------------------------------------------

  lemma {:induction false} NormalizedHasNoSeparator(name: string)
    ensures forall k :: 0 <= k < |Normalize(name)| ==> !IsSeparator(Normalize(name)[k])
  {
    if name != "" { NormalizedHasNoSeparator(name[1..]); }
  }

  const ID_WORDS: set<string> := {"id", "petid", "itemid", "entityid", "objectid"}

  predicate EndsLikeId(name: string) {
    |name| > 2 && (EndsWith(name, "_id") || EndsWith(name, "-id") || EndsWith(name, "Id"))
  }

  lemma IdNames(word: string)
    ensures word in ID_PARAM_NAMES && (forall k :: 0 <= k < |word| ==> !IsSeparator(word[k])) <==> word in ID_WORDS
    ensures word in ID_WORDS ==> IsWord(word)
  {
    if word in ID_PARAM_NAMES && word !in ID_WORDS {
      assert IsSeparator(word[|word| - 3]);
    }
  }

  /** A name is id-like when it spells one of five words or ends like an id; the listed names
      with an underscore in them add nothing. */
  lemma IdLikeMeans(name: string)
    ensures IsIdLike(name) <==> EndsLikeId(name) || exists word :: word in ID_WORDS && Spells(name, word)
  {
    hide EndsWith;
    NormalizedHasNoSeparator(name);
    IdNames(Normalize(name));
    if Normalize(name) in ID_WORDS { SpellsMeans(name, Normalize(name)); }
    if word :| word in ID_WORDS && Spells(name, word) {
      IdNames(word);
      SpellsMeans(name, word);
    }
  }

  /** A field is an id for the parameter when it spells "id" or has the parameter's own letters. */
  lemma IdNameMeans(name: string, target: string)
    ensures IsIdName(name, target) <==> Spells(name, "id") || SameName(name, target)
  {
    SpellsMeans(name, "id");
    SameNameMeans(name, target);
  }

  function AsReal(v: Json): real {
    match v
    case Int(n) => n as real
    case Float(x) => x
    case _ => 0.0
  }

  /** Numbers are compared by value, whatever their kind. */
  lemma SameValueMeans(a: Json, b: Json)
    ensures SameValue(a, b) <==> a == b || ((a.Int? || a.Float?) && (b.Int? || b.Float?) && AsReal(a) == AsReal(b))
  {
  }

  /** An id the user gave or confirmed, by its fields. */
  ghost predicate UsersId(e: Entity) {
    && (e.source.UserExplicit? || e.source.ConversationConfirmed?)
    && (EndsLikeId(e.name) || exists word :: word in ID_WORDS && Spells(e.name, word))
  }

  lemma GivenIdMeans(e: Entity)
    ensures GivenId(e) <==> UsersId(e)
  {
    IdLikeMeans(e.name);
    hide IsIdLike, EndsLikeId, Spells, ID_WORDS;
  }

  // ---- what is offered -----------------------------------------------------------------------

  /** A schema of an object with named properties. */
  predicate ObjectSchema(j: Json) {
    && j.Obj? && "type" in j.fields && j.fields["type"] == Str("object")
    && "properties" in j.fields && j.fields["properties"].Obj?
  }

  predicate ArraySchema(j: Json) {
    j.Obj? && "type" in j.fields && j.fields["type"] == Str("array") && "items" in j.fields
  }

  /** An output offers an id when one of its properties is an array of objects and one of their
      properties is named like an id. */
  lemma OffersMeans(output: Json, target: string, s: Source)
    ensures Offers(output, target, s) <==>
      && ObjectSchema(output) && s.collection in output.fields["properties"].fields
      && var list := output.fields["properties"].fields[s.collection];
      && ArraySchema(list) && ObjectSchema(list.fields["items"])
      && s.id in list.fields["items"].fields["properties"].fields
      && (Spells(s.id, "id") || SameName(s.id, target))
  {
    IdNameMeans(s.id, target);
    hide IsIdName, Spells, SameName;
  }

  lemma TypeMeans(schema: Json, t: string)
    ensures JsonType(schema) == Some(t) <==>
      schema.Obj? && "type" in schema.fields && schema.fields["type"].Str? && t != "" && Strip(schema.fields["type"].s) == t
  {
    hide Strip;
  }

  // ---- the pair and its names --------------------------------------------------------------

  /** The validator takes the shape of a plan for a pair exactly when the generator could have
      built it, with bindings that parse, and its response and references are those of a pair. */
  lemma PairIsBuilt(steps: seq<PairStep>, responses: seq<string>, refs: set<string>)
    requires |steps| == 2
    ensures IsPair(steps, responses, refs) <==>
      && (exists primary, companion :: steps == BuildPair(primary, companion))
      && ParsesAsToolConfig(steps[1].bindings) && responses == ["tool_2"] && refs == {"tool_1", "tool_2"}
  {
    hide ParsesAsToolConfig;
    if IsPair(steps, responses, refs) { assert steps == BuildPair(steps[0].bindings, steps[1].bindings); }
  }

  lemma {:induction false} StringsMember(items: seq<Json>, x: string)
    ensures x in Strings(items) <==> Str(x) in items
  {
    if items != [] { StringsMember(items[1..], x); }
  }

  /** The names of a Tool's bindings fit when they are declared inputs, all the required ones
      among them. */
  lemma NamesFitMeans(bindings: Bindings, input: Json)
    ensures NamesFit(bindings, input) <==>
      && input.Obj? && Get(input, "type") == Str("object") && Get(input, "properties").Obj?
      && bindings.Keys <= Get(input, "properties").fields.Keys
      && (Get(input, "required").Arr? ==> forall r :: Str(r) in Get(input, "required").items ==> r in bindings)
  {
    if Get(input, "required").Arr? {
      forall r ensures r in Required(input) <==> Str(r) in Get(input, "required").items {
        StringsMember(Get(input, "required").items, r);
      }
    }
  }

  // ---- what is bound -----------------------------------------------------------------------

  /** The user has given one id, and this is it. */
  ghost predicate TheId(request: StructuredRequest, value: Json) {
    value != Null && exists i :: SoleGivenId(request.entities, i) && request.entities[i].value == value
  }

  lemma TheIdMeans(request: StructuredRequest)
    ensures forall value :: TheId(request, value) <==> value != Null && ExplicitId(request) == value
  {
    hide GivenId;
    ExplicitIdIsSole(request);
    forall value | value != Null && ExplicitId(request) == value ensures TheId(request, value) {
      var i :| SoleGivenId(request.entities, i);
    }
  }

  /** The generator binds the user's own id, converted to the type of the parameter, if there is
      one; the first item's only when there is none and it was asked for; and nothing else. */
  lemma ResolvedMeans(request: StructuredRequest, h: Handoff, floats: FloatText)
    ensures var r := ResolveBindings(request, h, floats);
      && (r.Bound? ==> r.bindings.Keys == {h.targetParam})
      && (forall value :: TheId(request, value) ==>
            var c := Coerce(value, h.targetType, floats);
            && (c.Coerced? <==> r.Bound?) && (c.Unusable? <==> r.NotResolved?)
            && (r.Bound? ==> r.bindings[h.targetParam] == Literal(c.value) && IsOf(c.value, h.targetType)))
      && ((forall value :: !TheId(request, value)) ==>
            && (r.Bound? <==> request.asksFirstItem) && (r.NotResolved? <==> !request.asksFirstItem)
            && (r.Bound? ==> r.bindings[h.targetParam] == StepOutput("tool_1", h.fromPath)))
  {
    TheIdMeans(request);
    CoerceTable(ExplicitId(request), h.targetType, floats);
    hide Coerce, TheId, ExplicitId;
    if ExplicitId(request) != Null { assert TheId(request, ExplicitId(request)); }
  }

  /** The validator accepts a binding exactly when it takes an output of tool_1, or is the
      user's own id up to the conversion to the type of the parameter. */
  lemma BindingMeans(input: Json, key: string, b: Binding, request: StructuredRequest, floats: FloatText)
    ensures BindingCheck(input, key, b, request, floats).Matches? <==>
      || (b.StepOutput? && b.step == "tool_1" && b.path != "" && b.path[0] == '/')
      || (b.Literal? && IsIdLike(key)
          && var target := JsonType(Get(Get(input, "properties"), key));
             target.Some? && exists value :: TheId(request, value) && Grounds(value, b.value, target.value, floats))
  {
    hide IsIdLike, TheId, ExplicitId, JsonType;
    if b.Literal? && JsonType(Get(Get(input, "properties"), key)).Some? {
      var target := JsonType(Get(Get(input, "properties"), key)).value;
      CoerceTable(ExplicitId(request), target, floats);
      GroundedInTheId(request, b.value, target, floats);
      hide Coerce;
    }
  }

  lemma GroundedInTheId(request: StructuredRequest, literal: Json, target: string, floats: FloatText)
    ensures (exists value :: TheId(request, value) && Grounds(value, literal, target, floats)) <==>
      ExplicitId(request) != Null && Grounds(ExplicitId(request), literal, target, floats)
  {
    TheIdMeans(request);
    hide TheId, Grounds, ExplicitId;
    if ExplicitId(request) != Null && Grounds(ExplicitId(request), literal, target, floats) {
      assert TheId(request, ExplicitId(request));
    }
  }

  /** The kinds of value a type of JSON Schema may have to offer. */
  function Sample(kind: nat): Json {
    if kind == 0 then Null else if kind == 1 then Bool(true) else if kind == 2 then Int(1) else if kind == 3 then Float(0.5)
    else if kind == 4 then Str("a") else if kind == 5 then Arr([]) else Obj(map[])
  }

  /** A source fits exactly when every value of its type is one of the target's. */
  lemma CompatibleMeans(source: string, target: string)
    requires target in {"string", "integer", "number"}
    ensures Compatible(source, target) <==> forall v :: HasType(v, source) ==> HasType(v, target)
  {
    if forall v :: HasType(v, source) ==> HasType(v, target) {
      assert forall kind | 0 <= kind < 7 :: HasType(Sample(kind), source) ==> HasType(Sample(kind), target);
      assert Sample(0) == Null && Sample(2) == Int(1) && Sample(3) == Float(0.5) && Sample(4) == Str("a");
      assert (0.5).Floor as real != 0.5;
      assert Sample(1) == Bool(true) && Sample(5) == Arr([]) && Sample(6) == Obj(map[]);
    }
  }

  /** What is handed over fits: where the output schema spells its type plainly, the first
      item's id is of the type the second Tool asks for. */
  lemma HandedOverFits(output: Json, input: Json, envelope: bool, h: Handoff, s: Source, body: Json)
    requires Discovered(output, input, envelope, h, s) && Conforms(body, output) && FirstId(body, s).Some?
    requires Get(IdSchema(output, s), "type") == Str(h.sourceType)
    ensures HasType(FirstId(body, s).value, h.targetType)
  {
    OffersShape(output, h.targetParam, s, body);
    hide Offers, Path, IsIdLike, JsonType, FirstId;
  }
}

/** Renaming a request's entities to the inputs a Tool requires, and what coverage and the
    selection decision make of it.  fold is case folding, taken as given. */
module EntityAlignment {
  import opened ExecutionRows
  import opened Text
  import opened JsonPointer
  import opened Handoff
  import opened PlanningPipeline

  type Fold = string -> string

  datatype Mapping = Mapping(fromName: string, toInput: string)

  /** Folding keeps text that is there. */
  ghost predicate FoldsText(fold: Fold) {
    forall s :: fold(s) == "" <==> s == ""
  }

  // ---- keys ------------------------------------------------------------------------------------

  function Key(name: string, fold: Fold): string {
    fold(Strip(name))
  }

  /** Some entity with a name goes by key k. */
  ghost predicate Present(es: seq<Entity>, k: string, fold: Fold) {
    exists i :: 0 <= i < |es| && NamedBy(es[i], k, fold)
  }

  predicate NamedBy(e: Entity, k: string, fold: Fold) {
    Strip(e.name) != "" && Key(e.name, fold) == k
  }

  ghost predicate Twice(es: seq<Entity>, k: string, fold: Fold) {
    exists i, j :: 0 <= i < j < |es| && NamedBy(es[i], k, fold) && NamedBy(es[j], k, fold)
  }

  lemma NoNames(fold: Fold)
    ensures forall k :: !Present([], k, fold) && !Twice([], k, fold)
  {
  }

  /** No two entities with a name go by the same key. */
  ghost predicate DistinctNames(es: seq<Entity>, fold: Fold) {
    forall k :: !Twice(es, k, fold)
  }

  function PresentKeys(es: seq<Entity>, fold: Fold): (r: set<string>)
    ensures forall k :: k in r <==> Present(es, k, fold)
  {
    set i | 0 <= i < |es| && NamedBy(es[i], Key(es[i].name, fold), fold) :: Key(es[i].name, fold)
  }

  function Claimed(names: seq<string>, fold: Fold): set<string> {
    set i | 0 <= i < |names| && Strip(names[i]) != "" :: Key(names[i], fold)
  }

  function Inputs(names: seq<string>): seq<string> {
    if names == [] then []
    else (if Strip(names[0]) != "" then [Strip(names[0])] else []) + Inputs(names[1..])
  }

  /** The required inputs no entity is named after. */
  function Missing(inputs: seq<string>, present: set<string>, fold: Fold): seq<string> {
    if inputs == [] then []
    else (if fold(inputs[0]) !in present then [inputs[0]] else []) + Missing(inputs[1..], present, fold)
  }

  method MissingRequired(required: seq<string>, es: seq<Entity>, fold: Fold) returns (missing: seq<string>)
    ensures missing == Missing(Inputs(required), PresentKeys(es, fold), fold)
  {
    hide Strip, Present, Inputs, Missing, Key, NamedBy;
    var present := PresentKeys(es, fold);
    assert required[0..] == required && required[|required|..] == [];
    NoInputs(present, fold);
    missing := [];
    for k := 0 to |required|
      invariant Missing(Inputs(required), present, fold) == missing + Missing(Inputs(required[k..]), present, fold)
    {
      var cleaned := Strip(required[k]);
      InputsStep(required, k, present, fold);
      if cleaned != "" && fold(cleaned) !in present { missing := missing + [cleaned]; }
    }
  }

  lemma NoInputs(present: set<string>, fold: Fold)
    ensures Missing(Inputs([]), present, fold) == []
  {
  }

  lemma InputsStep(required: seq<string>, k: nat, present: set<string>, fold: Fold)
    requires k < |required|
    ensures var cleaned, rest := Strip(required[k]), Missing(Inputs(required[k + 1..]), present, fold);
      Missing(Inputs(required[k..]), present, fold) ==
        (if cleaned != "" && fold(cleaned) !in present then [cleaned] else []) + rest
  {
    hide Strip;
    var cleaned, rest := Strip(required[k]), Inputs(required[k + 1..]);
    assert required[k..][1..] == required[k + 1..];
    if cleaned != "" { assert ([cleaned] + rest)[1..] == rest; }
    else { assert Inputs(required[k..]) == rest; }
  }

  lemma {:induction false} MissingMember(inputs: seq<string>, present: set<string>, fold: Fold, x: string)
    ensures x in Missing(inputs, present, fold) <==> x in inputs && fold(x) !in present
  {
    if inputs != [] { MissingMember(inputs[1..], present, fold, x); }
  }

  // ---- which entities may be renamed -----------------------------------------------------------

  /** The entity by key k is the user's own, has no namesake and is not an input already. */
  ghost predicate Mappable(es: seq<Entity>, claimed: set<string>, k: string, fold: Fold) {
    && k !in claimed && !Twice(es, k, fold)
    && exists i :: 0 <= i < |es| && NamedBy(es[i], k, fold) && es[i].source.UserExplicit?
  }

  method DuplicateKeys(es: seq<Entity>, fold: Fold) returns (duplicates: set<string>)
    ensures forall k :: k in duplicates <==> Twice(es, k, fold)
  {
    hide Strip, Present, Twice;
    NoNames(fold);
    var counts: map<string, nat> := map[];
    duplicates := {};
    for i := 0 to |es|
      invariant forall k :: k in counts <==> Present(es[..i], k, fold)
      invariant forall k :: k in duplicates <==> Twice(es[..i], k, fold)
      invariant forall k :: k in counts ==> (counts[k] > 1 <==> k in duplicates)
      invariant forall k :: k in counts ==> counts[k] >= 1
      invariant duplicates <= counts.Keys
    {
      forall k
        ensures Present(es[..i + 1], k, fold) <==> Present(es[..i], k, fold) || NamedBy(es[i], k, fold)
        ensures Twice(es[..i + 1], k, fold) <==> Twice(es[..i], k, fold) || (NamedBy(es[i], k, fold) && Present(es[..i], k, fold))
      {
        OneMoreName(es, i, k, fold);
      }
      var name := Strip(es[i].name);
      if name != "" {
        var k := fold(name);
        counts := counts[k := (if k in counts then counts[k] else 0) + 1];
        if counts[k] > 1 { duplicates := duplicates + {k}; }
      }
    }
    assert es[..|es|] == es;
  }

  lemma OneMoreName(es: seq<Entity>, i: nat, k: string, fold: Fold)
    requires i < |es|
    ensures Present(es[..i + 1], k, fold) <==> Present(es[..i], k, fold) || NamedBy(es[i], k, fold)
    ensures Twice(es[..i + 1], k, fold) <==> Twice(es[..i], k, fold) || (NamedBy(es[i], k, fold) && Present(es[..i], k, fold))
  {
    hide NamedBy;
    var more := es[..i + 1];
    assert forall j :: 0 <= j < i ==> more[j] == es[..i][j];
    assert more[i] == es[i];
  }

  /** The keys of entities that may be renamed. */
  method MappableKeys(es: seq<Entity>, claimed: set<string>, duplicates: set<string>, fold: Fold) returns (keys: set<string>)
    requires forall k :: k in duplicates <==> Twice(es, k, fold)
    ensures forall k :: k in keys <==> Mappable(es, claimed, k, fold)
  {
    hide Strip, Twice;
    keys := {};
    for i := 0 to |es|
      invariant forall k :: k in keys <==>
        && k !in claimed && k !in duplicates
        && exists j :: 0 <= j < i && NamedBy(es[j], k, fold) && es[j].source.UserExplicit?
    {
      var name := Strip(es[i].name);
      if name != "" && es[i].source.UserExplicit? && fold(name) !in claimed && fold(name) !in duplicates {
        keys := keys + {fold(name)};
      }
    }
  }

  // ---- the alignment -----------------------------------------------------------------------------

  /** A key of a missing required input. */
  ghost predicate Wanted(missing: seq<string>, k: string, fold: Fold) {
    exists i :: 0 <= i < |missing| && fold(missing[i]) == k
  }

  ghost predicate MappingFits(es: seq<Entity>, m: Mapping, claimed: set<string>, missing: seq<string>, fold: Fold) {
    Mappable(es, claimed, fold(m.fromName), fold) && Wanted(missing, fold(m.toInput), fold)
  }

  predicate Apart(m: Mapping, n: Mapping, fold: Fold) {
    fold(m.fromName) != fold(n.fromName) && fold(m.toInput) != fold(n.toInput)
  }

  ghost predicate MappingsFit(es: seq<Entity>, mappings: seq<Mapping>, claimed: set<string>, missing: seq<string>, fold: Fold) {
    && (forall i :: 0 <= i < |mappings| ==> MappingFits(es, mappings[i], claimed, missing, fold))
    && (forall i, j | 0 <= i < j < |mappings| :: Apart(mappings[i], mappings[j], fold))
  }

  ghost predicate Renames(rename: map<string, string>, m: Mapping, fold: Fold) {
    fold(m.fromName) in rename && fold(rename[fold(m.fromName)]) == fold(m.toInput)
  }

  /** The mappings as renamings: old key to the missing input it stands for. */
  ghost predicate IsRename(rename: map<string, string>, mappings: seq<Mapping>, missing: seq<string>, fold: Fold) {
    && (forall i :: 0 <= i < |mappings| ==> Renames(rename, mappings[i], fold))
    && (forall k :: k in rename ==> rename[k] in missing)
    && (forall k :: k in rename ==> exists i :: 0 <= i < |mappings| && fold(mappings[i].fromName) == k)
  }

  method CanonicalNames(missing: seq<string>, fold: Fold) returns (canonical: map<string, string>)
    ensures forall c :: c in canonical <==> Wanted(missing, c, fold)
    ensures forall c :: c in canonical ==> fold(canonical[c]) == c && canonical[c] in missing
  {
    canonical := map[];
    for k := 0 to |missing|
      invariant forall c :: c in canonical <==> exists j :: 0 <= j < k && fold(missing[j]) == c
      invariant forall c :: c in canonical ==> fold(canonical[c]) == c && canonical[c] in missing
    {
      canonical := canonical[fold(missing[k]) := missing[k]];
    }
  }

  method CollectRenames(es: seq<Entity>, mappings: seq<Mapping>, keys: set<string>, claimed: set<string>,
                        missing: seq<string>, fold: Fold)
    returns (rename: Option<map<string, string>>)
    requires forall k :: k in keys <==> Mappable(es, claimed, k, fold)
    ensures rename.Some? <==> MappingsFit(es, mappings, claimed, missing, fold)
    ensures rename.Some? ==> IsRename(rename.value, mappings, missing, fold)
  {
    hide Mappable, Wanted, MappingsFit, IsRename;
    var canonical := CanonicalNames(missing, fold);
    var used: set<string> := {};
    var renames: map<string, string> := map[];
    NoMappings(es, claimed, missing, fold);
    for k := 0 to |mappings|
      invariant used == set j | 0 <= j < k :: fold(mappings[j].toInput)
      invariant renames.Keys == set j | 0 <= j < k :: fold(mappings[j].fromName)
      invariant MappingsFit(es, mappings[..k], claimed, missing, fold)
      invariant IsRename(renames, mappings[..k], missing, fold)
    {
      var fromKey, toKey := fold(mappings[k].fromName), fold(mappings[k].toInput);
      OneMoreMapping(es, mappings, k, claimed, missing, fold);
      if fromKey in renames || toKey in used || fromKey !in keys || toKey !in canonical { return None; }
      OneMoreRename(renames, mappings, k, canonical[toKey], missing, fold);
      used := used + {toKey};
      renames := renames[fromKey := canonical[toKey]];
    }
    assert mappings[..|mappings|] == mappings;
    rename := Some(renames);
  }

  lemma NoMappings(es: seq<Entity>, claimed: set<string>, missing: seq<string>, fold: Fold)
    ensures MappingsFit(es, [], claimed, missing, fold) && IsRename(map[], [], missing, fold)
  {
  }

  lemma OneMoreMapping(es: seq<Entity>, mappings: seq<Mapping>, k: nat, claimed: set<string>, missing: seq<string>, fold: Fold)
    requires k < |mappings| && MappingsFit(es, mappings[..k], claimed, missing, fold)
    ensures MappingsFit(es, mappings[..k + 1], claimed, missing, fold) <==>
      MappingFits(es, mappings[k], claimed, missing, fold) && forall j :: 0 <= j < k ==> Apart(mappings[j], mappings[k], fold)
    ensures MappingsFit(es, mappings, claimed, missing, fold) ==> MappingsFit(es, mappings[..k + 1], claimed, missing, fold)
  {
    hide MappingFits, Apart;
    var more := mappings[..k + 1];
    assert more[k] == mappings[k] && forall j :: 0 <= j < k ==> more[j] == mappings[..k][j];
  }

  lemma OneMoreRename(rename: map<string, string>, mappings: seq<Mapping>, k: nat, input: string, missing: seq<string>, fold: Fold)
    requires k < |mappings| && IsRename(rename, mappings[..k], missing, fold)
    requires fold(mappings[k].fromName) !in rename && fold(input) == fold(mappings[k].toInput) && input in missing
    ensures IsRename(rename[fold(mappings[k].fromName) := input], mappings[..k + 1], missing, fold)
  {
    var more := mappings[..k + 1];
    assert more[k] == mappings[k];
    forall i | 0 <= i < k + 1 ensures Renames(rename[fold(mappings[k].fromName) := input], more[i], fold) {
      if i < k { assert Renames(rename, mappings[..k][i], fold); }
    }
    forall c | c in rename ensures exists i :: 0 <= i < k + 1 && fold(more[i].fromName) == c {
      var i :| 0 <= i < k && fold(mappings[..k][i].fromName) == c;
      assert more[i] == mappings[..k][i];
    }
  }

  function RenamedTo(e: Entity, rename: map<string, string>, fold: Fold): Entity {
    if Key(e.name, fold) in rename then e.(name := rename[Key(e.name, fold)], source := UserExplicit) else e
  }

  function Renamed(es: seq<Entity>, rename: map<string, string>, fold: Fold): (r: seq<Entity>)
    ensures |r| == |es| && forall i :: 0 <= i < |es| ==> r[i] == RenamedTo(es[i], rename, fold)
  {
    seq(|es|, i requires 0 <= i < |es| => RenamedTo(es[i], rename, fold))
  }

  ghost predicate ExplicitRenames(es: seq<Entity>, rename: map<string, string>, fold: Fold) {
    forall i :: 0 <= i < |es| && Key(es[i].name, fold) in rename ==> es[i].source.UserExplicit?
  }

  /** The renamed entities, unless two of them would share a name. */
  method Rebuild(es: seq<Entity>, rename: map<string, string>, fold: Fold) returns (out: Option<seq<Entity>>)
    requires FoldsText(fold)
    ensures out.Some? <==> DistinctNames(Renamed(es, rename, fold), fold) && ExplicitRenames(es, rename, fold)
    ensures out.Some? ==> out.value == Renamed(es, rename, fold)
  {
    hide Strip, Twice, Present;
    var all: seq<Entity> := [];
    var seen: set<string> := {};
    NoNames(fold);
    for i := 0 to |es|
      invariant all == Renamed(es, rename, fold)[..i]
      invariant forall k :: k in seen <==> Present(all, k, fold)
      invariant forall k :: !Twice(all, k, fold)
      invariant forall j :: 0 <= j < i && Key(es[j].name, fold) in rename ==> es[j].source.UserExplicit?
    {
      var e := RenamedTo(es[i], rename, fold);
      var key := Key(e.name, fold);
      ghost var whole := Renamed(es, rename, fold);
      ghost var more := whole[..i + 1];
      forall k
        ensures Present(more, k, fold) <==> Present(all, k, fold) || NamedBy(e, k, fold)
        ensures Twice(more, k, fold) <==> Twice(all, k, fold) || (NamedBy(e, k, fold) && Present(all, k, fold))
      {
        OneMoreName(whole, i, k, fold);
      }
      assert more == all + [e];
      assert forall k :: NamedBy(e, k, fold) <==> key != "" && k == key;
      if Key(es[i].name, fold) in rename && !es[i].source.UserExplicit? { return None; }
      if key != "" && key in seen {
        TwiceLater(whole, i + 1, key, fold);
        return None;
      }
      if key != "" { seen := seen + {key}; }
      all := all + [e];
    }
    assert all == Renamed(es, rename, fold);
    out := Some(all);
  }

  lemma TwiceLater(es: seq<Entity>, n: nat, k: string, fold: Fold)
    requires n <= |es| && Twice(es[..n], k, fold)
    ensures Twice(es, k, fold)
  {
    var i, j :| 0 <= i < j < n && NamedBy(es[..n][i], k, fold) && NamedBy(es[..n][j], k, fold);
    assert NamedBy(es[i], k, fold) && NamedBy(es[j], k, fold);
  }

  lemma {:induction false} InputsStripped(names: seq<string>, x: string)
    requires x in Inputs(names)
    ensures x != "" && Strip(x) == x
  {
    hide Strip;
    if Strip(names[0]) != "" && x == Strip(names[0]) { StripTwice(names[0]); } else { InputsStripped(names[1..], x); }
  }

  // ---- the alignment as a whole --------------------------------------------------------------------

  ghost predicate Alignable(es: seq<Entity>, mappings: seq<Mapping>, required: seq<string>, optional: seq<string>, fold: Fold) {
    && mappings != []
    && MappingsFit(es, mappings, Claimed(required, fold) + Claimed(optional, fold),
                   Missing(Inputs(required), PresentKeys(es, fold), fold), fold)
    && DistinctNames(es, fold)
  }

  /** One-to-one renames of the user's own entities to missing inputs; all or nothing.  The
      check against names that remain can never refuse: a missing input is nobody's name. */
  method ApplyAlignments(es: seq<Entity>, mappings: seq<Mapping>, required: seq<string>, optional: seq<string>, fold: Fold)
    returns (out: Option<seq<Entity>>, ghost rename: map<string, string>)
    requires FoldsText(fold)
    ensures out.Some? <==> Alignable(es, mappings, required, optional, fold)
    ensures out.Some? ==> out.value == Renamed(es, rename, fold) && DistinctNames(out.value, fold)
    ensures out.Some? ==> ExplicitRenames(es, rename, fold)
    ensures out.Some? ==> IsRename(rename, mappings, Missing(Inputs(required), PresentKeys(es, fold), fold), fold)
  {
    hide Mappable, MappingsFit, IsRename, DistinctNames, Renamed, Missing, Inputs, Claimed, ExplicitRenames;
    rename := map[];
    out := None;
    if mappings == [] { return; }
    var duplicates := DuplicateKeys(es, fold);
    var missing := MissingRequired(required, es, fold);
    var claimed := Claimed(required, fold) + Claimed(optional, fold);
    var keys := MappableKeys(es, claimed, duplicates, fold);
    var renames := CollectRenames(es, mappings, keys, claimed, missing, fold);
    if renames.None? { return; }
    rename := renames.value;
    RenameKeeps(es, mappings, required, claimed, rename, fold);
    var targets := set m | m in mappings :: fold(m.toInput);
    var remaining := PresentKeys(es, fold) - renames.value.Keys;
    TargetsFree(es, mappings, required, claimed, fold);
    if targets * remaining != {} { return; }
    out := Rebuild(es, renames.value, fold);
  }

  /** No target is a name already in use. */
  lemma TargetsFree(es: seq<Entity>, mappings: seq<Mapping>, required: seq<string>, claimed: set<string>, fold: Fold)
    requires MappingsFit(es, mappings, claimed, Missing(Inputs(required), PresentKeys(es, fold), fold), fold)
    ensures forall m :: m in mappings ==> fold(m.toInput) !in PresentKeys(es, fold)
  {
    var present := PresentKeys(es, fold);
    var missing := Missing(Inputs(required), present, fold);
    forall m | m in mappings ensures fold(m.toInput) !in present {
      var i :| 0 <= i < |mappings| && mappings[i] == m;
      assert MappingFits(es, mappings[i], claimed, missing, fold);
      var j :| 0 <= j < |missing| && fold(missing[j]) == fold(m.toInput);
      MissingMember(Inputs(required), present, fold, missing[j]);
    }
  }

  /** The keys of an entity after renaming. */
  lemma KeyAfter(es: seq<Entity>, mappings: seq<Mapping>, required: seq<string>, claimed: set<string>, rename: map<string, string>,
                 fold: Fold, i: nat)
    requires FoldsText(fold) && i < |es|
    requires IsRename(rename, mappings, Missing(Inputs(required), PresentKeys(es, fold), fold), fold)
    ensures var e, k := RenamedTo(es[i], rename, fold), Key(es[i].name, fold);
      if k in rename then Strip(e.name) != "" && Key(e.name, fold) == fold(rename[k]) && fold(rename[k]) !in PresentKeys(es, fold)
      else e == es[i]
  {
    hide Strip;
    var k := Key(es[i].name, fold);
    if k in rename {
      MissingMember(Inputs(required), PresentKeys(es, fold), fold, rename[k]);
      InputsStripped(required, rename[k]);
    }
  }

  /** Distinct names stay distinct, and a name used twice stays used twice. */
  lemma RenameKeeps(es: seq<Entity>, mappings: seq<Mapping>, required: seq<string>, claimed: set<string>,
                    rename: map<string, string>, fold: Fold)
    requires FoldsText(fold)
    requires MappingsFit(es, mappings, claimed, Missing(Inputs(required), PresentKeys(es, fold), fold), fold)
    requires IsRename(rename, mappings, Missing(Inputs(required), PresentKeys(es, fold), fold), fold)
    ensures DistinctNames(Renamed(es, rename, fold), fold) <==> DistinctNames(es, fold)
    ensures ExplicitRenames(es, rename, fold)
  {
    hide Missing, Inputs, Renamed, DistinctNames, MappingsFit, IsRename;
    var missing := Missing(Inputs(required), PresentKeys(es, fold), fold);
    forall i | 0 <= i < |es| && Key(es[i].name, fold) in rename ensures RenamedOnce(es, i, fold) {
      RenamedIsUnique(es, mappings, claimed, missing, rename, fold, i);
    }
    if !DistinctNames(es, fold) { TwiceStays(es, rename, fold); }
    if !DistinctNames(Renamed(es, rename, fold), fold) { TwiceBefore(es, mappings, required, claimed, rename, fold); }
  }

  lemma TwiceStays(es: seq<Entity>, rename: map<string, string>, fold: Fold)
    requires !DistinctNames(es, fold)
    requires forall i :: 0 <= i < |es| && Key(es[i].name, fold) in rename ==> RenamedOnce(es, i, fold)
    ensures !DistinctNames(Renamed(es, rename, fold), fold)
  {
    hide Strip;
    var out := Renamed(es, rename, fold);
    var k :| Twice(es, k, fold);
    var i, j :| 0 <= i < j < |es| && NamedBy(es[i], k, fold) && NamedBy(es[j], k, fold);
    assert out[i] == es[i] && out[j] == es[j];
    assert Twice(out, k, fold);
  }

  lemma TwiceBefore(es: seq<Entity>, mappings: seq<Mapping>, required: seq<string>, claimed: set<string>,
                    rename: map<string, string>, fold: Fold)
    requires FoldsText(fold)
    requires MappingsFit(es, mappings, claimed, Missing(Inputs(required), PresentKeys(es, fold), fold), fold)
    requires IsRename(rename, mappings, Missing(Inputs(required), PresentKeys(es, fold), fold), fold)
    requires !DistinctNames(Renamed(es, rename, fold), fold)
    ensures !DistinctNames(es, fold)
  {
    hide Missing, Inputs, MappingsFit, IsRename, NamedBy, RenamedTo, PresentKeys, FoldsText;
    var out := Renamed(es, rename, fold);
    var k :| Twice(out, k, fold);
    var i, j :| 0 <= i < j < |es| && NamedBy(out[i], k, fold) && NamedBy(out[j], k, fold);
    SharedNameWasShared(es, mappings, required, claimed, rename, fold, i, j, k);
  }

  ghost predicate RenamedOnce(es: seq<Entity>, i: nat, fold: Fold)
    requires i < |es|
  {
    es[i].source.UserExplicit? && Strip(es[i].name) != "" && !Twice(es, Key(es[i].name, fold), fold)
  }

  /** A renamed entity is the user's own and the only one of its name. */
  lemma RenamedIsUnique(es: seq<Entity>, mappings: seq<Mapping>, claimed: set<string>, missing: seq<string>,
                        rename: map<string, string>, fold: Fold, i: nat)
    requires FoldsText(fold) && i < |es| && Key(es[i].name, fold) in rename
    requires MappingsFit(es, mappings, claimed, missing, fold) && IsRename(rename, mappings, missing, fold)
    ensures RenamedOnce(es, i, fold)
  {
    hide Strip;
    var k := Key(es[i].name, fold);
    var m :| 0 <= m < |mappings| && fold(mappings[m].fromName) == k;
    assert MappingFits(es, mappings[m], claimed, missing, fold);
    var j :| 0 <= j < |es| && NamedBy(es[j], k, fold) && es[j].source.UserExplicit?;
    assert NamedBy(es[i], k, fold);
  }

  /** Two renamed entities of one name had one name before. */
  lemma SharedNameWasShared(es: seq<Entity>, mappings: seq<Mapping>, required: seq<string>, claimed: set<string>,
                            rename: map<string, string>, fold: Fold, i: nat, j: nat, k: string)
    requires FoldsText(fold) && i < j < |es|
    requires MappingsFit(es, mappings, claimed, Missing(Inputs(required), PresentKeys(es, fold), fold), fold)
    requires IsRename(rename, mappings, Missing(Inputs(required), PresentKeys(es, fold), fold), fold)
    requires NamedBy(RenamedTo(es[i], rename, fold), k, fold) && NamedBy(RenamedTo(es[j], rename, fold), k, fold)
    ensures !DistinctNames(es, fold)
  {
    var missing := Missing(Inputs(required), PresentKeys(es, fold), fold);
    KeyAfter(es, mappings, required, claimed, rename, fold, i);
    KeyAfter(es, mappings, required, claimed, rename, fold, j);
    var a, b := Key(es[i].name, fold), Key(es[j].name, fold);
    if a in rename && b in rename {
      if a != b { OtherTarget(mappings, claimed, missing, es, rename, fold, a, b); }
      RenamedIsUnique(es, mappings, claimed, missing, rename, fold, i);
      RenamedIsUnique(es, mappings, claimed, missing, rename, fold, j);
      assert NamedBy(es[i], a, fold) && NamedBy(es[j], a, fold);
      assert Twice(es, a, fold);
    } else if a !in rename && b !in rename {
      assert Twice(es, k, fold);
    }
  }

  /** Different keys have different targets. */
  lemma OtherTarget(mappings: seq<Mapping>, claimed: set<string>, missing: seq<string>, es: seq<Entity>,
                    rename: map<string, string>, fold: Fold, a: string, b: string)
    requires MappingsFit(es, mappings, claimed, missing, fold) && IsRename(rename, mappings, missing, fold)
    requires a in rename && b in rename && a != b
    ensures fold(rename[a]) != fold(rename[b])
  {
    var m :| 0 <= m < |mappings| && fold(mappings[m].fromName) == a;
    var n :| 0 <= n < |mappings| && fold(mappings[n].fromName) == b;
    assert Renames(rename, mappings[m], fold) && Renames(rename, mappings[n], fold);
    if m < n { assert Apart(mappings[m], mappings[n], fold); } else { assert Apart(mappings[n], mappings[m], fold); }
  }

  // ---- missing inputs and coverage afterwards ------------------------------------------------------

  function Without(names: seq<string>, targets: set<string>, fold: Fold): seq<string> {
    if names == [] then []
    else (if fold(names[0]) !in targets then [names[0]] else []) + Without(names[1..], targets, fold)
  }

  function Targets(mappings: seq<Mapping>, fold: Fold): set<string> {
    set i | 0 <= i < |mappings| :: fold(mappings[i].toInput)
  }

  lemma {:induction false} MissingSplit(inputs: seq<string>, before: set<string>, after: set<string>, targets: set<string>, fold: Fold)
    requires forall i :: 0 <= i < |inputs| ==> (fold(inputs[i]) in after <==> fold(inputs[i]) in before || fold(inputs[i]) in targets)
    ensures Missing(inputs, after, fold) == Without(Missing(inputs, before, fold), targets, fold)
  {
    if inputs == [] {
      assert Missing(inputs, before, fold) == [] && Without([], targets, fold) == [];
      return;
    }
    var x, tail := inputs[0], inputs[1..];
    MissingSplit(tail, before, after, targets, fold);
    hide Missing, Without;
    assert inputs == [x] + tail;
    MissingCons(x, tail, before, fold);
    MissingCons(x, tail, after, fold);
    var rest := Missing(tail, before, fold);
    WithoutCons(x, rest, targets, fold);
    assert [] + rest == rest && [] + Without(rest, targets, fold) == Without(rest, targets, fold);
  }

  lemma MissingCons(x: string, tail: seq<string>, present: set<string>, fold: Fold)
    ensures Missing([x] + tail, present, fold) == (if fold(x) !in present then [x] else []) + Missing(tail, present, fold)
  {
    assert ([x] + tail)[1..] == tail;
  }

  lemma WithoutCons(x: string, tail: seq<string>, targets: set<string>, fold: Fold)
    ensures Without([x] + tail, targets, fold) == (if fold(x) !in targets then [x] else []) + Without(tail, targets, fold)
  {
    assert ([x] + tail)[1..] == tail;
  }

  lemma {:induction false} InputClaimed(names: seq<string>, x: string, fold: Fold)
    requires x in Inputs(names)
    ensures exists i :: 0 <= i < |names| && Strip(names[i]) == x
  {
    hide Strip;
    if Strip(names[0]) != "" && x == Strip(names[0]) {
    } else {
      InputClaimed(names[1..], x, fold);
      var i :| 0 <= i < |names| - 1 && Strip(names[1..][i]) == x;
      assert Strip(names[i + 1]) == x;
    }
  }

  /** Whether an input is present afterwards: it was, or it has been mapped to. */
  lemma PresentAfter(es: seq<Entity>, mappings: seq<Mapping>, required: seq<string>, claimed: set<string>,
                     rename: map<string, string>, fold: Fold, x: string)
    requires FoldsText(fold) && Claimed(required, fold) <= claimed && x in Inputs(required)
    requires MappingsFit(es, mappings, claimed, Missing(Inputs(required), PresentKeys(es, fold), fold), fold)
    requires IsRename(rename, mappings, Missing(Inputs(required), PresentKeys(es, fold), fold), fold)
    ensures fold(x) in PresentKeys(Renamed(es, rename, fold), fold) <==>
      fold(x) in PresentKeys(es, fold) || fold(x) in Targets(mappings, fold)
  {
    hide Strip, Missing, Inputs, Mappable;
    var k, out := fold(x), Renamed(es, rename, fold);
    InputNotRenamed(es, mappings, required, claimed, rename, fold, x);
    if i :| 0 <= i < |es| && NamedBy(es[i], k, fold) { assert NamedBy(out[i], k, fold); }
    if m :| 0 <= m < |mappings| && fold(mappings[m].toInput) == k {
      assert MappingFits(es, mappings[m], claimed, Missing(Inputs(required), PresentKeys(es, fold), fold), fold);
      assert Renames(rename, mappings[m], fold);
      var a := fold(mappings[m].fromName);
      var i := OwnerOf(es, claimed, a, fold);
      KeyAfter(es, mappings, required, claimed, rename, fold, i);
      assert NamedBy(out[i], k, fold);
    }
    if i :| 0 <= i < |es| && NamedBy(out[i], k, fold) {
      KeyAfter(es, mappings, required, claimed, rename, fold, i);
      var a := Key(es[i].name, fold);
      if a in rename {
        var m :| 0 <= m < |mappings| && fold(mappings[m].fromName) == a;
        assert Renames(rename, mappings[m], fold);
      } else {
        assert NamedBy(es[i], k, fold);
      }
    }
  }

  lemma OwnerOf(es: seq<Entity>, claimed: set<string>, a: string, fold: Fold) returns (i: nat)
    requires Mappable(es, claimed, a, fold)
    ensures i < |es| && NamedBy(es[i], a, fold)
  {
    i :| 0 <= i < |es| && NamedBy(es[i], a, fold) && es[i].source.UserExplicit?;
  }

  /** An input is never renamed away. */
  lemma InputNotRenamed(es: seq<Entity>, mappings: seq<Mapping>, required: seq<string>, claimed: set<string>,
                        rename: map<string, string>, fold: Fold, x: string)
    requires Claimed(required, fold) <= claimed && x in Inputs(required)
    requires MappingsFit(es, mappings, claimed, Missing(Inputs(required), PresentKeys(es, fold), fold), fold)
    requires IsRename(rename, mappings, Missing(Inputs(required), PresentKeys(es, fold), fold), fold)
    ensures fold(x) !in rename
  {
    hide Strip, Missing, Inputs;
    InputClaimed(required, x, fold);
    InputsStripped(required, x);
    var i :| 0 <= i < |required| && Strip(required[i]) == x;
    assert fold(x) in Claimed(required, fold);
  }

  /** A successful alignment takes exactly the mapped inputs off the missing list. */
  lemma MissingAfter(es: seq<Entity>, mappings: seq<Mapping>, required: seq<string>, optional: seq<string>,
                     rename: map<string, string>, fold: Fold)
    requires FoldsText(fold) && Alignable(es, mappings, required, optional, fold)
    requires IsRename(rename, mappings, Missing(Inputs(required), PresentKeys(es, fold), fold), fold)
    ensures Missing(Inputs(required), PresentKeys(Renamed(es, rename, fold), fold), fold) ==
      Without(Missing(Inputs(required), PresentKeys(es, fold), fold), Targets(mappings, fold), fold)
  {
    hide Strip, Missing, Inputs, MappingsFit, IsRename, PresentKeys, Targets, Without, Renamed;
    var inputs, claimed := Inputs(required), Claimed(required, fold) + Claimed(optional, fold);
    var before, after := PresentKeys(es, fold), PresentKeys(Renamed(es, rename, fold), fold);
    forall i | 0 <= i < |inputs|
      ensures fold(inputs[i]) in after <==> fold(inputs[i]) in before || fold(inputs[i]) in Targets(mappings, fold)
    {
      PresentAfter(es, mappings, required, claimed, rename, fold, inputs[i]);
    }
    MissingSplit(inputs, before, after, Targets(mappings, fold), fold);
  }

  // ---- coverage and the decision ---------------------------------------------------------------------

  method ComputeCoverage(required: seq<string>, es: seq<Entity>, fold: Fold) returns (coverage: real)
    ensures coverage == Coverage(required, PresentKeys(es, fold), fold)
  {
    hide Inputs, PresentKeys, Missing;
    var inputs, present := Inputs(required), PresentKeys(es, fold);
    if inputs == [] { return 1.0; }
    var matched := 0;
    NoneMissing(present, fold);
    for k := 0 to |inputs|
      invariant 0 <= matched && matched + |Missing(inputs[..k], present, fold)| == k
    {
      MissingLast(inputs, k, present, fold);
      if fold(inputs[k]) in present { matched := matched + 1; }
    }
    assert inputs[..|inputs|] == inputs;
    coverage := matched as real / |inputs| as real;
    Complement(matched, |Missing(inputs, present, fold)|, |inputs|);
  }

  lemma NoneMissing(present: set<string>, fold: Fold)
    ensures Missing([], present, fold) == []
  {
  }

  lemma Complement(a: nat, b: nat, n: nat)
    requires n > 0 && a + b == n
    ensures a as real / n as real == 1.0 - b as real / n as real
  {
    assert a as real + b as real == n as real;
    assert (a as real + b as real) / n as real == a as real / n as real + b as real / n as real;
  }

  lemma {:induction false} MissingLast(inputs: seq<string>, k: nat, present: set<string>, fold: Fold)
    requires k < |inputs|
    ensures Missing(inputs[..k + 1], present, fold) ==
      Missing(inputs[..k], present, fold) + (if fold(inputs[k]) !in present then [inputs[k]] else [])
    decreases k
  {
    if k > 0 {
      MissingLast(inputs[1..], k - 1, present, fold);
      assert inputs[..k + 1][1..] == inputs[1..][..k] && inputs[..k][1..] == inputs[1..][..k - 1];
    } else {
      assert inputs[..1][1..] == [];
    }
  }

  lemma {:induction false} MissingWithin(inputs: seq<string>, present: set<string>, fold: Fold)
    ensures |Missing(inputs, present, fold)| <= |inputs|
  {
    if inputs != [] { MissingWithin(inputs[1..], present, fold); }
  }

  /** One minus the share of required inputs that are missing. */
  ghost function Coverage(required: seq<string>, present: set<string>, fold: Fold): real {
    if Inputs(required) == [] then 1.0
    else 1.0 - |Missing(Inputs(required), present, fold)| as real / |Inputs(required)| as real
  }

  /** The required inputs some entity is named after, by position. */
  ghost function Given(inputs: seq<string>, present: set<string>, fold: Fold): set<nat> {
    set i | 0 <= i < |inputs| && fold(inputs[i]) in present
  }

  lemma {:induction false} GivenOrMissing(inputs: seq<string>, present: set<string>, fold: Fold)
    ensures |Given(inputs, present, fold)| + |Missing(inputs, present, fold)| == |inputs|
    decreases |inputs|
  {
    if inputs == [] {
      assert Given(inputs, present, fold) == {};
    } else {
      var n := |inputs| - 1;
      GivenOrMissing(inputs[..n], present, fold);
      MissingLast(inputs, n, present, fold);
      assert inputs[..n + 1] == inputs;
      GivenLast(inputs, n, present, fold);
    }
  }

  lemma GivenLast(inputs: seq<string>, n: nat, present: set<string>, fold: Fold)
    requires |inputs| == n + 1
    ensures Given(inputs, present, fold) == Given(inputs[..n], present, fold) + (if fold(inputs[n]) in present then {n} else {})
    ensures n !in Given(inputs[..n], present, fold)
  {
  }

  /** Coverage is the share of required inputs that are there; all of nothing counts as one. */
  lemma CoverageIsShare(required: seq<string>, present: set<string>, fold: Fold)
    ensures var inputs := Inputs(required);
      var c := Coverage(required, present, fold);
      && 0.0 <= c <= 1.0 && (c == 1.0 <==> Missing(inputs, present, fold) == [])
      && c * |inputs| as real == |Given(inputs, present, fold)| as real
  {
    var inputs := Inputs(required);
    GivenOrMissing(inputs, present, fold);
    hide Inputs, Missing, Given;
    ShareOf(|Missing(inputs, present, fold)|, |inputs|);
  }

  lemma ShareOf(m: nat, n: nat)
    requires m <= n
    ensures var c := if n == 0 then 1.0 else 1.0 - m as real / n as real;
      0.0 <= c <= 1.0 && (c == 1.0 <==> m == 0) && c * n as real == (n - m) as real
  {
    if n > 0 { assert (m as real / n as real) * n as real == m as real; }
  }

  lemma {:induction false} WithoutFewer(names: seq<string>, targets: set<string>, fold: Fold)
    ensures |Without(names, targets, fold)| <= |names|
    ensures (exists i :: 0 <= i < |names| && fold(names[i]) in targets) ==> |Without(names, targets, fold)| < |names|
  {
    if names != [] { WithoutFewer(names[1..], targets, fold); }
  }

  /** Alignment raises coverage. */
  lemma CoverageRises(es: seq<Entity>, mappings: seq<Mapping>, required: seq<string>, optional: seq<string>,
                      rename: map<string, string>, fold: Fold)
    requires FoldsText(fold) && Alignable(es, mappings, required, optional, fold)
    requires IsRename(rename, mappings, Missing(Inputs(required), PresentKeys(es, fold), fold), fold)
    ensures Coverage(required, PresentKeys(Renamed(es, rename, fold), fold), fold) > Coverage(required, PresentKeys(es, fold), fold)
  {
    var missing := Missing(Inputs(required), PresentKeys(es, fold), fold);
    MissingAfter(es, mappings, required, optional, rename, fold);
    WithoutFewer(missing, Targets(mappings, fold), fold);
    MissingWithin(Inputs(required), PresentKeys(es, fold), fold);
    assert MappingFits(es, mappings[0], Claimed(required, fold) + Claimed(optional, fold), missing, fold);
    var j :| 0 <= j < |missing| && fold(missing[j]) == fold(mappings[0].toInput);
    assert fold(missing[j]) in Targets(mappings, fold);
    Shares(|Without(missing, Targets(mappings, fold), fold)|, |missing|, |Inputs(required)|);
  }

  lemma Shares(a: nat, b: nat, n: nat)
    requires a < b <= n
    ensures a as real / n as real < b as real / n as real
  {
  }

  datatype Selected = Selected(policyPresent: bool, allowAutoSelect: bool, agentConfirms: bool, policyConfirms: bool)

  datatype Thresholds = Thresholds(autoSelect: real, confirmation: real)

  const AUTO_SELECT_MARGIN := 0.10
  const MARGIN_TOLERANCE := 0.000000000001

  function SystemDecision(confidence: real, margin: real, coverage: real, t: Thresholds, selected: Selected,
                          ambiguous: bool, newlyMissing: seq<string>): SelectionDecision
  {
    if coverage < 1.0 && newlyMissing != [] then Clarify
    else if coverage < 1.0 then NoMatch
    else if confidence < t.confirmation then NoMatch
    else if confidence >= t.autoSelect && (margin >= AUTO_SELECT_MARGIN || AUTO_SELECT_MARGIN - margin <= MARGIN_TOLERANCE)
         && selected.policyPresent && selected.allowAutoSelect
         && !(selected.agentConfirms || selected.policyConfirms) && !ambiguous then AutoSelect
    else Confirm
  }

  /** Every candidate was judged not to fit at all; no candidates is no judgement. */
  predicate AllFitZero(fits: seq<real>) {
    fits != [] && forall k :: 0 <= k < |fits| ==> fits[k] == 0.0
  }

  /** The judgement that nothing fits outranks missing inputs. */
  function Decide(fits: seq<real>, confidence: real, margin: real, coverage: real, t: Thresholds, selected: Selected,
                  ambiguous: bool, newlyMissing: seq<string>): SelectionDecision
  {
    if AllFitZero(fits) then NoMatch
    else SystemDecision(confidence, margin, coverage, t, selected, ambiguous, newlyMissing)
  }

  /** A tool is trusted without being asked about: the confidence and the margin suffice, its
      policy allows it, and nobody and nothing calls for a question. */
  ghost predicate Trusted(confidence: real, margin: real, t: Thresholds, selected: Selected, ambiguous: bool) {
    && confidence >= t.autoSelect && margin >= 0.1 - 0.000000000001
    && selected.policyPresent && selected.allowAutoSelect
    && !selected.agentConfirms && !selected.policyConfirms && !ambiguous
  }

  /** With the coverage and the missing inputs of one request: something missing asks unless
      nothing fits; and with nothing missing, something that fits and enough confidence a tool
      is chosen, without confirmation exactly when it is trusted. */
  lemma ChosenMeansNothingMissing(required: seq<string>, es: seq<Entity>, fold: Fold, fits: seq<real>, confidence: real,
                                  margin: real, t: Thresholds, selected: Selected, ambiguous: bool)
    ensures var present := PresentKeys(es, fold);
      var missing := Missing(Inputs(required), present, fold);
      var d := Decide(fits, confidence, margin, Coverage(required, present, fold), t, selected, ambiguous, missing);
      var chosen := missing == [] && !AllFitZero(fits) && confidence >= t.confirmation;
      && (d.Clarify? <==> missing != [] && !AllFitZero(fits))
      && (d.NoMatch? <==> AllFitZero(fits) || (missing == [] && confidence < t.confirmation))
      && (d.AutoSelect? <==> chosen && Trusted(confidence, margin, t, selected, ambiguous))
      && (d.Confirm? <==> chosen && !Trusted(confidence, margin, t, selected, ambiguous))
  {
    hide Strip, NamedBy;
    var present := PresentKeys(es, fold);
    var missing := Missing(Inputs(required), present, fold);
    MissingWithin(Inputs(required), present, fold);
    if missing != [] { Shares(0, |missing|, |Inputs(required)|); }
  }
}

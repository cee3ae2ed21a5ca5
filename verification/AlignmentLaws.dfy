/** When an alignment goes through and what it leaves, in terms of the entities and the names of
    the Tool's inputs. */
module AlignmentLaws {
  import opened ExecutionRows
  import opened Text
  import opened JsonPointer
  import opened Handoff
  import opened EntityAlignment

  ghost predicate Names(names: seq<string>, k: string, fold: Fold) {
    exists i :: 0 <= i < |names| && Strip(names[i]) != "" && Key(names[i], fold) == k
  }

  /** The mapping takes the user's own entity, the only one of its name, which is not the name
      of any input, to a required input that nothing is named after. */
  ghost predicate Aligns(es: seq<Entity>, m: Mapping, required: seq<string>, optional: seq<string>, fold: Fold) {
    && (exists i :: 0 <= i < |es| && NamedBy(es[i], fold(m.fromName), fold) && es[i].source.UserExplicit?)
    && (forall i, j :: 0 <= i < |es| && 0 <= j < |es| && NamedBy(es[i], fold(m.fromName), fold) && NamedBy(es[j], fold(m.fromName), fold)
          ==> i == j)
    && !Names(required, fold(m.fromName), fold) && !Names(optional, fold(m.fromName), fold)
    && Names(required, fold(m.toInput), fold)
    && (forall i :: 0 <= i < |es| ==> !NamedBy(es[i], fold(m.toInput), fold))
  }

  lemma ClaimedMeans(names: seq<string>, k: string, fold: Fold)
    ensures k in Claimed(names, fold) <==> Names(names, k, fold)
  {
    hide Strip;
  }

  lemma {:induction false} InputsMean(names: seq<string>, x: string)
    ensures x in Inputs(names) <==> x != "" && exists i :: 0 <= i < |names| && Strip(names[i]) == x
  {
    hide Strip;
    if names != [] {
      InputsMean(names[1..], x);
      if i :| 0 <= i < |names| && Strip(names[i]) == x { if i > 0 { assert Strip(names[1..][i - 1]) == x; } }
      if i :| 0 <= i < |names| - 1 && Strip(names[1..][i]) == x { assert Strip(names[i + 1]) == x; }
    }
  }

  lemma WantedMeans(es: seq<Entity>, required: seq<string>, k: string, fold: Fold)
    ensures Wanted(Missing(Inputs(required), PresentKeys(es, fold), fold), k, fold) <==>
      Names(required, k, fold) && !Present(es, k, fold)
  {
    hide Strip;
    var present := PresentKeys(es, fold);
    var missing := Missing(Inputs(required), present, fold);
    forall x
      ensures x in missing <==> x in Inputs(required) && fold(x) !in present
      ensures x in Inputs(required) <==> x != "" && exists i :: 0 <= i < |required| && Strip(required[i]) == x
    {
      MissingMember(Inputs(required), present, fold, x);
      InputsMean(required, x);
    }
    hide Missing, Inputs, PresentKeys, Present;
    if Wanted(missing, k, fold) {
      var j :| 0 <= j < |missing| && fold(missing[j]) == k;
      assert missing[j] in missing;
    }
    if Names(required, k, fold) && k !in present {
      var i :| 0 <= i < |required| && Strip(required[i]) != "" && Key(required[i], fold) == k;
      assert Strip(required[i]) in missing;
      var j :| 0 <= j < |missing| && missing[j] == Strip(required[i]);
    }
  }

  lemma FitsMeans(es: seq<Entity>, m: Mapping, required: seq<string>, optional: seq<string>, fold: Fold)
    ensures MappingFits(es, m, Claimed(required, fold) + Claimed(optional, fold),
                        Missing(Inputs(required), PresentKeys(es, fold), fold), fold)
      <==> Aligns(es, m, required, optional, fold)
  {
    hide Strip, Wanted, Claimed, Names, NamedBy;
    ClaimedMeans(required, fold(m.fromName), fold);
    ClaimedMeans(optional, fold(m.fromName), fold);
    WantedMeans(es, required, fold(m.toInput), fold);
    OnlyOne(es, fold(m.fromName), fold);
  }

  lemma OnlyOne(es: seq<Entity>, k: string, fold: Fold)
    ensures Twice(es, k, fold) <==>
      exists i, j :: 0 <= i < |es| && 0 <= j < |es| && NamedBy(es[i], k, fold) && NamedBy(es[j], k, fold) && i != j
  {
    hide NamedBy;
  }

  /** An alignment goes through exactly when there is something to align, no name is used twice,
      every mapping aligns, and no two share a name or an input. */
  lemma AlignableMeans(es: seq<Entity>, mappings: seq<Mapping>, required: seq<string>, optional: seq<string>, fold: Fold)
    ensures Alignable(es, mappings, required, optional, fold) <==>
      && |mappings| >= 1 && (forall k :: !Twice(es, k, fold))
      && (forall n :: 0 <= n < |mappings| ==> Aligns(es, mappings[n], required, optional, fold))
      && (forall n, l | 0 <= n < l < |mappings| ::
            fold(mappings[n].fromName) != fold(mappings[l].fromName) && fold(mappings[n].toInput) != fold(mappings[l].toInput))
  {
    hide Aligns, MappingFits, Twice, Claimed, Missing, Inputs, PresentKeys;
    forall n | 0 <= n < |mappings|
      ensures MappingFits(es, mappings[n], Claimed(required, fold) + Claimed(optional, fold),
                          Missing(Inputs(required), PresentKeys(es, fold), fold), fold)
        <==> Aligns(es, mappings[n], required, optional, fold)
    {
      FitsMeans(es, mappings[n], required, optional, fold);
    }
  }

  /** Entity i was renamed by the mapping to the input as the Tool spells it. */
  ghost predicate RenamedBy(e: Entity, r: Entity, m: Mapping, required: seq<string>, fold: Fold) {
    && NamedBy(e, fold(m.fromName), fold) && fold(r.name) == fold(m.toInput)
    && exists n :: 0 <= n < |required| && Strip(required[n]) == r.name
  }

  ghost predicate RenamesOne(es: seq<Entity>, out: seq<Entity>, m: Mapping, required: seq<string>, fold: Fold)
    requires |out| == |es|
  {
    exists i :: 0 <= i < |es| && RenamedBy(es[i], out[i], m, required, fold)
  }

  /** Every value and every provenance stays in its place; an entity keeps its name or is renamed
      by one of the mappings; and every mapping renames an entity. */
  lemma AlignmentLeaves(es: seq<Entity>, mappings: seq<Mapping>, required: seq<string>, optional: seq<string>,
                        rename: map<string, string>, fold: Fold)
    requires FoldsText(fold) && Alignable(es, mappings, required, optional, fold)
    requires IsRename(rename, mappings, Missing(Inputs(required), PresentKeys(es, fold), fold), fold)
    ensures var out := Renamed(es, rename, fold);
      && |out| == |es|
      && (forall i :: 0 <= i < |es| ==> out[i].value == es[i].value && out[i].source == es[i].source)
      && (forall i :: 0 <= i < |es| ==>
            out[i].name == es[i].name || exists n :: 0 <= n < |mappings| && RenamedBy(es[i], out[i], mappings[n], required, fold))
      && (forall n :: 0 <= n < |mappings| ==> RenamesOne(es, out, mappings[n], required, fold))
  {
    hide Strip, MappingsFit, IsRename, RenamedBy, Missing, Inputs, PresentKeys, Claimed, RenamedTo, DistinctNames, FoldsText, RenamesOne;
    var claimed := Claimed(required, fold) + Claimed(optional, fold);
    var out := Renamed(es, rename, fold);
    forall i | 0 <= i < |es|
      ensures out[i].value == es[i].value && out[i].source == es[i].source
      ensures out[i].name == es[i].name || exists n :: 0 <= n < |mappings| && RenamedBy(es[i], out[i], mappings[n], required, fold)
    {
      EntityKept(es, mappings, required, claimed, rename, fold, i);
    }
    forall n | 0 <= n < |mappings| ensures RenamesOne(es, out, mappings[n], required, fold) {
      MappingRenames(es, mappings, required, claimed, rename, fold, n);
    }
  }

  lemma EntityKept(es: seq<Entity>, mappings: seq<Mapping>, required: seq<string>, claimed: set<string>,
                   rename: map<string, string>, fold: Fold, i: nat)
    requires FoldsText(fold) && i < |es|
    requires MappingsFit(es, mappings, claimed, Missing(Inputs(required), PresentKeys(es, fold), fold), fold)
    requires IsRename(rename, mappings, Missing(Inputs(required), PresentKeys(es, fold), fold), fold)
    ensures var r := RenamedTo(es[i], rename, fold);
      && r.value == es[i].value && r.source == es[i].source
      && (r.name == es[i].name || exists n :: 0 <= n < |mappings| && RenamedBy(es[i], r, mappings[n], required, fold))
  {
    hide Strip, MappingsFit, IsRename, RenamedBy, Missing, Inputs, PresentKeys;
    if Key(es[i].name, fold) in rename {
      var missing := Missing(Inputs(required), PresentKeys(es, fold), fold);
      RenamedIsUnique(es, mappings, claimed, missing, rename, fold, i);
      EntityRenamed(es, mappings, required, missing, rename, fold, i);
    }
  }

  lemma EntityRenamed(es: seq<Entity>, mappings: seq<Mapping>, required: seq<string>, missing: seq<string>,
                      rename: map<string, string>, fold: Fold, i: nat)
    requires missing == Missing(Inputs(required), PresentKeys(es, fold), fold) && IsRename(rename, mappings, missing, fold)
    requires i < |es| && Key(es[i].name, fold) in rename && Strip(es[i].name) != ""
    ensures exists n :: 0 <= n < |mappings| && RenamedBy(es[i], Renamed(es, rename, fold)[i], mappings[n], required, fold)
  {
    hide Strip, Missing, Inputs, PresentKeys;
    var k := Key(es[i].name, fold);
    var n :| 0 <= n < |mappings| && fold(mappings[n].fromName) == k;
    assert Renames(rename, mappings[n], fold);
    MissingMember(Inputs(required), PresentKeys(es, fold), fold, rename[k]);
    InputsMean(required, rename[k]);
    assert RenamedBy(es[i], Renamed(es, rename, fold)[i], mappings[n], required, fold);
  }

  lemma MappingRenames(es: seq<Entity>, mappings: seq<Mapping>, required: seq<string>, claimed: set<string>,
                       rename: map<string, string>, fold: Fold, n: nat)
    requires n < |mappings|
    requires MappingsFit(es, mappings, claimed, Missing(Inputs(required), PresentKeys(es, fold), fold), fold)
    requires IsRename(rename, mappings, Missing(Inputs(required), PresentKeys(es, fold), fold), fold)
    ensures RenamesOne(es, Renamed(es, rename, fold), mappings[n], required, fold)
  {
    hide Strip, Missing, Inputs, PresentKeys, Mappable;
    var present := PresentKeys(es, fold);
    var k := fold(mappings[n].fromName);
    assert MappingFits(es, mappings[n], claimed, Missing(Inputs(required), present, fold), fold);
    var i := OwnerOf(es, claimed, k, fold);
    assert Renames(rename, mappings[n], fold);
    MissingMember(Inputs(required), present, fold, rename[k]);
    InputsMean(required, rename[k]);
    assert RenamedBy(es[i], Renamed(es, rename, fold)[i], mappings[n], required, fold);
  }
}

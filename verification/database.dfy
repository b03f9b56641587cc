/**
 The `PresetsDatabase` state (PresetsDatabase.swift:41-47) and its queries
 that do not score: construction of the generic presets and their index,
 the one-time publication of the NSI (name suggestion index) presets,
 enumeration, lookup by id and the inheritance walk.
 */
module Database {
  import opened Wrappers
  import opened Dict
  import opened Json
  import opened Features
  import opened TagIndex
  import Overlay

  datatype Database = Database(
    stdPresets: Dict<string, PresetFeature>,   // generic presets by id
    nsiPresets: Dict<string, PresetFeature>,   // NSI presets by id
    stdIndex: Index,                           // index over the generic presets
    nsiIndex: Index)                           // index over generic and NSI presets

  /**
   The state every published snapshot satisfies: both indexes are full
   rebuilds over their presets, keyed by the generic presets' ids.
   */
  ghost predicate Published(db: Database) {
    && db.stdIndex == BuildTagIndex([db.stdPresets], db.stdPresets)
    && db.nsiIndex == BuildTagIndex([db.stdPresets, db.nsiPresets], db.stdPresets)
  }

  /** The features a preset parser is handed: every translated preset value must be a dictionary (:122). */
  ghost predicate AllDictionaries(d: Dict<string, Value>) {
    forall m | m in d :: m.1.Obj?
  }

  /**
   `init` from the point where the presets document and its translation are
   parsed (:119-125, :132-133): the merged document becomes the generic
   presets, keeping the entries `parse` accepts, and the NSI side starts out
   as a copy of the generic side.
   */
  function Init(presetsDoc: Value, translation: Option<Value>,
                parse: (string, Dict<string, Value>) -> Option<PresetFeature>): (db: Database)
    requires presetsDoc.Obj? && Overlay.Castable(presetsDoc, translation)
    requires AllDictionaries(Overlay.TranslateAsWritten(presetsDoc, translation).members)
    ensures Published(db)
    ensures db.nsiPresets == [] && db.nsiIndex == db.stdIndex
    ensures Keys(db.stdPresets) <= Keys(Overlay.TranslateAsWritten(presetsDoc, translation).members)
    ensures UniqueKeys(presetsDoc.members) ==> UniqueKeys(db.stdPresets)
  {
    var translated := Overlay.TranslateAsWritten(presetsDoc, translation).members;
    Overlay.AsWrittenDocumentKeys(presetsDoc, translation);
    var presets := CompactMapValuesWithKeys(translated,
      (k: string, v: Value) => if v.Obj? then parse(k, v.members) else None);
    assert AllFeatures([presets, []]) == AllFeatures([presets]) by {
      assert [presets, []][1..] == [[]] && [presets][1..] == [];
      assert AllFeatures([[]]) == [];
    }
    Database(presets, [], BuildTagIndex([presets], presets), BuildTagIndex([presets], presets))
  }

  /** The generic preset `Init` files under `id` is the parser's reading of the merged entry for `id`. */
  lemma InitParsesEachPreset(presetsDoc: Value, translation: Option<Value>,
                             parse: (string, Dict<string, Value>) -> Option<PresetFeature>, id: string)
    requires presetsDoc.Obj? && Overlay.Castable(presetsDoc, translation)
    requires AllDictionaries(Overlay.TranslateAsWritten(presetsDoc, translation).members)
    requires UniqueKeys(presetsDoc.members)
    requires id in Keys(Overlay.TranslateAsWritten(presetsDoc, translation).members)
    ensures var entry := Lookup(Overlay.TranslateAsWritten(presetsDoc, translation).members, id).value;
      entry.Obj? && Lookup(Init(presetsDoc, translation, parse).stdPresets, id) == parse(id, entry.members)
  {
    Overlay.AsWrittenDocumentKeys(presetsDoc, translation);
    var translated := Overlay.TranslateAsWritten(presetsDoc, translation).members;
    assert (id, Lookup(translated, id).value) in translated;
  }

  /**
   The main-queue update of :145-146: the NSI presets arrive and the NSI
   index is replaced, in one step, by a rebuild over generic and NSI presets
   whose significant keys still come from the generic presets alone.
   */
  function PublishNsi(db: Database, nsiPresets: Dict<string, PresetFeature>): (db': Database)
    ensures db'.stdPresets == db.stdPresets && db'.stdIndex == db.stdIndex
    ensures db'.nsiPresets == nsiPresets
    ensures Published(db) ==> Published(db')
  {
    db.(nsiPresets := nsiPresets,
        nsiIndex := BuildTagIndex([db.stdPresets, nsiPresets], db.stdPresets))
  }

  /**
   In either phase of a published database, the NSI index holds exactly the
   generic and NSI presets a direct scan would file under each key: no
   snapshot exposes part of the NSI presets.
   */
  lemma PublishedNsiIndexContents(db: Database, key: string, f: PresetFeature)
    requires Published(db)
    ensures var significant := SignificantKeys(db.stdPresets);
      f in Get(db.nsiIndex, key) <==>
        (f in Values(db.stdPresets) || f in Values(db.nsiPresets)) && InBucket(f, significant, key)
  {
    var lists := [db.stdPresets, db.nsiPresets];
    BuildTagIndexMembership(lists, db.stdPresets, key, f);
    assert (exists j :: 0 <= j < |lists| && f in Values(lists[j])) <==>
      f in Values(db.stdPresets) || f in Values(db.nsiPresets) by {
      assert lists[0] == db.stdPresets && lists[1] == db.nsiPresets;
    }
  }

  /** `enumeratePresetsUsingBlock`: the generic presets in dictionary order. */
  function EnumeratePresets(db: Database): (visited: seq<PresetFeature>)
    ensures |visited| == |db.stdPresets|
    ensures forall i :: 0 <= i < |visited| ==> visited[i] == db.stdPresets[i].1
  {
    Values(db.stdPresets)
  }

  /** `enumeratePresetsAndNsiUsingBlock`: the generic presets, then the NSI presets. */
  function EnumeratePresetsAndNsi(db: Database): (visited: seq<PresetFeature>)
    ensures |visited| == |db.stdPresets| + |db.nsiPresets|
    ensures visited[..|db.stdPresets|] == EnumeratePresets(db)
    ensures forall i :: 0 <= i < |db.nsiPresets| ==> visited[|db.stdPresets| + i] == db.nsiPresets[i].1
    ensures forall f :: f in visited <==> f in Values(db.stdPresets) || f in Values(db.nsiPresets)
  {
    var visited := Values(db.stdPresets) + Values(db.nsiPresets);
    assert visited[..|db.stdPresets|] == Values(db.stdPresets);
    visited
  }

  /** `presetFeatureForFeatureID`: a generic preset with the id, else an NSI preset with it. */
  function PresetFeatureForFeatureID(db: Database, featureID: string): (feature: Option<PresetFeature>)
    ensures feature.Some? <==> featureID in Keys(db.stdPresets) + Keys(db.nsiPresets)
    ensures featureID in Keys(db.stdPresets) ==> feature == Lookup(db.stdPresets, featureID)
    ensures featureID !in Keys(db.stdPresets) ==> feature == Lookup(db.nsiPresets, featureID)
    ensures feature.Some? ==> (featureID, feature.value) in db.stdPresets || (featureID, feature.value) in db.nsiPresets
  {
    match Lookup(db.stdPresets, featureID)
    case Some(f) => Some(f)
    case None => Lookup(db.nsiPresets, featureID)
  }

  /** Whether `presetDict` has a preset with id `id` whose field `fieldGetter` reads is set. */
  predicate Defines<T>(presetDict: Dict<string, PresetFeature>, id: string, fieldGetter: PresetFeature -> Option<T>) {
    Lookup(presetDict, id).Some? && fieldGetter(Lookup(presetDict, id).value).Some?
  }

  /** `field` is the value at the first id of `chain` that `presetDict` defines, or nil when none does. */
  ghost predicate NearestDefinition<T>(presetDict: Dict<string, PresetFeature>, chain: seq<string>,
                                       fieldGetter: PresetFeature -> Option<T>, field: Option<T>)
  {
    match field
    case None => forall i :: 0 <= i < |chain| ==> !Defines(presetDict, chain[i], fieldGetter)
    case Some(_) =>
      exists i :: 0 <= i < |chain| && Defines(presetDict, chain[i], fieldGetter)
        && field == fieldGetter(Lookup(presetDict, chain[i]).value)
        && forall j :: 0 <= j < i ==> !Defines(presetDict, chain[j], fieldGetter)
  }

  /** `inheritedFieldForPresetsDict` (:253-268): climb the id hierarchy until the field is set. */
  method InheritedFieldForPresetsDict<T>(presetDict: Dict<string, PresetFeature>, featureID: Option<string>,
                                         fieldGetter: PresetFeature -> Option<T>) returns (field: Option<T>)
    ensures featureID.None? ==> field.None?
    ensures featureID.Some? ==> NearestDefinition(presetDict, Ancestry(featureID.value), fieldGetter, field)
  {
    ghost var chain := if featureID.Some? then Ancestry(featureID.value) else [];
    ghost var n := 0;
    var id := featureID;
    while id.Some?
      invariant n <= |chain|
      invariant id.Some? ==> n < |chain| && id.value == chain[n]
      invariant id.None? ==> n == |chain|
      invariant forall j :: 0 <= j < n ==> !Defines(presetDict, chain[j], fieldGetter)
      decreases if id.Some? then |id.value| + 1 else 0
    {
      var feature := Lookup(presetDict, id.value);
      if feature.Some? {
        var value := fieldGetter(feature.value);
        if value.Some? {
          return value;
        }
      }
      if n < |chain| - 1 {
        assert ParentId(chain[n]) == Some(chain[n + 1]);
      }
      id := ParentId(id.value);
      n := n + 1;
    }
    return None;
  }

  /**
   `inheritedValueOfFeature` (:270-275): the walk runs over the generic
   presets only, so NSI presets never supply an inherited value.
   */
  method InheritedValueOfFeature<T>(db: Database, featureID: Option<string>,
                                    fieldGetter: PresetFeature -> Option<T>) returns (field: Option<T>)
    ensures featureID.None? ==> field.None?
    ensures featureID.Some? ==> NearestDefinition(db.stdPresets, Ancestry(featureID.value), fieldGetter, field)
  {
    field := InheritedFieldForPresetsDict(db.stdPresets, featureID, fieldGetter);
  }
}

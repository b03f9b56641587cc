/**
 `featuresMatchingSearchText` (PresetsDatabase.swift:310-325): every generic
 preset, then every NSI preset, that is searchable, applies at the location
 and matches the text, paired with its text score. The location test
 (`locationSetIncludes`) and the text score (`matchesSearchText`) belong to
 PresetFeature and are parameters here.
 */
module Search {
  import opened Wrappers
  import opened Dict
  import opened Features
  import opened Database

  type LocationTest<!L> = (PresetFeature, L) -> bool
  type TextScore<!G> = (PresetFeature, Option<string>, G) -> Option<int>

  /** The guard of :316-318. */
  predicate Accepted<G, L>(f: PresetFeature, searchText: Option<string>, geometry: G, location: L,
                           locationSetIncludes: LocationTest<L>, matchesSearchText: TextScore<G>) {
    f.searchable && locationSetIncludes(f, location) && matchesSearchText(f, searchText, geometry).Some?
  }

  /** The list the enumeration callback builds over `features`. */
  function SearchList<G, L>(features: seq<PresetFeature>, searchText: Option<string>, geometry: G, location: L,
                            locationSetIncludes: LocationTest<L>, matchesSearchText: TextScore<G>)
    : (list: seq<(PresetFeature, int)>)
    ensures |list| <= |features|
    ensures forall e | e in list ::
      && e.0 in features
      && Accepted(e.0, searchText, geometry, location, locationSetIncludes, matchesSearchText)
      && matchesSearchText(e.0, searchText, geometry) == Some(e.1)
    ensures forall f | f in features && Accepted(f, searchText, geometry, location, locationSetIncludes, matchesSearchText) ::
      (f, matchesSearchText(f, searchText, geometry).value) in list
  {
    if features == [] then []
    else
      var rest := SearchList(features[1..], searchText, geometry, location, locationSetIncludes, matchesSearchText);
      var f := features[0];
      assert forall g | g in features[1..] :: g in features;
      if Accepted(f, searchText, geometry, location, locationSetIncludes, matchesSearchText) then
        [(f, matchesSearchText(f, searchText, geometry).value)] + rest
      else rest
  }

  /** The search result over a database: its generic and NSI presets, in enumeration order. */
  function FeaturesMatchingSearchText<G, L>(db: Database, searchText: Option<string>, geometry: G, location: L,
                                            locationSetIncludes: LocationTest<L>, matchesSearchText: TextScore<G>)
    : (list: seq<(PresetFeature, int)>)
    ensures forall e | e in list ::
      && (e.0 in Values(db.stdPresets) || e.0 in Values(db.nsiPresets))
      && e.0.searchable && locationSetIncludes(e.0, location)
      && matchesSearchText(e.0, searchText, geometry) == Some(e.1)
    ensures forall f | (f in Values(db.stdPresets) || f in Values(db.nsiPresets))
                       && Accepted(f, searchText, geometry, location, locationSetIncludes, matchesSearchText) ::
      (f, matchesSearchText(f, searchText, geometry).value) in list
  {
    SearchList(EnumeratePresetsAndNsi(db), searchText, geometry, location, locationSetIncludes, matchesSearchText)
  }

  /** The generic presets' matches come first, in their own order, before any NSI preset's. */
  lemma {:induction false} SearchListAppend<G, L>(a: seq<PresetFeature>, b: seq<PresetFeature>, searchText: Option<string>,
                                                  geometry: G, location: L,
                                                  locationSetIncludes: LocationTest<L>, matchesSearchText: TextScore<G>)
    ensures SearchList(a + b, searchText, geometry, location, locationSetIncludes, matchesSearchText) ==
      SearchList(a, searchText, geometry, location, locationSetIncludes, matchesSearchText) +
      SearchList(b, searchText, geometry, location, locationSetIncludes, matchesSearchText)
  {
    if a == [] {
      assert a + b == b;
    } else {
      assert (a + b)[1..] == a[1..] + b;
      SearchListAppend(a[1..], b, searchText, geometry, location, locationSetIncludes, matchesSearchText);
    }
  }

  lemma SearchStandardBeforeNsi<G, L>(db: Database, searchText: Option<string>, geometry: G, location: L,
                                      locationSetIncludes: LocationTest<L>, matchesSearchText: TextScore<G>)
    ensures FeaturesMatchingSearchText(db, searchText, geometry, location, locationSetIncludes, matchesSearchText) ==
      SearchList(Values(db.stdPresets), searchText, geometry, location, locationSetIncludes, matchesSearchText) +
      SearchList(Values(db.nsiPresets), searchText, geometry, location, locationSetIncludes, matchesSearchText)
  {
    SearchListAppend(Values(db.stdPresets), Values(db.nsiPresets), searchText, geometry, location,
                     locationSetIncludes, matchesSearchText);
    assert EnumeratePresetsAndNsi(db) == Values(db.stdPresets) + Values(db.nsiPresets);
  }
}

/**
 `presetFeatureMatching` (PresetsDatabase.swift:281-308): the best preset for
 an object's tags, as a strict running maximum over the index buckets of the
 object's tag keys and the catch-all key `""`. The per-feature score
 (`matchObjectTagsScore`, which weighs tags, geometry and location) belongs to
 PresetFeature and is a parameter here.
 */
module Matching {
  import opened Wrappers
  import opened Dict
  import opened Features
  import opened TagIndex
  import opened Database

  /** `matchObjectTagsScore(objectTags, geometry, location)` of a feature. */
  type MatchScore<!G, !L> = (PresetFeature, Dict<string, string>, G, L) -> real

  /** The factor applied to the score of a non-searchable feature (:298). */
  const NonSearchableFactor: real := 0.999

  /** The score the running maximum compares: a non-searchable feature is marked down slightly. */
  function AdjustedScore(raw: real, searchable: bool): (score: real)
    ensures searchable ==> score == raw
    ensures score > 0.0 <==> raw > 0.0
    ensures raw > 0.0 && !searchable ==> score < raw
    ensures raw > 0.0 && !searchable ==> score > raw * 0.99
  {
    if searchable then raw else raw * NonSearchableFactor
  }

  /** A searchable feature beats a non-searchable one with the same positive raw score. */
  lemma SearchableWinsTies(raw: real)
    requires raw > 0.0
    ensures AdjustedScore(raw, true) > AdjustedScore(raw, false)
  {
  }

  function ScoreOf<G, L>(objectTags: Dict<string, string>, geometry: G, location: L,
                         matchScore: MatchScore<G, L>): PresetFeature -> real
  {
    f => AdjustedScore(matchScore(f, objectTags, geometry, location), f.searchable)
  }

  /** The index the query reads: the NSI-augmented one or the generic one (:291). */
  function ActiveIndex(db: Database, includeNSI: bool): Index {
    if includeNSI then db.nsiIndex else db.stdIndex
  }

  /** The keys scanned, in order: the object's tag keys, then `""` (:292). */
  function ScanKeys(objectTags: Dict<string, string>): seq<string> {
    KeySeq(objectTags) + [""]
  }

  /** The candidates in the order the nested loops visit them. */
  function Candidates(index: Index, keys: seq<string>): seq<PresetFeature>
  {
    if keys == [] then [] else Candidates(index, keys[..|keys| - 1]) + Get(index, keys[|keys| - 1])
  }

  lemma {:induction false} CandidatesMembership(index: Index, keys: seq<string>, f: PresetFeature)
    ensures f in Candidates(index, keys) <==> exists i :: 0 <= i < |keys| && keys[i] in index && f in index[keys[i]]
  {
    if keys != [] {
      var init := keys[..|keys| - 1];
      CandidatesMembership(index, init, f);
      assert forall i :: 0 <= i < |init| ==> init[i] == keys[i];
    }
  }

  /**
   `best` is what a strict running maximum started at zero picks from
   `candidates`: nil when no candidate scores above zero, otherwise the first
   candidate with the highest score.
   */
  ghost predicate IsFirstBest(candidates: seq<PresetFeature>, score: PresetFeature -> real, best: Option<PresetFeature>) {
    match best
    case None => forall j :: 0 <= j < |candidates| ==> score(candidates[j]) <= 0.0
    case Some(f) =>
      exists i :: 0 <= i < |candidates| && candidates[i] == f && score(f) > 0.0
        && (forall j :: 0 <= j < |candidates| ==> score(candidates[j]) <= score(f))
        && (forall j :: 0 <= j < i ==> score(candidates[j]) < score(f))
  }

  /** The running state after scanning `seen`, with the best so far found at position `at`. */
  ghost predicate RunningBest(seen: seq<PresetFeature>, score: PresetFeature -> real,
                              best: Option<PresetFeature>, bestScore: real, at: int) {
    match best
    case None => bestScore == 0.0 && forall j :: 0 <= j < |seen| ==> score(seen[j]) <= 0.0
    case Some(f) =>
      && 0 <= at < |seen| && seen[at] == f && score(f) == bestScore && bestScore > 0.0
      && (forall j :: 0 <= j < |seen| ==> score(seen[j]) <= bestScore)
      && (forall j :: 0 <= j < at ==> score(seen[j]) < bestScore)
  }

  lemma RunningBestStep(seen: seq<PresetFeature>, score: PresetFeature -> real,
                        best: Option<PresetFeature>, bestScore: real, at: int, f: PresetFeature)
    requires RunningBest(seen, score, best, bestScore, at)
    ensures score(f) > bestScore ==> RunningBest(seen + [f], score, Some(f), score(f), |seen|)
    ensures score(f) <= bestScore ==> RunningBest(seen + [f], score, best, bestScore, at)
  {
    var s := seen + [f];
    assert forall j :: 0 <= j < |seen| ==> s[j] == seen[j];
  }

  lemma RunningBestIsFirstBest(seen: seq<PresetFeature>, score: PresetFeature -> real,
                               best: Option<PresetFeature>, bestScore: real, at: int)
    requires RunningBest(seen, score, best, bestScore, at)
    ensures IsFirstBest(seen, score, best)
  {
  }

  lemma CandidatesStep(index: Index, keys: seq<string>, i: nat)
    requires i < |keys|
    ensures Candidates(index, keys[..i + 1]) == Candidates(index, keys[..i]) + Get(index, keys[i])
  {
    assert keys[..i + 1][..i] == keys[..i];
  }

  /** The inner loop of :294-303 over one bucket, continuing the running maximum. */
  method ScanBucket<G, L>(list: seq<PresetFeature>, tags: Dict<string, string>, geometry: G, location: L,
                          matchScore: MatchScore<G, L>, ghost seen: seq<PresetFeature>,
                          best: Option<PresetFeature>, bestScore: real, ghost at: int)
    returns (best': Option<PresetFeature>, bestScore': real, ghost at': int)
    requires RunningBest(seen, ScoreOf(tags, geometry, location, matchScore), best, bestScore, at)
    ensures RunningBest(seen + list, ScoreOf(tags, geometry, location, matchScore), best', bestScore', at')
    ensures bestScore' >= bestScore
    ensures best' != best ==> best'.Some? && best'.value in list
  {
    ghost var scoreOf := ScoreOf(tags, geometry, location, matchScore);
    best', bestScore', at' := best, bestScore, at;
    for j := 0 to |list|
      invariant RunningBest(seen + list[..j], scoreOf, best', bestScore', at')
      invariant bestScore' >= bestScore
      invariant best' != best ==> best'.Some? && best'.value in list[..j]
    {
      var feature := list[j];
      var score := matchScore(feature, tags, geometry, location);
      if !feature.searchable {
        score := score * NonSearchableFactor;
      }
      assert score == scoreOf(feature);
      RunningBestStep(seen + list[..j], scoreOf, best', bestScore', at', feature);
      if score > bestScore' {
        bestScore' := score;
        best' := Some(feature);
        at' := |seen + list[..j]|;
      }
      assert seen + list[..j + 1] == (seen + list[..j]) + [feature];
    }
    assert list[..|list|] == list;
  }

  method PresetFeatureMatching<G, L>(db: Database, objectTags: Option<Dict<string, string>>, geometry: G, location: L,
                                     includeNSI: bool, matchScore: MatchScore<G, L>)
    returns (bestFeature: Option<PresetFeature>)
    ensures objectTags.None? ==> bestFeature.None?
    ensures objectTags.Some? ==>
      IsFirstBest(Candidates(ActiveIndex(db, includeNSI), ScanKeys(objectTags.value)),
                  ScoreOf(objectTags.value, geometry, location, matchScore), bestFeature)
  {
    if objectTags.None? {
      return None;
    }
    var tags := objectTags.value;
    ghost var scoreOf := ScoreOf(tags, geometry, location, matchScore);

    bestFeature := None;
    var bestScore := 0.0;
    ghost var at := -1;

    var index := if includeNSI then db.nsiIndex else db.stdIndex;
    var keys := KeySeq(tags) + [""];
    for i := 0 to |keys|
      invariant RunningBest(Candidates(index, keys[..i]), scoreOf, bestFeature, bestScore, at)
    {
      CandidatesStep(index, keys, i);
      if keys[i] in index {
        bestFeature, bestScore, at :=
          ScanBucket(index[keys[i]], tags, geometry, location, matchScore, Candidates(index, keys[..i]),
                     bestFeature, bestScore, at);
      }
    }
    assert keys[..|keys|] == keys;
    RunningBestIsFirstBest(Candidates(index, keys), scoreOf, bestFeature, bestScore, at);
  }

  /** A returned preset is filed in the active index under one of the scanned keys. */
  lemma MatchComesFromScannedBucket(index: Index, objectTags: Dict<string, string>, score: PresetFeature -> real,
                                    best: Option<PresetFeature>)
    requires IsFirstBest(Candidates(index, ScanKeys(objectTags)), score, best)
    requires best.Some?
    ensures exists k :: (k in Keys(objectTags) || k == "") && k in index && best.value in index[k]
    ensures score(best.value) > 0.0
  {
    var keys := ScanKeys(objectTags);
    CandidatesMembership(index, keys, best.value);
    var i :| 0 <= i < |keys| && keys[i] in index && best.value in index[keys[i]];
    if i < |objectTags| {
      assert keys[i] == objectTags[i].0;
      KeysMembers(objectTags, keys[i]);
      assert (keys[i], objectTags[i].1) in objectTags;
    }
  }

  /**
   Before the NSI presets are published the two indexes coincide, so the
   query does not depend on `includeNSI`.
   */
  lemma ActiveIndexBeforePublish(presetsDb: Database)
    requires presetsDb.nsiPresets == [] && Published(presetsDb)
    ensures ActiveIndex(presetsDb, true) == ActiveIndex(presetsDb, false)
  {
    var std := presetsDb.stdPresets;
    assert AllFeatures([std, []]) == AllFeatures([std]) by {
      assert [std, []][1..] == [[]] && [std][1..] == [];
      assert AllFeatures([[]]) == [];
    }
  }
}

/**
 `buildTagIndex` (PresetsDatabase.swift:200-234): the inverted index from a
 tag key to the features whose tag pattern uses that key.
 */
module TagIndex {
  import opened Dict
  import opened Features

  /** Tag key to features; `""` is the catch-all bucket. */
  type Index = map<string, seq<PresetFeature>>

  /** `index[key] ?? []`. */
  function Get(index: Index, key: string): seq<PresetFeature> {
    if key in index then index[key] else []
  }

  /** The tag keys some base preset id starts with (:206-213). */
  function SignificantKeys(basePresets: Dict<string, PresetFeature>): (keys: set<string>)
    ensures forall k :: k in keys <==> exists i :: 0 <= i < |basePresets| && FirstSegment(basePresets[i].0) == k
  {
    if basePresets == [] then {}
    else
      var rest := SignificantKeys(basePresets[1..]);
      assert forall i :: 1 <= i < |basePresets| ==> basePresets[1..][i - 1] == basePresets[i];
      {FirstSegment(basePresets[0].0)} + rest
  }

  /** The features of every input list, list by list, each in its iteration order. */
  function AllFeatures(inputList: seq<Dict<string, PresetFeature>>): (features: seq<PresetFeature>)
    ensures forall f :: f in features <==> exists j :: 0 <= j < |inputList| && f in Values(inputList[j])
  {
    if inputList == [] then []
    else
      var rest := AllFeatures(inputList[1..]);
      assert forall j :: 1 <= j < |inputList| ==> inputList[1..][j - 1] == inputList[j];
      Values(inputList[0]) + rest
  }

  /** Whether the index files `f` under `key`, given the significant keys. */
  predicate InBucket(f: PresetFeature, significant: set<string>, key: string) {
    (key in f.tags && key in significant) || (key == "" && f.tags.Keys * significant == {})
  }

  /** Reference definition of a bucket: the features filed under `key`, in input order. */
  function Bucket(features: seq<PresetFeature>, significant: set<string>, key: string): (bucket: seq<PresetFeature>)
    ensures forall f :: f in bucket <==> f in features && InBucket(f, significant, key)
    ensures |bucket| <= |features|
  {
    if features == [] then []
    else
      var rest := Bucket(features[1..], significant, key);
      assert forall f :: f in features <==> f == features[0] || f in features[1..];
      if InBucket(features[0], significant, key) then [features[0]] + rest else rest
  }

  /** One feature of the loop at :216-231: appended to each significant key it uses, else to `""`. */
  function AddFeature(index: Index, f: PresetFeature, significant: set<string>): Index {
    var hits := f.tags.Keys * significant;
    if hits == {} then index["" := Get(index, "") + [f]]
    else map k | k in index.Keys + hits :: if k in hits then Get(index, k) + [f] else index[k]
  }

  function AddFeatures(index: Index, features: seq<PresetFeature>, significant: set<string>): Index
    decreases |features|
  {
    if features == [] then index
    else AddFeatures(AddFeature(index, features[0], significant), features[1..], significant)
  }

  /** `buildTagIndex(inputList, basePresets)`. */
  function BuildTagIndex(inputList: seq<Dict<string, PresetFeature>>, basePresets: Dict<string, PresetFeature>): Index {
    AddFeatures(map[], AllFeatures(inputList), SignificantKeys(basePresets))
  }

  lemma AddFeatureBuckets(index: Index, f: PresetFeature, significant: set<string>, key: string)
    ensures Get(AddFeature(index, f, significant), key) ==
      Get(index, key) + (if InBucket(f, significant, key) then [f] else [])
    ensures key in AddFeature(index, f, significant) <==> key in index || InBucket(f, significant, key)
  {
    var hits := f.tags.Keys * significant;
    if hits != {} {
      assert InBucket(f, significant, key) <==> key in hits;
      var next := AddFeature(index, f, significant);
      assert key in next <==> key in index.Keys + hits;
      if key in hits {
        assert next[key] == Get(index, key) + [f];
      } else if key in index {
        assert next[key] == index[key];
      }
    } else {
      assert key in f.tags.Keys && key in significant ==> key in hits;
    }
  }

  lemma {:induction false} AddFeaturesBuckets(index: Index, features: seq<PresetFeature>, significant: set<string>,
                                              key: string)
    ensures Get(AddFeatures(index, features, significant), key) == Get(index, key) + Bucket(features, significant, key)
    ensures key in AddFeatures(index, features, significant) <==> key in index || Bucket(features, significant, key) != []
    decreases |features|
  {
    if features != [] {
      var f := features[0];
      var next := AddFeature(index, f, significant);
      var here := if InBucket(f, significant, key) then [f] else [];
      var b := Bucket(features[1..], significant, key);
      assert Bucket(features, significant, key) == here + b;
      assert AddFeatures(index, features, significant) == AddFeatures(next, features[1..], significant);
      AddFeatureBuckets(index, f, significant, key);
      AddFeaturesBuckets(next, features[1..], significant, key);
      assert Get(index, key) + here + b == Get(index, key) + (here + b);
    }
  }

  /**
   Every bucket of the built index is exactly the reference bucket over all
   input features, with the significant keys taken from the base presets
   alone; no bucket is empty.
   */
  lemma BuildTagIndexBuckets(inputList: seq<Dict<string, PresetFeature>>, basePresets: Dict<string, PresetFeature>,
                             key: string)
    ensures var index := BuildTagIndex(inputList, basePresets);
      var bucket := Bucket(AllFeatures(inputList), SignificantKeys(basePresets), key);
      && Get(index, key) == bucket
      && (key in index <==> bucket != [])
  {
    AddFeaturesBuckets(map[], AllFeatures(inputList), SignificantKeys(basePresets), key);
  }

  /**
   A feature is in bucket `key` iff it comes from an input list and either
   uses the significant key `key`, or `key` is `""` and it uses no significant
   key.
   */
  lemma BuildTagIndexMembership(inputList: seq<Dict<string, PresetFeature>>, basePresets: Dict<string, PresetFeature>,
                                key: string, f: PresetFeature)
    ensures var significant := SignificantKeys(basePresets);
      f in Get(BuildTagIndex(inputList, basePresets), key) <==>
        && (exists j :: 0 <= j < |inputList| && f in Values(inputList[j]))
        && ((key in f.tags && key in significant) || (key == "" && f.tags.Keys * significant == {}))
  {
    BuildTagIndexBuckets(inputList, basePresets, key);
  }

  /** Every input feature lands in at least one bucket. */
  lemma EveryFeatureIndexed(inputList: seq<Dict<string, PresetFeature>>, basePresets: Dict<string, PresetFeature>,
                            f: PresetFeature)
    requires f in AllFeatures(inputList)
    ensures exists key :: key in BuildTagIndex(inputList, basePresets) && f in BuildTagIndex(inputList, basePresets)[key]
  {
    var significant := SignificantKeys(basePresets);
    var key := if f.tags.Keys * significant == {} then "" else var k :| k in f.tags.Keys * significant; k;
    BuildTagIndexBuckets(inputList, basePresets, key);
    assert f in Bucket(AllFeatures(inputList), significant, key);
  }
}

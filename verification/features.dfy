/**
 The part of `PresetFeature` the catalog engine relies on. The feature's
 parser, geometry, names, terms and location set belong to the PresetFeature
 type, which is not part of this model; the engine sees them only through the
 scoring and search functions it is handed.
 */
module Features {
  import opened Wrappers

  /** A preset: its hierarchical id (`amenity/restaurant`), its tag pattern and its flags. */
  datatype PresetFeature = PresetFeature(
    featureID: string,
    tags: map<string, string>,
    searchable: bool,
    isNSI: bool)

  /** The id text before its first `/`, or the whole id when it has none. */
  function FirstSegment(id: string): (key: string)
    ensures '/' !in key
    ensures |key| <= |id| && id[..|key|] == key
    ensures key == id || id[|key|] == '/'
  {
    if id == [] || id[0] == '/' then []
    else [id[0]] + FirstSegment(id[1..])
  }

  /** `parentIDofID`: the id with its last `/`-segment removed; none for a root id. */
  function ParentId(id: string): (parent: Option<string>)
    ensures parent.None? <==> '/' !in id
    ensures parent.Some? ==>
      && |parent.value| < |id|
      && id[..|parent.value|] == parent.value
      && id[|parent.value|] == '/'
      && '/' !in id[|parent.value| + 1..]
  {
    if id == [] then None
    else if id[|id| - 1] == '/' then Some(id[..|id| - 1])
    else
      var p := ParentId(id[..|id| - 1]);
      assert id[..|id| - 1] + [id[|id| - 1]] == id;
      if p.Some? then
        assert id[|p.value| + 1..] == id[..|id| - 1][|p.value| + 1..] + [id[|id| - 1]];
        p
      else None
  }

  /** Appending a `/`-free leaf to an id and asking for the parent gives the id back. */
  lemma ParentOfChild(parent: string, leaf: string)
    requires '/' !in leaf
    ensures ParentId(parent + "/" + leaf) == Some(parent)
  {
    var id := parent + "/" + leaf;
    assert id[|parent|] == '/';
    assert id[..|parent|] == parent;
    assert id[|parent| + 1..] == leaf;
  }

  /** The ids the inheritance walk visits: `id`, its parent, its grandparent, up to a root id. */
  function Ancestry(id: string): (chain: seq<string>)
    ensures |chain| >= 1 && chain[0] == id
    ensures forall i :: 0 <= i < |chain| - 1 ==> ParentId(chain[i]) == Some(chain[i + 1])
    ensures ParentId(chain[|chain| - 1]) == None
    decreases |id|
  {
    match ParentId(id)
    case None => [id]
    case Some(p) => [id] + Ancestry(p)
  }
}

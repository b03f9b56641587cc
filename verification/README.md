# Preset catalog engine of Go Map!!, modelled in Dafny

This project models the preset catalog engine of Go Map!!
(`src/Shared/PresetsDatabase/PresetsDatabase.swift`). The engine holds the
presets, which are the categories of mapped things, keyed by hierarchical ids
like `amenity/restaurant`. It holds two tag indexes over them: one over the
generic presets, and one over the generic presets plus the NSI presets. NSI
is the name suggestion index, a larger set of brand presets loaded later.
The model covers:

- the overlay merge `Translate`, which lays a localisation document over a
  baseline document (module `Overlay`, over the JSON tree of module `Json`);
- the `Dictionary` helpers `mapValuesWithKeys` and `compactMapValuesWithKeys`
  (module `Dict`);
- `buildTagIndex`, the inverted index from tag key to presets (module `TagIndex`);
- the database state, meaning the generic presets, the NSI presets and the two
  indexes. It covers building the generic side from the merged presets
  document and the one-step publication of the NSI presets. It also covers
  enumeration, lookup by id and the inheritance walk up the id hierarchy
  (module `Database`);
- best-preset selection `presetFeatureMatching` (module `Matching`) and text
  search `featuresMatchingSearchText` (module `Search`).

Modelling choices:

- A Swift dictionary that the code iterates is an association list
  `seq<(K, V)>`. Its order is the iteration order. Swift leaves that order
  unspecified, so every property below holds for any order. A lookup finds
  the first entry with the key. `dict[k] = v` replaces the entry in place or
  appends one. `dict[k] = nil` removes the entry.
- Some lemmas carry `UniqueKeys`. This is the fact that a dictionary has each
  key at most once.
- A preset's own tag pattern is a `map`, because the code only uses its key
  set. The tag index is a `map` too, because it is only looked up.
- The preset type's collaborators are not part of this model. They are
  `matchObjectTagsScore`, `matchesSearchText`, `locationSetIncludes` and the
  preset parser. They appear as function parameters.
- `parentIDofID` is `Features.ParentId`. It drops the last `/`-segment and
  gives nil for an id without `/`.
- Scores are `real`.

What the code does, in four places where it is easy to misread:

- A translation value that is not a dictionary does not replace the base
  value. `Translate` returns the base unchanged in that case (:60-62).
- The significant keys of the tag index are the text before the *first* `/`
  of each generic preset id (:208-211).
- `presetFeatureMatching` returns nil without scanning only for *nil* tags
  (:286). Empty tags still scan the catch-all bucket `""`. The scan order is
  the dictionary's order. It is not lexicographic.
- An empty or nil search text yields an empty result only when
  `matchesSearchText` says so. That function is not part of this model.

The overlay merge is modelled twice. `Overlay.TranslateAsWritten` is the merge
as the code writes it, and `Database.Init` builds on it, as :119 does.
`Overlay.Translate` is a corrected merge, which stores the injected
`"strings"` after the first pass (see "## Findings"). Because of that, the two
can order a node's entries differently even where they agree key by key.

## Model

| member | source | states |
|---|---|---|
| Dict.MapValuesWithKeys | src/Shared/PresetsDatabase/PresetsDatabase.swift:12-20 | each key holds `transform(key, value)` and the key set is the input's; a dictionary stays a dictionary. The result keeps the input's entry order, a choice of the model: Swift gives the fresh dictionary its own order |
| Dict.CompactMapValuesWithKeys | src/Shared/PresetsDatabase/PresetsDatabase.swift:22-31 | the result's keys are among the input's; for a dictionary, each key holds `transform(key, value)` when that is non-nil and is absent when it is nil. The kept entries stay in input order, a choice of the model |
| Dict.Put | src/Shared/PresetsDatabase/PresetsDatabase.swift:69 | after `d[k] = v`, `k` holds `v`, every other key is unchanged, the key set gains `k`, and no key becomes duplicated |
| Dict.Assign | src/Shared/PresetsDatabase/PresetsDatabase.swift:70 | `d[k] = v` with an optional `v` leaves `k` holding `v`, or absent for nil, and changes no other key |
| Dict.Remove | src/Shared/PresetsDatabase/PresetsDatabase.swift:70 | after `d[k] = nil`, `k` is absent, every other key is unchanged, and the key set loses exactly `k` |
| Overlay.Translate | src/Shared/PresetsDatabase/PresetsDatabase.swift:59-62 | a translation that is nil or not a dictionary leaves the base as it is; otherwise the result is a dictionary |
| Overlay.AddMissing | src/Shared/PresetsDatabase/PresetsDatabase.swift:76-81 | the second pass adds exactly the translation's keys; it never overwrites a key already produced, and it copies each new key's translation value |
| Overlay.TranslateMembersKeys | src/Shared/PresetsDatabase/PresetsDatabase.swift:66-74 | the corrected first pass, which leaves `"strings"` to after the loop, adds exactly the base's keys to what it has stored so far, and stores no key twice |
| Overlay.TranslateMembersKeepsOthers | src/Shared/PresetsDatabase/PresetsDatabase.swift:66-74 | the corrected first pass leaves the stored entry of any key the base does not have unchanged |
| Overlay.TranslateMembersValue | src/Shared/PresetsDatabase/PresetsDatabase.swift:66-74 | after the corrected first pass each base key holds `"options"`'s base value verbatim, or, for any other key, the recursive merge with the translation's entry for that key |
| Overlay.TranslateKeepsBaseKeys | src/Shared/PresetsDatabase/PresetsDatabase.swift:66-82 | the merged keys are the base's keys, plus the translation's keys, plus `"strings"` when both have `"options"`; no base key is deleted and no key is duplicated |
| Overlay.TranslateDocumentKeys | src/Shared/PresetsDatabase/PresetsDatabase.swift:59-83 | for any translation, a base dictionary merges to a dictionary that keeps every base key |
| Overlay.AsWrittenDocumentKeys | src/Shared/PresetsDatabase/PresetsDatabase.swift:59-83 | for any translation, the source's merge turns a base dictionary into a dictionary that keeps every base key except possibly `"strings"`, and duplicates no key when the base has none |
| Overlay.TranslateRecursesOnKey | src/Shared/PresetsDatabase/PresetsDatabase.swift:71-73 | a base key other than `"options"` holds `Translate(orig[k], translation[k])` (the injected `"strings"` excepted) |
| Overlay.TranslateKeepsUntranslatedKey | src/Shared/PresetsDatabase/PresetsDatabase.swift:71-73 | a base key the translation lacks keeps its base value verbatim |
| Overlay.TranslateOptionsToStrings | src/Shared/PresetsDatabase/PresetsDatabase.swift:68-70 | `"options"` keeps its base value verbatim, with no recursion; when the translation has `"options"`, `"strings"` holds it |
| Overlay.TranslateCopiesTranslationOnlyKeys | src/Shared/PresetsDatabase/PresetsDatabase.swift:76-81 | a key only the translation has holds the translation's value |
| Overlay.TranslateEmptyIsIdentity | src/Shared/PresetsDatabase/PresetsDatabase.swift:59-83 | merging an empty translation dictionary gives back the base document |
| Overlay.TranslateAsWritten | src/Shared/PresetsDatabase/PresetsDatabase.swift:59-83 | the source's merge: a translation that is not a dictionary leaves the base as it is; otherwise the result is a dictionary (its per-key behaviour is stated by the `AsWritten` lemmas below) |
| Overlay.StepAsWritten | src/Shared/PresetsDatabase/PresetsDatabase.swift:68-73 | one step of the source's first pass: store the member under its key, and on `"options"` also assign `"strings"`; its effect is stated by the `TranslateMembersAsWritten` lemmas below |
| Overlay.TranslateMembersAsWritten | src/Shared/PresetsDatabase/PresetsDatabase.swift:66-74 | the source's first pass over the base members; its keys, untouched entries, values and `"strings"` are stated by the four lemmas below |
| Overlay.TranslateMembersAsWrittenKeys | src/Shared/PresetsDatabase/PresetsDatabase.swift:66-74 | the source's first pass adds the base's keys to what it has stored so far, with `"strings"` possibly added or removed, and stores no key twice |
| Overlay.TranslateMembersAsWrittenKeepsOthers | src/Shared/PresetsDatabase/PresetsDatabase.swift:66-74 | the source's first pass leaves the entry of a key the base lacks unchanged, and that of `"strings"` too when the base lacks `"options"` |
| Overlay.TranslateMembersAsWrittenValue | src/Shared/PresetsDatabase/PresetsDatabase.swift:66-74 | after the source's first pass each base key other than `"strings"` holds `"options"`'s base value verbatim or the recursive source merge |
| Overlay.TranslateMembersAsWrittenStrings | src/Shared/PresetsDatabase/PresetsDatabase.swift:68-70 | when the base has `"options"` and no `"strings"`, the source's first pass leaves `"strings"` as the translation's `"options"`, or absent when that is nil |
| Overlay.AsWrittenKeepsBaseKeys | src/Shared/PresetsDatabase/PresetsDatabase.swift:66-82 | the source's merge keeps every base key and every translation key, `"strings"` aside, and duplicates none |
| Overlay.AsWrittenRecursesOnKey | src/Shared/PresetsDatabase/PresetsDatabase.swift:71-73 | in the source's merge a base key other than `"options"` and `"strings"` holds `TranslateAsWritten(orig[k], translation[k])` |
| Overlay.AsWrittenKeepsOptions | src/Shared/PresetsDatabase/PresetsDatabase.swift:68-69 | in the source's merge `"options"` keeps its base value verbatim |
| Overlay.AsWrittenCopiesTranslationOnlyKeys | src/Shared/PresetsDatabase/PresetsDatabase.swift:76-81 | in the source's merge a key only the translation has, `"strings"` aside, holds the translation's value |
| Overlay.AsWrittenStringsWithoutBaseStrings | src/Shared/PresetsDatabase/PresetsDatabase.swift:68-81 | for a base node without `"strings"`, the source's `"strings"` is the translation's `"options"` when both have `"options"`, else the translation's `"strings"`, exactly as in the corrected merge |
| Overlay.AsWrittenDropsBaseStrings | src/Shared/PresetsDatabase/PresetsDatabase.swift:68-70 | the source's merge deletes a base `"strings"` iterated before `"options"` when the translation has no `"options"`; the corrected merge keeps it |
| Overlay.AsWrittenOverwritesInjectedStrings | src/Shared/PresetsDatabase/PresetsDatabase.swift:67-73 | the source's merge lets a base `"strings"` iterated after `"options"` replace the translated options; the corrected merge keeps the translation's |
| Features.FirstSegment | src/Shared/PresetsDatabase/PresetsDatabase.swift:208-211 | the key is the id's prefix up to its first `/`, or the whole id when it has no `/`; it contains no `/` |
| Features.ParentId | src/Shared/PresetsDatabase/PresetsDatabase.swift:265 | the parent is nil exactly when the id has no `/`; otherwise it is the prefix before the id's last `/` |
| Features.ParentOfChild | src/Shared/PresetsDatabase/PresetsDatabase.swift:265 | the parent of `parent + "/" + leaf`, for a `/`-free leaf, is `parent` |
| Features.Ancestry | src/Shared/PresetsDatabase/PresetsDatabase.swift:258-266 | the chain the walk visits starts at the id; each next id is the previous id's parent; it ends at an id with no parent |
| TagIndex.SignificantKeys | src/Shared/PresetsDatabase/PresetsDatabase.swift:205-213 | a key is significant exactly when it is the first segment of some base preset id |
| TagIndex.AllFeatures | src/Shared/PresetsDatabase/PresetsDatabase.swift:215-216 | the features scanned are exactly those of the input lists |
| TagIndex.Bucket | src/Shared/PresetsDatabase/PresetsDatabase.swift:214-233 | the reference bucket holds exactly the input features filed under the key, in input order |
| TagIndex.AddFeature | src/Shared/PresetsDatabase/PresetsDatabase.swift:217-230 | files one feature under each significant key it uses, else under `""`; stated by `TagIndex.AddFeatureBuckets` |
| TagIndex.AddFeatureBuckets | src/Shared/PresetsDatabase/PresetsDatabase.swift:217-230 | one feature is appended to each of its significant keys' buckets, or to `""` when it has none, and to no other bucket |
| TagIndex.AddFeaturesBuckets | src/Shared/PresetsDatabase/PresetsDatabase.swift:214-233 | after the loop, each bucket is its old contents followed by the reference bucket of the scanned features |
| TagIndex.BuildTagIndex | src/Shared/PresetsDatabase/PresetsDatabase.swift:202-234 | `buildTagIndex`: the fold of `AddFeature` over all input features; its buckets are stated by `TagIndex.BuildTagIndexBuckets` and `TagIndex.BuildTagIndexMembership` |
| TagIndex.BuildTagIndexBuckets | src/Shared/PresetsDatabase/PresetsDatabase.swift:202-234 | every bucket of the built index equals the reference bucket, with significant keys from the base presets only; absent keys are exactly those with empty buckets |
| TagIndex.BuildTagIndexMembership | src/Shared/PresetsDatabase/PresetsDatabase.swift:215-231 | a feature is in bucket `k` iff it is an input feature and either uses significant key `k`, or `k` is `""` and it uses no significant key |
| TagIndex.EveryFeatureIndexed | src/Shared/PresetsDatabase/PresetsDatabase.swift:217-230 | every input feature is in at least one bucket |
| Database.Init | src/Shared/PresetsDatabase/PresetsDatabase.swift:119-134 | the built database has both indexes consistent with its presets; its NSI side is empty and its NSI index is the generic index; its preset ids come from the document as the source's merge produces it |
| Database.InitParsesEachPreset | src/Shared/PresetsDatabase/PresetsDatabase.swift:119-124 | the generic preset under each id is the parser's reading of the entry for that id in the source's merge of the document |
| Database.PublishNsi | src/Shared/PresetsDatabase/PresetsDatabase.swift:142-146 | publication replaces the NSI presets and the NSI index together, leaves the generic side untouched, and keeps both indexes consistent |
| Database.PublishedNsiIndexContents | src/Shared/PresetsDatabase/PresetsDatabase.swift:125-146 | before and after publication, the NSI index files exactly the generic and NSI presets a direct scan would file under each key |
| Database.EnumeratePresets | src/Shared/PresetsDatabase/PresetsDatabase.swift:237-241 | visits every generic preset once, in dictionary order, and no NSI preset |
| Database.EnumeratePresetsAndNsi | src/Shared/PresetsDatabase/PresetsDatabase.swift:243-250 | visits the generic presets in order, then the NSI presets in order, and nothing else |
| Database.PresetFeatureForFeatureID | src/Shared/PresetsDatabase/PresetsDatabase.swift:277-279 | a generic preset with the id wins; otherwise the NSI preset with it is returned; the result is nil only when neither has the id |
| Database.InheritedFieldForPresetsDict | src/Shared/PresetsDatabase/PresetsDatabase.swift:253-268 | returns the field of the nearest id in `id, parent(id), ...` whose preset sets it; returns nil for a nil id or when no id in the chain sets it |
| Database.InheritedValueOfFeature | src/Shared/PresetsDatabase/PresetsDatabase.swift:270-275 | the same walk over the generic presets only, so NSI presets never supply a value |
| Matching.AdjustedScore | src/Shared/PresetsDatabase/PresetsDatabase.swift:296-299 | a searchable feature keeps its score; a non-searchable one is marked down slightly; the sign of the score is kept |
| Matching.SearchableWinsTies | src/Shared/PresetsDatabase/PresetsDatabase.swift:297-300 | at equal positive raw score a searchable feature outscores a non-searchable one |
| Matching.CandidatesMembership | src/Shared/PresetsDatabase/PresetsDatabase.swift:291-295 | the scanned candidates are exactly the features of the active index's buckets for the scanned keys |
| Matching.RunningBestStep | src/Shared/PresetsDatabase/PresetsDatabase.swift:300-303 | one strict comparison either takes the new candidate as best, or keeps the first best so far |
| Matching.ScanBucket | src/Shared/PresetsDatabase/PresetsDatabase.swift:294-303 | scanning one bucket continues the running maximum: the best score never drops, and a new best is a feature of that bucket |
| Matching.PresetFeatureMatching | src/Shared/PresetsDatabase/PresetsDatabase.swift:281-308 | nil tags give nil; otherwise the result is nil iff no candidate scores above zero, else the first candidate with the highest adjusted score, over the NSI or the generic index as asked |
| Matching.MatchComesFromScannedBucket | src/Shared/PresetsDatabase/PresetsDatabase.swift:291-303 | a returned preset comes from the bucket of one of the object's tag keys or of `""`, and its adjusted score is positive |
| Matching.ActiveIndexBeforePublish | src/Shared/PresetsDatabase/PresetsDatabase.swift:133 | before NSI publication, both indexes are the same |
| Search.SearchList | src/Shared/PresetsDatabase/PresetsDatabase.swift:314-324 | every listed pair is a scanned preset that is searchable, lies in its location set, and matches the text with the listed score; every such preset is listed |
| Search.FeaturesMatchingSearchText | src/Shared/PresetsDatabase/PresetsDatabase.swift:310-325 | the same over the generic and NSI presets of the database |
| Search.SearchListAppend | src/Shared/PresetsDatabase/PresetsDatabase.swift:315-323 | searching two preset sequences one after the other lists the first one's matches, then the second one's |
| Search.SearchStandardBeforeNsi | src/Shared/PresetsDatabase/PresetsDatabase.swift:243-250 | the search lists the generic presets' matches first, in order, then the NSI presets' matches |

## Left out

- Bundle file reading and `JSONSerialization` (`jsonForFile`, :49-57) are left out. The model takes parsed documents as inputs.
- `init`'s other loads are left out (:95-116, :127-129). They read the translations file and the localised yes/no/unknown words, and build the field, default, address-format and category catalogs. They are file input followed by conversions into types that are not part of this model. Only the presets document path (:119-125) is modelled.
- The NSI presets document parse (:137-141) is left out. It is file input with forced unwraps. `Database.PublishNsi` takes the parsed NSI presets.
- The background queues, the DEBUG all-languages check and the GeoJSON loading (:136-194) are left out, as is the `nsiGeoJson` state. This is concurrency and file input. The one state update they end in is `Database.PublishNsi`.
- `taginfoCache` (:198) is left out. It is a network-fed advisory cache.
- The process-wide `shared` instance and `reload` (:35-39) are left out. They are mutable global state. A reload is a fresh `Database.Init`.
- The bodies of `matchObjectTagsScore`, `matchesSearchText`, `locationSetIncludes`, `parentIDofID` and the preset parser are not part of this model. The first three and the parser are parameters. `parentIDofID` is `Features.ParentId`, which drops the last `/`-segment of an id and gives nil for an id without `/`.
- Double-precision rounding of the scores and of the `0.999` markdown is not modelled. Scores are exact reals.
- Overlay.Translate: requires `Castable`, the condition under which the source's forced cast `orig as! [String: Any]` (:63) cannot trap; the trap itself is not modelled.
- Overlay.TranslateAsWritten: requires `Castable` for the same reason; the trap at :63 is not modelled.
- Database.Init: requires every merged preset entry to be a dictionary, the condition under which the forced cast at :122 cannot trap; the trap itself is not modelled.

## Findings

| source | as written | input that shows it | evidently intended | confidence | as-written member | corrected member |
|---|---|---|---|---|---|---|
| src/Shared/PresetsDatabase/PresetsDatabase.swift:70 | `newDict["strings"] = translation[key]` assigns nil when the translation has no `"options"`. This removes a `"strings"` entry already copied from the base. | base `{"strings": "s", "options": []}` iterated in that order, translation `{}`: the merged node has no `"strings"` | the merge never deletes a base key; `"strings"` is written only when the translation supplies `"options"` | not executed; medium (only bites when a base node carries both keys) | Overlay.AsWrittenDropsBaseStrings | Overlay.TranslateKeepsBaseKeys |
| src/Shared/PresetsDatabase/PresetsDatabase.swift:67-73 | The injected `"strings"` is stored while the loop is still running. A base `"strings"` visited later overwrites it, so the result depends on dictionary iteration order. | base `{"options": [], "strings": "s"}` iterated options first, translation `{"options": "t"}`: `"strings"` ends up `"s"` | `"strings"` holds the translation's options whenever both nodes have `"options"`, whatever the order | not executed; low (the intended winner is inferred) | Overlay.AsWrittenOverwritesInjectedStrings | Overlay.TranslateOptionsToStrings |

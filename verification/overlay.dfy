/**
 `Translate`: the overlay merge of a localisation document onto a baseline
 document (PresetsDatabase.swift:59-83). `TranslateAsWritten` is the merge as
 the source writes it, and the one the rest of the model uses; `Translate` is
 the corrected merge. The counterexamples at the end of the module show where
 the two differ.
 */
module Overlay {
  import opened Wrappers
  import opened Dict
  import opened Json

  /**
   The source force-casts `orig` to a dictionary whenever the translation is
   one (:63) and recurses into every key except `"options"`; a document pair
   that passes every such cast.
   */
  ghost predicate Castable(orig: Value, translation: Option<Value>)
    decreases orig, 1
  {
    match translation
    case Some(Obj(tm)) => orig.Obj? && forall m | m in orig.members :: MemberCastable(m.0, m.1, tm)
    case _ => true
  }

  ghost predicate MemberCastable(key: string, v: Value, tm: Dict<string, Value>)
    decreases v, 2
  {
    key == "options" || Castable(v, Lookup(tm, key))
  }

  /** Whether the merge gives the node a `"strings"` entry from the translation's `"options"`. */
  predicate InjectsStrings(om: Dict<string, Value>, tm: Dict<string, Value>) {
    "options" in Keys(om) && "options" in Keys(tm)
  }

  // ---------------------------------------------------------------------------
  // The corrected merge
  // ---------------------------------------------------------------------------

  function Translate(orig: Value, translation: Option<Value>): (r: Value)
    requires Castable(orig, translation)
    ensures !IsDictionary(translation) ==> r == orig
    ensures IsDictionary(translation) ==> r.Obj?
    decreases orig, 1
  {
    match translation
    case Some(Obj(tm)) =>
      var pass := TranslateMembers(orig, orig.members, tm, []);
      var withStrings :=
        if InjectsStrings(orig.members, tm) then Put(pass, "strings", Lookup(tm, "options").value) else pass;
      Obj(AddMissing(withStrings, tm))
    case _ => orig
  }

  /** The value the first pass stores under `key`: `"options"` verbatim, anything else merged recursively. */
  function MemberValue(key: string, v: Value, tm: Dict<string, Value>): Value
    requires MemberCastable(key, v, tm)
    decreases v, 3
  {
    if key == "options" then v else Translate(v, Lookup(tm, key))
  }

  /** First pass (:67-74) over the members `rest` of `orig` still to visit, storing into `acc`. */
  function TranslateMembers(orig: Value, rest: Dict<string, Value>, tm: Dict<string, Value>,
                            acc: Dict<string, Value>): Dict<string, Value>
    requires orig.Obj? && forall m | m in rest :: m in orig.members
    requires forall m | m in rest :: MemberCastable(m.0, m.1, tm)
    decreases orig, 0, |rest|
  {
    if rest == [] then acc
    else
      assert rest[0] in orig.members;
      TranslateMembers(orig, rest[1..], tm, Put(acc, rest[0].0, MemberValue(rest[0].0, rest[0].1, tm)))
  }

  /** Second pass (:77-81): keys found only in the translation are copied over. */
  function AddMissing(acc: Dict<string, Value>, tm: Dict<string, Value>): (r: Dict<string, Value>)
    ensures Keys(r) == Keys(acc) + Keys(tm)
    ensures forall k | k in Keys(acc) :: Lookup(r, k) == Lookup(acc, k)
    ensures forall k | k !in Keys(acc) :: Lookup(r, k) == Lookup(tm, k)
    ensures UniqueKeys(acc) ==> UniqueKeys(r)
    decreases |tm|
  {
    if tm == [] then acc
    else
      var k := tm[0].0;
      AddMissing(if k in Keys(acc) then acc else Put(acc, k, tm[0].1), tm[1..])
  }

  /** The first pass adds exactly the visited keys to `acc`, and never duplicates one. */
  lemma {:induction false} TranslateMembersKeys(orig: Value, rest: Dict<string, Value>, tm: Dict<string, Value>,
                                                acc: Dict<string, Value>)
    requires orig.Obj? && forall m | m in rest :: m in orig.members
    requires forall m | m in rest :: MemberCastable(m.0, m.1, tm)
    ensures Keys(TranslateMembers(orig, rest, tm, acc)) == Keys(acc) + Keys(rest)
    ensures UniqueKeys(acc) ==> UniqueKeys(TranslateMembers(orig, rest, tm, acc))
  {
    if rest != [] {
      assert rest[0] in orig.members;
      assert forall m | m in rest[1..] :: m in rest;
      TranslateMembersKeys(orig, rest[1..], tm, Put(acc, rest[0].0, MemberValue(rest[0].0, rest[0].1, tm)));
    }
  }

  /** The first pass leaves the entries of `acc` under keys it does not visit alone. */
  lemma {:induction false} TranslateMembersKeepsOthers(orig: Value, rest: Dict<string, Value>, tm: Dict<string, Value>,
                                                       acc: Dict<string, Value>, k: string)
    requires orig.Obj? && forall m | m in rest :: m in orig.members
    requires forall m | m in rest :: MemberCastable(m.0, m.1, tm)
    requires k !in Keys(rest)
    ensures Lookup(TranslateMembers(orig, rest, tm, acc), k) == Lookup(acc, k)
  {
    if rest != [] {
      assert rest[0] in orig.members;
      assert forall m | m in rest[1..] :: m in rest;
      TranslateMembersKeepsOthers(orig, rest[1..], tm, Put(acc, rest[0].0, MemberValue(rest[0].0, rest[0].1, tm)), k);
    }
  }

  /** Every visited key ends up holding its `MemberValue`. */
  lemma {:induction false} TranslateMembersValue(orig: Value, rest: Dict<string, Value>, tm: Dict<string, Value>,
                                                 acc: Dict<string, Value>, k: string)
    requires orig.Obj? && forall m | m in rest :: m in orig.members
    requires forall m | m in rest :: MemberCastable(m.0, m.1, tm)
    requires UniqueKeys(rest) && k in Keys(rest)
    ensures (k, Lookup(rest, k).value) in orig.members
    ensures Lookup(TranslateMembers(orig, rest, tm, acc), k) == Some(MemberValue(k, Lookup(rest, k).value, tm))
  {
    assert rest[0] in orig.members;
    assert forall m | m in rest[1..] :: m in rest;
    var acc' := Put(acc, rest[0].0, MemberValue(rest[0].0, rest[0].1, tm));
    if k == rest[0].0 {
      TranslateMembersKeepsOthers(orig, rest[1..], tm, acc', k);
    } else {
      TranslateMembersValue(orig, rest[1..], tm, acc', k);
    }
  }

  /** An untranslated document pair: the first pass rebuilds the members verbatim. */
  lemma {:induction false} TranslateMembersEmpty(orig: Value, rest: Dict<string, Value>, acc: Dict<string, Value>)
    requires orig.Obj? && forall m | m in rest :: m in orig.members
    requires forall m | m in rest :: MemberCastable(m.0, m.1, [])
    requires UniqueKeys(rest) && Keys(acc) !! Keys(rest)
    ensures TranslateMembers(orig, rest, [], acc) == acc + rest
  {
    if rest != [] {
      var (k, v) := rest[0];
      var acc' := acc + [(k, v)];
      assert TranslateMembers(orig, rest, [], acc) == TranslateMembers(orig, rest[1..], [], acc') by {
        assert rest[0] in orig.members;
        assert MemberValue(k, v, []) == v;
        assert k !in Keys(acc);
      }
      assert Keys(acc') !! Keys(rest[1..]) by {
        assert Keys(acc') == Keys(acc) + {k} by { assert Put(acc, k, v) == acc'; }
      }
      assert forall m | m in rest[1..] :: m in rest;
      TranslateMembersEmpty(orig, rest[1..], acc');
      AppendFirst(acc, rest);
    }
  }

  /** The merge never deletes a base key; its keys are the base's, the translation's and possibly `"strings"`. */
  lemma TranslateKeepsBaseKeys(orig: Value, tm: Dict<string, Value>)
    requires Castable(orig, Some(Obj(tm))) && UniqueKeys(orig.members)
    ensures var r := Translate(orig, Some(Obj(tm)));
      Keys(r.members) == Keys(orig.members) + Keys(tm) + (if InjectsStrings(orig.members, tm) then {"strings"} else {})
    ensures UniqueKeys(Translate(orig, Some(Obj(tm))).members)
  {
    TranslateMembersKeys(orig, orig.members, tm, []);
    var pass := TranslateMembers(orig, orig.members, tm, []);
    if InjectsStrings(orig.members, tm) {
      var withStrings := Put(pass, "strings", Lookup(tm, "options").value);
      assert Translate(orig, Some(Obj(tm))).members == AddMissing(withStrings, tm);
    } else {
      assert Translate(orig, Some(Obj(tm))).members == AddMissing(pass, tm);
    }
  }

  /** A base dictionary keeps all its keys, and stays a dictionary, whatever the translation. */
  lemma TranslateDocumentKeys(orig: Value, translation: Option<Value>)
    requires Castable(orig, translation) && orig.Obj?
    ensures Translate(orig, translation).Obj?
    ensures UniqueKeys(orig.members) ==>
      && Keys(orig.members) <= Keys(Translate(orig, translation).members)
      && UniqueKeys(Translate(orig, translation).members)
  {
    if UniqueKeys(orig.members) && IsDictionary(translation) {
      TranslateKeepsBaseKeys(orig, translation.value.members);
    }
  }

  /** A base key other than `"options"` holds the recursive merge with the translation's entry for that key. */
  lemma TranslateRecursesOnKey(orig: Value, tm: Dict<string, Value>, k: string)
    requires Castable(orig, Some(Obj(tm))) && UniqueKeys(orig.members)
    requires k in Keys(orig.members) && k != "options" && !(k == "strings" && InjectsStrings(orig.members, tm))
    ensures Castable(Lookup(orig.members, k).value, Lookup(tm, k))
    ensures Lookup(Translate(orig, Some(Obj(tm))).members, k) == Some(Translate(Lookup(orig.members, k).value, Lookup(tm, k)))
  {
    TranslateMembersValue(orig, orig.members, tm, [], k);
    assert MemberCastable(k, Lookup(orig.members, k).value, tm);
  }

  /** A base key the translation does not mention keeps its base value verbatim. */
  lemma TranslateKeepsUntranslatedKey(orig: Value, tm: Dict<string, Value>, k: string)
    requires Castable(orig, Some(Obj(tm))) && UniqueKeys(orig.members)
    requires k in Keys(orig.members) && k !in Keys(tm) && !(k == "strings" && InjectsStrings(orig.members, tm))
    ensures Lookup(Translate(orig, Some(Obj(tm))).members, k) == Lookup(orig.members, k)
  {
    TranslateMembersValue(orig, orig.members, tm, [], k);
  }

  /** `"options"` is kept verbatim and its translation becomes the sibling `"strings"`, without recursion. */
  lemma TranslateOptionsToStrings(orig: Value, tm: Dict<string, Value>)
    requires Castable(orig, Some(Obj(tm))) && UniqueKeys(orig.members)
    requires "options" in Keys(orig.members)
    ensures Lookup(Translate(orig, Some(Obj(tm))).members, "options") == Lookup(orig.members, "options")
    ensures "options" in Keys(tm) ==>
      Lookup(Translate(orig, Some(Obj(tm))).members, "strings") == Lookup(tm, "options")
  {
    TranslateMembersValue(orig, orig.members, tm, [], "options");
  }

  /** Keys only the translation has are copied into the result. */
  lemma TranslateCopiesTranslationOnlyKeys(orig: Value, tm: Dict<string, Value>, k: string)
    requires Castable(orig, Some(Obj(tm))) && UniqueKeys(orig.members)
    requires k !in Keys(orig.members) && !(k == "strings" && InjectsStrings(orig.members, tm))
    ensures Lookup(Translate(orig, Some(Obj(tm))).members, k) == Lookup(tm, k)
  {
    TranslateMembersKeepsOthers(orig, orig.members, tm, [], k);
  }

  /** An empty translation dictionary leaves the document as it was. */
  lemma TranslateEmptyIsIdentity(orig: Value)
    requires orig.Obj? && UniqueKeys(orig.members)
    requires Castable(orig, Some(Obj([])))
    ensures Translate(orig, Some(Obj([]))) == orig
  {
    TranslateMembersEmpty(orig, orig.members, []);
    assert [] + orig.members == orig.members;
  }

  // ---------------------------------------------------------------------------
  // The merge as the source writes it
  // ---------------------------------------------------------------------------

  /**
   The source's merge: on `"options"` it stores `translation["options"]` under
   `"strings"` at whatever point `"options"` comes in the base's iteration
   order, and a nil there removes `"strings"` (a Swift `dict[k] = nil`).
   */
  function TranslateAsWritten(orig: Value, translation: Option<Value>): (r: Value)
    requires Castable(orig, translation)
    ensures !IsDictionary(translation) ==> r == orig
    ensures IsDictionary(translation) ==> r.Obj?
    decreases orig, 1
  {
    match translation
    case Some(Obj(tm)) => Obj(AddMissing(TranslateMembersAsWritten(orig, orig.members, tm, []), tm))
    case _ => orig
  }

  /** The value the source's first pass stores under `key` (:69, :72). */
  function MemberValueAsWritten(key: string, v: Value, tm: Dict<string, Value>): Value
    requires MemberCastable(key, v, tm)
    decreases v, 3
  {
    if key == "options" then v else TranslateAsWritten(v, Lookup(tm, key))
  }

  /** One step of the source's first pass: store the member; on `"options"`, also `newDict["strings"] = translation["options"]` (:70). */
  function StepAsWritten(acc: Dict<string, Value>, key: string, v: Value, tm: Dict<string, Value>): Dict<string, Value>
    requires MemberCastable(key, v, tm)
    decreases v, 4
  {
    var stored := Put(acc, key, MemberValueAsWritten(key, v, tm));
    if key == "options" then Assign(stored, "strings", Lookup(tm, "options")) else stored
  }

  function TranslateMembersAsWritten(orig: Value, rest: Dict<string, Value>, tm: Dict<string, Value>,
                                     acc: Dict<string, Value>): Dict<string, Value>
    requires orig.Obj? && forall m | m in rest :: m in orig.members
    requires forall m | m in rest :: MemberCastable(m.0, m.1, tm)
    decreases orig, 0, |rest|
  {
    if rest == [] then acc
    else
      assert rest[0] in orig.members;
      TranslateMembersAsWritten(orig, rest[1..], tm, StepAsWritten(acc, rest[0].0, rest[0].1, tm))
  }

  /** The source's first pass adds the visited keys to `acc`, except that `"strings"` may come or go; no key is duplicated. */
  lemma {:induction false} TranslateMembersAsWrittenKeys(orig: Value, rest: Dict<string, Value>, tm: Dict<string, Value>,
                                                         acc: Dict<string, Value>)
    requires orig.Obj? && forall m | m in rest :: m in orig.members
    requires forall m | m in rest :: MemberCastable(m.0, m.1, tm)
    ensures Keys(TranslateMembersAsWritten(orig, rest, tm, acc)) - {"strings"} == (Keys(acc) + Keys(rest)) - {"strings"}
    ensures UniqueKeys(acc) ==> UniqueKeys(TranslateMembersAsWritten(orig, rest, tm, acc))
  {
    if rest != [] {
      assert rest[0] in orig.members;
      assert forall m | m in rest[1..] :: m in rest;
      var acc' := StepAsWritten(acc, rest[0].0, rest[0].1, tm);
      assert Keys(acc') - {"strings"} == (Keys(acc) + {rest[0].0}) - {"strings"};
      TranslateMembersAsWrittenKeys(orig, rest[1..], tm, acc');
    }
  }

  /**
   The source's first pass leaves the entry of an unvisited key alone, and
   that of `"strings"` too when `"options"` is not visited.
   */
  lemma {:induction false} TranslateMembersAsWrittenKeepsOthers(orig: Value, rest: Dict<string, Value>,
                                                                tm: Dict<string, Value>, acc: Dict<string, Value>,
                                                                k: string)
    requires orig.Obj? && forall m | m in rest :: m in orig.members
    requires forall m | m in rest :: MemberCastable(m.0, m.1, tm)
    requires k !in Keys(rest) && (k == "strings" ==> "options" !in Keys(rest))
    ensures Lookup(TranslateMembersAsWritten(orig, rest, tm, acc), k) == Lookup(acc, k)
  {
    if rest != [] {
      assert rest[0] in orig.members;
      assert forall m | m in rest[1..] :: m in rest;
      var acc' := StepAsWritten(acc, rest[0].0, rest[0].1, tm);
      assert Lookup(acc', k) == Lookup(acc, k);
      TranslateMembersAsWrittenKeepsOthers(orig, rest[1..], tm, acc', k);
    }
  }

  /** In the source's first pass every visited key other than `"strings"` ends up holding its `MemberValueAsWritten`. */
  lemma {:induction false} TranslateMembersAsWrittenValue(orig: Value, rest: Dict<string, Value>, tm: Dict<string, Value>,
                                                          acc: Dict<string, Value>, k: string)
    requires orig.Obj? && forall m | m in rest :: m in orig.members
    requires forall m | m in rest :: MemberCastable(m.0, m.1, tm)
    requires UniqueKeys(rest) && k in Keys(rest) && k != "strings"
    ensures (k, Lookup(rest, k).value) in orig.members
    ensures Lookup(TranslateMembersAsWritten(orig, rest, tm, acc), k) == Some(MemberValueAsWritten(k, Lookup(rest, k).value, tm))
  {
    assert rest[0] in orig.members;
    assert forall m | m in rest[1..] :: m in rest;
    var acc' := StepAsWritten(acc, rest[0].0, rest[0].1, tm);
    if k == rest[0].0 {
      TranslateMembersAsWrittenKeepsOthers(orig, rest[1..], tm, acc', k);
    } else {
      TranslateMembersAsWrittenValue(orig, rest[1..], tm, acc', k);
    }
  }

  /** When the visited members hold `"options"` but no `"strings"`, the source's first pass leaves `"strings"` as `translation["options"]`. */
  lemma {:induction false} TranslateMembersAsWrittenStrings(orig: Value, rest: Dict<string, Value>, tm: Dict<string, Value>,
                                                            acc: Dict<string, Value>)
    requires orig.Obj? && forall m | m in rest :: m in orig.members
    requires forall m | m in rest :: MemberCastable(m.0, m.1, tm)
    requires UniqueKeys(rest) && "options" in Keys(rest) && "strings" !in Keys(rest)
    ensures Lookup(TranslateMembersAsWritten(orig, rest, tm, acc), "strings") == Lookup(tm, "options")
  {
    assert rest[0] in orig.members;
    assert forall m | m in rest[1..] :: m in rest;
    var acc' := StepAsWritten(acc, rest[0].0, rest[0].1, tm);
    if rest[0].0 == "options" {
      TranslateMembersAsWrittenKeepsOthers(orig, rest[1..], tm, acc', "strings");
    } else {
      TranslateMembersAsWrittenStrings(orig, rest[1..], tm, acc');
    }
  }

  lemma SetMinusUnion<T>(a: set<T>, o: set<T>, t: set<T>, x: T)
    requires a - {x} == o - {x}
    ensures (a + t) - {x} == (o + t) - {x}
  {
    forall y | y != x ensures y in a + t <==> y in o + t {
      assert y in a <==> y in a - {x};
    }
  }

  /** The source's merge keeps every key of the base and of the translation, `"strings"` aside, and duplicates none. */
  lemma AsWrittenKeepsBaseKeys(orig: Value, tm: Dict<string, Value>)
    requires Castable(orig, Some(Obj(tm)))
    ensures var r := TranslateAsWritten(orig, Some(Obj(tm)));
      Keys(r.members) - {"strings"} == (Keys(orig.members) + Keys(tm)) - {"strings"}
    ensures UniqueKeys(TranslateAsWritten(orig, Some(Obj(tm))).members)
  {
    TranslateMembersAsWrittenKeys(orig, orig.members, tm, []);
    var pass := TranslateMembersAsWritten(orig, orig.members, tm, []);
    SetMinusUnion(Keys(pass), Keys(orig.members), Keys(tm), "strings");
  }

  /** In the source's merge a base dictionary stays a dictionary, keeps its keys (`"strings"` aside) and duplicates none. */
  lemma AsWrittenDocumentKeys(orig: Value, translation: Option<Value>)
    requires Castable(orig, translation) && orig.Obj?
    ensures TranslateAsWritten(orig, translation).Obj?
    ensures Keys(orig.members) - {"strings"} <= Keys(TranslateAsWritten(orig, translation).members)
    ensures UniqueKeys(orig.members) ==> UniqueKeys(TranslateAsWritten(orig, translation).members)
  {
    if IsDictionary(translation) {
      var tm := translation.value.members;
      AsWrittenKeepsBaseKeys(orig, tm);
      var r := TranslateAsWritten(orig, translation).members;
      assert Keys(orig.members) - {"strings"} <= (Keys(orig.members) + Keys(tm)) - {"strings"};
      assert Keys(r) - {"strings"} == (Keys(orig.members) + Keys(tm)) - {"strings"};
    }
  }

  /** In the source's merge a base key other than `"options"` and `"strings"` holds the recursive merge. */
  lemma AsWrittenRecursesOnKey(orig: Value, tm: Dict<string, Value>, k: string)
    requires Castable(orig, Some(Obj(tm))) && UniqueKeys(orig.members)
    requires k in Keys(orig.members) && k != "options" && k != "strings"
    ensures Castable(Lookup(orig.members, k).value, Lookup(tm, k))
    ensures Lookup(TranslateAsWritten(orig, Some(Obj(tm))).members, k)
      == Some(TranslateAsWritten(Lookup(orig.members, k).value, Lookup(tm, k)))
  {
    TranslateMembersAsWrittenValue(orig, orig.members, tm, [], k);
    assert MemberCastable(k, Lookup(orig.members, k).value, tm);
  }

  /** In the source's merge `"options"` keeps its base value verbatim. */
  lemma AsWrittenKeepsOptions(orig: Value, tm: Dict<string, Value>)
    requires Castable(orig, Some(Obj(tm))) && UniqueKeys(orig.members)
    requires "options" in Keys(orig.members)
    ensures Lookup(TranslateAsWritten(orig, Some(Obj(tm))).members, "options") == Lookup(orig.members, "options")
  {
    TranslateMembersAsWrittenValue(orig, orig.members, tm, [], "options");
  }

  /** In the source's merge a key only the translation has, `"strings"` aside, is copied over. */
  lemma AsWrittenCopiesTranslationOnlyKeys(orig: Value, tm: Dict<string, Value>, k: string)
    requires Castable(orig, Some(Obj(tm)))
    requires k !in Keys(orig.members) && k != "strings"
    ensures Lookup(TranslateAsWritten(orig, Some(Obj(tm))).members, k) == Lookup(tm, k)
  {
    TranslateMembersAsWrittenKeepsOthers(orig, orig.members, tm, [], k);
  }

  /**
   For a base node without `"strings"` the source's merge gives `"strings"`
   the translation's `"options"` when both have `"options"`, else the
   translation's own `"strings"`: the same as the corrected merge.
   */
  lemma AsWrittenStringsWithoutBaseStrings(orig: Value, tm: Dict<string, Value>)
    requires Castable(orig, Some(Obj(tm))) && UniqueKeys(orig.members)
    requires "strings" !in Keys(orig.members)
    ensures Lookup(TranslateAsWritten(orig, Some(Obj(tm))).members, "strings")
      == (if InjectsStrings(orig.members, tm) then Lookup(tm, "options") else Lookup(tm, "strings"))
    ensures Lookup(TranslateAsWritten(orig, Some(Obj(tm))).members, "strings")
      == Lookup(Translate(orig, Some(Obj(tm))).members, "strings")
  {
    var om := orig.members;
    var pass := TranslateMembersAsWritten(orig, om, tm, []);
    if "options" in Keys(om) {
      TranslateMembersAsWrittenStrings(orig, om, tm, []);
    } else {
      TranslateMembersAsWrittenKeepsOthers(orig, om, tm, [], "strings");
    }
    if InjectsStrings(om, tm) {
      TranslateOptionsToStrings(orig, tm);
    } else {
      TranslateCopiesTranslationOnlyKeys(orig, tm, "strings");
    }
  }

  /**
   A base whose `"strings"` is iterated before `"options"`, merged with a
   translation that has no `"options"`, loses its `"strings"` key; the
   corrected merge keeps it.
   */
  lemma AsWrittenDropsBaseStrings()
    ensures var orig := Obj([("strings", Str("s")), ("options", Arr([]))]);
      && Castable(orig, Some(Obj([])))
      && "strings" in Keys(orig.members)
      && "strings" !in Keys(TranslateAsWritten(orig, Some(Obj([]))).members)
      && "strings" in Keys(Translate(orig, Some(Obj([]))).members)
  {
    var orig := Obj([("strings", Str("s")), ("options", Arr([]))]);
    var om := orig.members;
    assert Castable(orig, Some(Obj([])));
    assert om[1..] == [("options", Arr([]))] && om[1..][1..] == [];
    var acc1 := StepAsWritten([], "strings", Str("s"), []);
    var acc2 := StepAsWritten(acc1, "options", Arr([]), []);
    assert TranslateMembersAsWritten(orig, om, [], []) == TranslateMembersAsWritten(orig, om[1..], [], acc1);
    assert TranslateMembersAsWritten(orig, om[1..], [], acc1) == acc2;
    TranslateKeepsBaseKeys(orig, []);
  }

  /** The example of `AsWrittenOverwritesInjectedStrings`: the base and its translation dictionary. */
  function OverwriteBase(): Value {
    Obj([("options", Arr([])), ("strings", Str("s"))])
  }

  function OverwriteTranslation(): Dict<string, Value> {
    [("options", Str("t"))]
  }

  lemma OverwriteCastable()
    ensures Castable(OverwriteBase(), Some(Obj(OverwriteTranslation())))
    ensures UniqueKeys(OverwriteBase().members)
  {
    var tm := OverwriteTranslation();
    assert Lookup(tm, "strings") == None;
  }

  /** As written, the base's own `"strings"`, visited after `"options"`, survives. */
  lemma OverwriteAsWritten()
    ensures Castable(OverwriteBase(), Some(Obj(OverwriteTranslation())))
    ensures Lookup(TranslateAsWritten(OverwriteBase(), Some(Obj(OverwriteTranslation()))).members, "strings")
      == Some(Str("s"))
  {
    OverwriteCastable();
    var orig := OverwriteBase();
    var om := orig.members;
    var tm := OverwriteTranslation();
    assert Lookup(tm, "options") == Some(Str("t")) && Lookup(tm, "strings") == None;
    var tail := om[1..];
    assert tail == [("strings", Str("s"))] && tail[1..] == [];
    var acc1 := StepAsWritten([], "options", Arr([]), tm);
    assert TranslateMembersAsWritten(orig, om, tm, []) == TranslateMembersAsWritten(orig, tail, tm, acc1) by {
      assert om[0] == ("options", Arr([]));
    }
    var acc2 := StepAsWritten(acc1, "strings", Str("s"), tm);
    assert TranslateMembersAsWritten(orig, tail, tm, acc1) == acc2 by {
      assert tail[0] == ("strings", Str("s"));
      assert TranslateAsWritten(Str("s"), None) == Str("s");
    }
  }

  /** The corrected merge stores the translation's `"options"` under `"strings"`. */
  lemma OverwriteCorrected()
    ensures Castable(OverwriteBase(), Some(Obj(OverwriteTranslation())))
    ensures Lookup(Translate(OverwriteBase(), Some(Obj(OverwriteTranslation()))).members, "strings")
      == Some(Str("t"))
  {
    OverwriteCastable();
    TranslateOptionsToStrings(OverwriteBase(), OverwriteTranslation());
  }

  /**
   A base whose `"strings"` is iterated after `"options"` keeps its own
   `"strings"` even though the translation supplies `"options"`; the
   corrected merge takes the translation's.
   */
  lemma AsWrittenOverwritesInjectedStrings()
    ensures var orig := Obj([("options", Arr([])), ("strings", Str("s"))]);
      var tr := Some(Obj([("options", Str("t"))]));
      && Castable(orig, tr)
      && Lookup(TranslateAsWritten(orig, tr).members, "strings") == Some(Str("s"))
      && Lookup(Translate(orig, tr).members, "strings") == Some(Str("t"))
  {
    OverwriteAsWritten();
    OverwriteCorrected();
  }
}

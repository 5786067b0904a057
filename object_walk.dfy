/** Properties of the object verifier's `checkItems`
    (src/verifiers/ObjectVerifier.ts:142-199), stated on the engine's
    specification of it (Engine.ItemGroups, Engine.CatchAllGroups,
    Engine.CheckObjectItems). */
module ObjectWalk {
  import opened Wrappers
  import opened Values
  import opened Outcomes
  import opened Schema
  import ObjectVerifier
  import Engine
  import opened ItemWalks

  // ----- Groups only ever grow -----

  lemma PrefixTrans<T>(a: seq<T>, b: seq<T>, c: seq<T>)
    requires a <= b && b <= c
    ensures a <= c
  {
    assert c[..|a|] == b[..|a|];
  }

  /** One more item keeps the groups so far. */
  lemma ItemGroupsGrow(o: ObjectOptions, fields: seq<(string, Value)>, k: nat)
    requires 0 < k <= |o.items|
    ensures Engine.ItemGroups(o, fields, k - 1) <= Engine.ItemGroups(o, fields, k)
  {
  }

  /** The groups of fewer items start the groups of more items. */
  lemma {:induction false} ItemGroupsPrefix(o: ObjectOptions, fields: seq<(string, Value)>, k: nat, m: nat)
    requires k <= m <= |o.items|
    ensures Engine.ItemGroups(o, fields, k) <= Engine.ItemGroups(o, fields, m)
  {
    if k < m {
      ItemGroupsPrefix(o, fields, k, m - 1);
      ItemGroupsGrow(o, fields, m);
      PrefixTrans(Engine.ItemGroups(o, fields, k), Engine.ItemGroups(o, fields, m - 1), Engine.ItemGroups(o, fields, m));
    }
  }

  /** One more extra key keeps the groups so far, and so keeps every
      prefix of them. */
  lemma ExtraGroupsGrow(g: Verifier, fields: seq<(string, Value)>, extra: seq<string>, k: nat, m: nat)
    requires k < m <= |extra|
    requires Engine.ExtraGroups(g, fields, extra, k) <= Engine.ExtraGroups(g, fields, extra, m - 1)
    ensures Engine.ExtraGroups(g, fields, extra, k) <= Engine.ExtraGroups(g, fields, extra, m)
  {
    var a, b := Engine.ExtraGroups(g, fields, extra, k), Engine.ExtraGroups(g, fields, extra, m - 1);
    assert Engine.ExtraGroups(g, fields, extra, m)[..|b|] == b;
    assert b[..|a|] == a;
  }

  /** The groups of fewer extra keys start the groups of more. */
  lemma {:induction false} ExtraGroupsPrefix(g: Verifier, fields: seq<(string, Value)>, extra: seq<string>, k: nat, m: nat)
    requires k <= m <= |extra|
    ensures Engine.ExtraGroups(g, fields, extra, k) <= Engine.ExtraGroups(g, fields, extra, m)
    decreases m
  {
    if k < m {
      ExtraGroupsPrefix(g, fields, extra, k, m - 1);
      ExtraGroupsGrow(g, fields, extra, k, m);
    }
  }

  // ----- Where a group shows in the answer -----

  /** Flattening keeps each group as its heading followed by its messages. */
  lemma {:induction false} FlattenShows<K>(groups: seq<(K, seq<Msg>)>, heading: K -> Msg, g: nat) returns (p: nat)
    requires g < |groups|
    ensures p + 1 + |groups[g].1| <= |Engine.Flatten(groups, heading)|
    ensures Engine.Flatten(groups, heading)[p] == heading(groups[g].0)
    ensures Engine.Flatten(groups, heading)[p + 1..p + 1 + |groups[g].1|] == groups[g].1
  {
    var rest := Engine.Flatten(groups[1..], heading);
    var first := [heading(groups[0].0)] + groups[0].1;
    assert Engine.Flatten(groups, heading) == first + rest;
    if g == 0 {
      p := 0;
    } else {
      var q := FlattenShows(groups[1..], heading, g - 1);
      p := |first| + q;
      assert (first + rest)[p + 1..p + 1 + |groups[g].1|] == rest[q + 1..q + 1 + |groups[g].1|];
    }
  }

  /** Every group checkItems collects appears in its answer as the key's
      heading followed by the group's messages. */
  lemma GroupShown(o: ObjectOptions, fields: seq<(string, Value)>, g: nat, key: string, ms: seq<Msg>)
    requires g < |Engine.ItemGroups(o, fields, |o.items|) + Engine.CatchAllGroups(o, fields)|
    requires (Engine.ItemGroups(o, fields, |o.items|) + Engine.CatchAllGroups(o, fields))[g] == (key, ms)
    ensures Engine.CheckObjectItems(o, Obj(fields)).Error?
    ensures exists p ::
      && 0 <= p && p + 1 + |ms| <= |Engine.CheckObjectItems(o, Obj(fields)).errors|
      && Engine.CheckObjectItems(o, Obj(fields)).errors[p] == Engine.KeyHeading(key)
      && Engine.CheckObjectItems(o, Obj(fields)).errors[p + 1..p + 1 + |ms|] == ms
  {
    var groups := Engine.ItemGroups(o, fields, |o.items|) + Engine.CatchAllGroups(o, fields);
    var p := FlattenShows(groups, Engine.KeyHeading, g);
  }

  /** The group item `i` raises appears in checkItems' answer, under the
      item's key. */
  lemma ItemGroupShown(o: ObjectOptions, fields: seq<(string, Value)>, i: nat, ms: seq<Msg>)
    requires i < |o.items|
    requires Engine.ItemGroups(o, fields, i + 1) == Engine.ItemGroups(o, fields, i) + [(o.items[i].key, ms)]
    ensures Engine.CheckObjectItems(o, Obj(fields)).Error?
    ensures exists p ::
      && 0 <= p && p + 1 + |ms| <= |Engine.CheckObjectItems(o, Obj(fields)).errors|
      && Engine.CheckObjectItems(o, Obj(fields)).errors[p] == Engine.KeyHeading(o.items[i].key)
      && Engine.CheckObjectItems(o, Obj(fields)).errors[p + 1..p + 1 + |ms|] == ms
  {
    ItemGroupsPrefix(o, fields, i + 1, |o.items|);
    var groups := Engine.ItemGroups(o, fields, |o.items|) + Engine.CatchAllGroups(o, fields);
    var g := |Engine.ItemGroups(o, fields, i)|;
    assert groups[g] == (o.items[i].key, ms);
    GroupShown(o, fields, g, o.items[i].key, ms);
  }

  /** A required item whose key is absent reports `notExists` under its key. */
  lemma RequiredKeyMissing(o: ObjectOptions, fields: seq<(string, Value)>, i: nat)
    requires i < |o.items| && IsTrue(o.items[i].options.required) && !Has(fields, o.items[i].key)
    ensures Engine.CheckObjectItems(o, Obj(fields)).Error?
    ensures exists p ::
      && 0 <= p < |Engine.CheckObjectItems(o, Obj(fields)).errors| - 1
      && Engine.CheckObjectItems(o, Obj(fields)).errors[p] == Engine.KeyHeading(o.items[i].key)
      && Engine.CheckObjectItems(o, Obj(fields)).errors[p + 1] == Msg("errors.object.items.notExists", [ArgStr(o.items[i].key)])
  {
    var ms := [Msg("errors.object.items.notExists", [ArgStr(o.items[i].key)])];
    ItemGroupsNext(o, fields, i);
    ItemGroupShown(o, fields, i, ms);
    var errors := Engine.CheckObjectItems(o, Obj(fields)).errors;
    var p :| 0 <= p && p + 2 <= |errors| && errors[p] == Engine.KeyHeading(o.items[i].key) && errors[p + 1..p + 2] == ms;
    assert errors[p + 1] == errors[p + 1..p + 2][0];
  }

  /** An item that is not required and whose key is absent has its
      verifier run on `undefined`, and that verifier's messages are
      reported under the key. */
  lemma OptionalKeySeesUndefined(o: ObjectOptions, fields: seq<(string, Value)>, i: nat)
    requires i < |o.items| && !IsTrue(o.items[i].options.required) && !Has(fields, o.items[i].key)
    requires Engine.Verify(o.items[i].verifier, Undefined).Error?
    ensures Engine.CheckObjectItems(o, Obj(fields)).Error?
    ensures
      var ms := Engine.Verify(o.items[i].verifier, Undefined).errors;
      exists p ::
        && 0 <= p && p + 1 + |ms| <= |Engine.CheckObjectItems(o, Obj(fields)).errors|
        && Engine.CheckObjectItems(o, Obj(fields)).errors[p] == Engine.KeyHeading(o.items[i].key)
        && Engine.CheckObjectItems(o, Obj(fields)).errors[p + 1..p + 1 + |ms|] == ms
  {
    ItemGroupsNext(o, fields, i);
    ItemGroupShown(o, fields, i, Engine.Verify(o.items[i].verifier, Undefined).errors);
  }

  /** The group of a rejected extra key appears among the extra groups. */
  lemma ExtraGroupShown(g: Verifier, fields: seq<(string, Value)>, extra: seq<string>, j: nat) returns (at: nat)
    requires j < |extra| && !Engine.Verify(g, Get(fields, extra[j])).Success?
    ensures at < |Engine.ExtraGroups(g, fields, extra, |extra|)|
    ensures Engine.ExtraGroups(g, fields, extra, |extra|)[at] == (extra[j], Engine.Verify(g, Get(fields, extra[j])).errors)
  {
    ExtraGroupsPrefix(g, fields, extra, j + 1, |extra|);
    ExtraGroupsNext(g, fields, extra, j, Engine.Verify(g, Get(fields, extra[j])));
    at := |Engine.ExtraGroups(g, fields, extra, j)|;
  }

  /** The group of a rejected extra key appears among the groups the
      catch-all verifier raises. */
  lemma CatchAllShown(o: ObjectOptions, fields: seq<(string, Value)>, j: nat) returns (at: nat)
    requires !IsTrue(o.exact) && o.generalType.Some?
    requires j < |ObjectVerifier.Extra(o, fields)|
    requires !Engine.Verify(o.generalType.value, Get(fields, ObjectVerifier.Extra(o, fields)[j])).Success?
    ensures at < |Engine.CatchAllGroups(o, fields)|
    ensures Engine.CatchAllGroups(o, fields)[at] == (ObjectVerifier.Extra(o, fields)[j],
      Engine.Verify(o.generalType.value, Get(fields, ObjectVerifier.Extra(o, fields)[j])).errors)
  {
    var extra := ObjectVerifier.Extra(o, fields);
    at := ExtraGroupShown(o.generalType.value, fields, extra, j);
  }

  /** An extra key whose value the catch-all verifier rejects has that
      verifier's messages reported under the key. */
  lemma {:induction false} GeneralTypeSeesExtraKeys(o: ObjectOptions, fields: seq<(string, Value)>, j: nat)
    requires !IsTrue(o.exact) && o.generalType.Some?
    requires j < |ObjectVerifier.Extra(o, fields)|
    requires !Engine.Verify(o.generalType.value, Get(fields, ObjectVerifier.Extra(o, fields)[j])).Success?
    ensures Engine.CheckObjectItems(o, Obj(fields)).Error?
    ensures
      var key := ObjectVerifier.Extra(o, fields)[j];
      var ms := Engine.Verify(o.generalType.value, Get(fields, key)).errors;
      exists p ::
        && 0 <= p && p + 1 + |ms| <= |Engine.CheckObjectItems(o, Obj(fields)).errors|
        && Engine.CheckObjectItems(o, Obj(fields)).errors[p] == Engine.KeyHeading(key)
        && Engine.CheckObjectItems(o, Obj(fields)).errors[p + 1..p + 1 + |ms|] == ms
  {
    var key := ObjectVerifier.Extra(o, fields)[j];
    var ms := Engine.Verify(o.generalType.value, Get(fields, key)).errors;
    var at := CatchAllShown(o, fields, j);
    CatchAllGroupShown(o, fields, at, key, ms);
  }

  /** A group the catch-all verifier raises appears in checkItems' answer,
      after the item groups. */
  lemma CatchAllGroupShown(o: ObjectOptions, fields: seq<(string, Value)>, at: nat, key: string, ms: seq<Msg>)
    requires at < |Engine.CatchAllGroups(o, fields)| && Engine.CatchAllGroups(o, fields)[at] == (key, ms)
    ensures Engine.CheckObjectItems(o, Obj(fields)).Error?
    ensures exists p ::
      && 0 <= p && p + 1 + |ms| <= |Engine.CheckObjectItems(o, Obj(fields)).errors|
      && Engine.CheckObjectItems(o, Obj(fields)).errors[p] == Engine.KeyHeading(key)
      && Engine.CheckObjectItems(o, Obj(fields)).errors[p + 1..p + 1 + |ms|] == ms
  {
    var items := Engine.ItemGroups(o, fields, |o.items|);
    var catchAll := Engine.CatchAllGroups(o, fields);
    assert (items + catchAll)[|items| + at] == catchAll[at];
    GroupShown(o, fields, |items| + at, key, ms);
  }

  // ----- The catch-all verifier -----

  /** Two option sets with the same items raise the same item groups. */
  lemma ItemGroupsOfItemsStep(o1: ObjectOptions, o2: ObjectOptions, fields: seq<(string, Value)>, k: nat)
    requires o1.items == o2.items && 0 < k <= |o1.items|
    requires Engine.ItemGroups(o1, fields, k - 1) == Engine.ItemGroups(o2, fields, k - 1)
    ensures Engine.ItemGroups(o1, fields, k) == Engine.ItemGroups(o2, fields, k)
  {
  }

  /** The item groups depend on the items only. */
  lemma {:induction false} ItemGroupsOfItems(o1: ObjectOptions, o2: ObjectOptions, fields: seq<(string, Value)>, k: nat)
    requires o1.items == o2.items && k <= |o1.items|
    ensures Engine.ItemGroups(o1, fields, k) == Engine.ItemGroups(o2, fields, k)
  {
    if k > 0 {
      ItemGroupsOfItems(o1, o2, fields, k - 1);
      ItemGroupsOfItemsStep(o1, o2, fields, k);
    }
  }

  /** An exact object never consults its catch-all verifier. */
  lemma ExactIgnoresGeneralType(o: ObjectOptions, x: Value)
    requires IsTrue(o.exact)
    ensures Engine.CheckObjectItems(o, x) == Engine.CheckObjectItems(o.(generalType := None), x)
  {
    if x.Obj? {
      ItemGroupsOfItems(o, o.(generalType := None), x.fields, |o.items|);
    }
  }

  // ----- When checkItems passes -----

  /** One more item: no groups so far exactly when none before and this
      item passes. */
  lemma ItemPassesStep(o: ObjectOptions, fields: seq<(string, Value)>, k: nat)
    requires 0 < k <= |o.items|
    ensures Engine.ItemGroups(o, fields, k) == []
      <==> Engine.ItemGroups(o, fields, k - 1) == [] && Engine.ItemPasses(o.items[k - 1], fields)
  {
  }

  lemma ItemPassCombine(o: ObjectOptions, fields: seq<(string, Value)>, k: nat)
    requires 0 < k <= |o.items|
    requires Engine.ItemGroups(o, fields, k - 1) == [] <==> forall j :: 0 <= j < k - 1 ==> Engine.ItemPasses(o.items[j], fields)
    requires Engine.ItemGroups(o, fields, k) == []
      <==> Engine.ItemGroups(o, fields, k - 1) == [] && Engine.ItemPasses(o.items[k - 1], fields)
    ensures Engine.ItemGroups(o, fields, k) == [] <==> forall j :: 0 <= j < k ==> Engine.ItemPasses(o.items[j], fields)
  {
    assert (forall j :: 0 <= j < k ==> Engine.ItemPasses(o.items[j], fields)) <==>
      && (forall j :: 0 <= j < k - 1 ==> Engine.ItemPasses(o.items[j], fields))
      && Engine.ItemPasses(o.items[k - 1], fields);
  }

  /** The item groups are empty exactly when every item passes. */
  lemma {:induction false} ItemGroupsPass(o: ObjectOptions, fields: seq<(string, Value)>, k: nat)
    requires k <= |o.items|
    ensures Engine.ItemGroups(o, fields, k) == [] <==> forall j :: 0 <= j < k ==> Engine.ItemPasses(o.items[j], fields)
  {
    if k > 0 {
      ItemGroupsPass(o, fields, k - 1);
      ItemPassesStep(o, fields, k);
      ItemPassCombine(o, fields, k);
    }
  }

  /** The catch-all verifier `g` accepts the value under `key`. */
  predicate Accepts(g: Verifier, fields: seq<(string, Value)>, key: string) {
    Engine.Verify(g, Get(fields, key)).Success?
  }

  /** One more extra key: no groups so far exactly when none before and
      the catch-all verifier accepts this key's value. */
  lemma ExtraPassesStep(g: Verifier, fields: seq<(string, Value)>, extra: seq<string>, k: nat)
    requires 0 < k <= |extra|
    ensures Engine.ExtraGroups(g, fields, extra, k) == []
      <==> Engine.ExtraGroups(g, fields, extra, k - 1) == [] && Accepts(g, fields, extra[k - 1])
  {
  }

  lemma ExtraPassCombine(g: Verifier, fields: seq<(string, Value)>, extra: seq<string>, k: nat)
    requires 0 < k <= |extra|
    requires Engine.ExtraGroups(g, fields, extra, k - 1) == [] <==> forall j :: 0 <= j < k - 1 ==> Accepts(g, fields, extra[j])
    requires Engine.ExtraGroups(g, fields, extra, k) == [] <==> Engine.ExtraGroups(g, fields, extra, k - 1) == [] && Accepts(g, fields, extra[k - 1])
    ensures Engine.ExtraGroups(g, fields, extra, k) == [] <==> forall j :: 0 <= j < k ==> Accepts(g, fields, extra[j])
  {
    assert (forall j :: 0 <= j < k ==> Accepts(g, fields, extra[j])) <==>
      && (forall j :: 0 <= j < k - 1 ==> Accepts(g, fields, extra[j]))
      && Accepts(g, fields, extra[k - 1]);
  }

  /** The extra groups are empty exactly when the catch-all verifier
      accepts every extra key's value. */
  lemma {:induction false} ExtraGroupsPass(g: Verifier, fields: seq<(string, Value)>, extra: seq<string>, k: nat)
    requires k <= |extra|
    ensures Engine.ExtraGroups(g, fields, extra, k) == [] <==> forall j :: 0 <= j < k ==> Accepts(g, fields, extra[j])
    decreases k
  {
    if k > 0 {
      ExtraGroupsPass(g, fields, extra, k - 1);
      ExtraPassesStep(g, fields, extra, k);
      ExtraPassCombine(g, fields, extra, k);
    }
  }

  /** The catch-all verifier accepts every extra key, read by key or by
      position. */
  lemma ExtraAllPass(g: Verifier, fields: seq<(string, Value)>, extra: seq<string>)
    ensures (forall k :: k in extra ==> Accepts(g, fields, k)) <==> forall j :: 0 <= j < |extra| ==> Accepts(g, fields, extra[j])
  {
  }

  /** checkItems passes exactly when every item passes and, where the
      catch-all verifier applies, it accepts every extra key's value. */
  lemma ObjectItemsPass(o: ObjectOptions, fields: seq<(string, Value)>)
    ensures Engine.CheckObjectItems(o, Obj(fields)).Success? <==>
      && (forall j :: 0 <= j < |o.items| ==> Engine.ItemPasses(o.items[j], fields))
      && (!IsTrue(o.exact) && o.generalType.Some? ==>
            forall k :: k in ObjectVerifier.Extra(o, fields) ==> Accepts(o.generalType.value, fields, k))
  {
    ItemGroupsPass(o, fields, |o.items|);
    if !IsTrue(o.exact) && o.generalType.Some? {
      var extra := ObjectVerifier.Extra(o, fields);
      ExtraGroupsPass(o.generalType.value, fields, extra, |extra|);
      ExtraAllPass(o.generalType.value, fields, extra);
    }
  }
}

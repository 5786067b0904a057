/** The object verifier's builders and its checks that do not descend into
    the properties (src/verifiers/ObjectVerifier.ts): checkObject,
    checkNotAllowed and checkExact, and the "extra keys" both checkItems and
    checkExact compute. The property walk, checkItems, runs nested
    verifiers and lives with the engine (module Engine) and module ItemWalks. */
module ObjectVerifier {
  import opened Wrappers
  import opened Values
  import opened Outcomes
  import opened Schema

  function SetExact(o: ObjectOptions, exact: bool): ObjectOptions { o.(exact := Some(exact)) }
  function SetNotAllowedKeys(o: ObjectOptions, keys: seq<string>): ObjectOptions { o.(notAllowedKeys := keys) }

  /** `setGeneralType`: the catch-all verifier for extra keys, resolved for
      its kind like an item's verifier. */
  function SetGeneralType(o: ObjectOptions, k: Kind, verifierData: ItemData): (r: Result<ObjectOptions, string>)
    ensures r.Ok? <==> ResolveItem(Some(verifierData), k).Ok?
    ensures r.Ok? ==> r.value == o.(generalType := Some(ResolveItem(Some(verifierData), k).value))
  {
    match ResolveItem(Some(verifierData), k)
    case Err(e) => Err(e)
    case Ok(v) => Ok(o.(generalType := Some(v)))
  }

  /** `addItem` (behind `addString`, `addNumber`, ...): resolves the item's
      verifier for its kind and appends it under `key`. */
  function AddItem(o: ObjectOptions, k: Kind, key: string, verifierData: Option<ItemData>, options: ObjectItemOptions): (r: Result<ObjectOptions, string>)
    ensures r.Ok? <==> ResolveItem(verifierData, k).Ok?
    ensures r.Ok? ==> r.value == o.(items := o.items + [ObjectItem(ResolveItem(verifierData, k).value, k, key, options)])
  {
    match ResolveItem(verifierData, k)
    case Err(e) => Err(e)
    case Ok(v) => Ok(o.(items := o.items + [ObjectItem(v, k, key, options)]))
  }

  /** `Array.from(new Set(keys))`: the first occurrence of each key, in order. */
  function Dedupe(keys: seq<string>): (r: seq<string>)
    ensures forall k :: k in r <==> k in keys
    ensures Distinct(r)
  {
    if keys == [] then []
    else
      var d := Dedupe(keys[..|keys| - 1]);
      var last := keys[|keys| - 1];
      assert keys == keys[..|keys| - 1] + [last];
      if last in d then d else d + [last]
  }

  /** No key occurs twice. */
  predicate Distinct(keys: seq<string>) {
    forall i, j :: 0 <= i < j < |keys| ==> keys[i] != keys[j]
  }

  /** The test "not among `a`". */
  function NotIn(a: seq<string>): string -> bool {
    k => k !in a
  }

  /** Deduplicating one more key keeps it only when it is new. */
  lemma DedupeSnoc(s: seq<string>, x: string)
    ensures Dedupe(s + [x]) == if x in Dedupe(s) then Dedupe(s) else Dedupe(s) + [x]
  {
    assert (s + [x])[..|s + [x]| - 1] == s;
  }

  /** Filtering a single key. */
  lemma FilterOne(x: string, a: seq<string>)
    ensures Filter([x], NotIn(a)) == if x in a then [] else [x]
  {
    assert [x][1..] == [];
  }

  /** Appending a key after a part it is not in. */
  lemma SnocAfter(d: seq<string>, e: seq<string>, x: string)
    requires x !in d
    ensures (if x in d + e then d + e else d + e + [x]) == d + (if x in e then e else e + [x])
  {
  }

  /** Filtering one more key by "not among `a`". */
  lemma FilterNotInSnoc(init: seq<string>, x: string, a: seq<string>)
    ensures Filter(init + [x], NotIn(a)) == if x in a then Filter(init, NotIn(a)) else Filter(init, NotIn(a)) + [x]
  {
    var f := Filter(init, NotIn(a));
    FilterAppend(init, [x], NotIn(a));
    FilterOne(x, a);
    assert f + [] == f;
  }

  /** One step of DedupeAppend: the new key `x` at the end of the second part. */
  lemma DedupeAppendStep(a: seq<string>, init: seq<string>, x: string)
    requires Dedupe(a + init) == Dedupe(a) + Dedupe(Filter(init, NotIn(a)))
    ensures Dedupe(a + init + [x]) == Dedupe(a) + Dedupe(Filter(init + [x], NotIn(a)))
  {
    var f := Filter(init, NotIn(a));
    DedupeSnoc(a + init, x);
    FilterNotInSnoc(init, x, a);
    if x in a {
      assert x in Dedupe(a);
    } else {
      DedupeSnoc(f, x);
      SnocAfter(Dedupe(a), Dedupe(f), x);
    }
  }

  /** Deduplicating a concatenation keeps the first part's keys first, then
      the second part's keys that are new, in first-occurrence order. */
  lemma {:induction false} DedupeAppend(a: seq<string>, b: seq<string>)
    ensures Dedupe(a + b) == Dedupe(a) + Dedupe(Filter(b, NotIn(a)))
    decreases |b|
  {
    if b == [] {
      assert a + b == a;
    } else {
      var init := b[..|b| - 1];
      var x := b[|b| - 1];
      assert b == init + [x];
      assert a + b == a + init + [x];
      DedupeAppend(a, init);
      DedupeAppendStep(a, init, x);
    }
  }

  /** `addNotAllowedKeys`: the current keys followed by the new ones, each
      kept once. */
  function AddNotAllowedKeys(o: ObjectOptions, keys: seq<string>): (r: ObjectOptions)
    ensures forall k :: k in r.notAllowedKeys <==> k in o.notAllowedKeys || k in keys
    ensures Distinct(r.notAllowedKeys)
    ensures Distinct(o.notAllowedKeys) ==>
      r.notAllowedKeys == o.notAllowedKeys + Dedupe(Filter(keys, NotIn(o.notAllowedKeys)))
    ensures r.(notAllowedKeys := o.notAllowedKeys) == o
  {
    DedupeAppend(o.notAllowedKeys, keys);
    if Distinct(o.notAllowedKeys) then DedupeKeepsDistinct(o.notAllowedKeys); SetNotAllowedKeys(o, Dedupe(o.notAllowedKeys + keys))
    else SetNotAllowedKeys(o, Dedupe(o.notAllowedKeys + keys))
  }

  /** `checkObject`: null, arrays and non-objects stop the pipeline. */
  function CheckObject(x: Value): (r: Outcome<Msg>)
    ensures r.Success? <==> x.Obj?
    ensures !r.Success? ==> r == Fail([Msg("errors.object.not", [])])
  {
    if IsObject(x) then Success else Fail([Msg("errors.object.not", [])])
  }

  /** Some item is declared under `key`. */
  predicate HasItem(items: seq<ObjectItem>, key: string) {
    exists i :: 0 <= i < |items| && items[i].key == key
  }

  /** `checkNotAllowed`: forbidden keys present in the input are reported
      first, in input-key order; only when there are none does an item
      declared under a forbidden key stop the pipeline. */
  function CheckNotAllowed(o: ObjectOptions, x: Value): (r: Outcome<Msg>)
    ensures o.notAllowedKeys == [] ==> r == Success
    ensures r.Error? ==> x.Obj? && exists k :: k in Keys(x.fields) && k in o.notAllowedKeys
    ensures r.Error? ==> r.errors == [Msg("errors.object.notAllowed", [ArgStrs(Filter(Keys(x.fields), k => k in o.notAllowedKeys))])]
    ensures r.Fail? ==> x.Obj? && forall k :: k in Keys(x.fields) ==> k !in o.notAllowedKeys
    ensures r.Fail? ==> exists k :: k in o.notAllowedKeys && HasItem(o.items, k)
    ensures r.Fail? ==> r == Fail([Msg("errors.object.usingNotAllowed", [ArgStrs(Filter(o.notAllowedKeys, k => HasItem(o.items, k)))])])
    ensures r.Success? <==> !x.Obj? || forall k :: k in o.notAllowedKeys ==> k !in Keys(x.fields) && !HasItem(o.items, k)
    ensures !r.Success? ==> |r.errors| == 1
  {
    if !IsObject(x) then Success
    else if o.notAllowedKeys == [] then Success
    else
      var rejected := Filter(Keys(x.fields), k => k in o.notAllowedKeys);
      var using := Filter(o.notAllowedKeys, k => HasItem(o.items, k));
      if rejected != [] then
        assert rejected[0] in Keys(x.fields);
        Error([Msg("errors.object.notAllowed", [ArgStrs(rejected)])])
      else if using != [] then
        assert using[0] in o.notAllowedKeys;
        Fail([Msg("errors.object.usingNotAllowed", [ArgStrs(using)])])
      else
        Success
  }

  /** No item is declared under a key other than `key`. This is the
      source's test for an "extra" key, read literally: it holds for every
      key when there are no items. */
  predicate NoItemDiffers(items: seq<ObjectItem>, key: string) {
    forall i :: 0 <= i < |items| ==> items[i].key == key
  }

  /** The "extra" keys among `keys`, in their order: those that are not
      forbidden and for which no item has a different key. */
  function ExtraAmong(o: ObjectOptions, keys: seq<string>): (extra: seq<string>)
    ensures forall k :: k in extra <==> k in keys && k !in o.notAllowedKeys && NoItemDiffers(o.items, k)
    ensures |extra| <= |keys|
  {
    if keys == [] then []
    else (if keys[0] !in o.notAllowedKeys && NoItemDiffers(o.items, keys[0]) then [keys[0]] else []) + ExtraAmong(o, keys[1..])
  }

  /** The extra keys of an input object. */
  function Extra(o: ObjectOptions, fields: seq<(string, Value)>): seq<string> {
    ExtraAmong(o, Keys(fields))
  }

  /** `checkExact`: an exact object may have no extra keys. */
  function CheckExact(o: ObjectOptions, x: Value): (r: Outcome<Msg>)
    ensures !r.Fail?
    ensures r.Error? <==> x.Obj? && IsTrue(o.exact) && Extra(o, x.fields) != []
    ensures r.Error? ==> r.errors == [Msg("errors.object.extraKeys", [ArgStrs(Extra(o, x.fields))])]
  {
    if !IsObject(x) then Success
    else if !IsTrue(o.exact) then Success
    else
      var extra := Extra(o, x.fields);
      if extra != [] then Error([Msg("errors.object.extraKeys", [ArgStrs(extra)])]) else Success
  }

  /** With no items, the extra keys are exactly the keys that are not
      forbidden, in input order. */
  lemma {:induction false} ExtraWithoutItems(o: ObjectOptions, keys: seq<string>)
    requires o.items == []
    ensures ExtraAmong(o, keys) == Filter(keys, k => k !in o.notAllowedKeys)
  {
    if keys != [] {
      ExtraWithoutItems(o, keys[1..]);
    }
  }

  /** Once two items have different keys, no key is extra: every key
      differs from one of the two. */
  lemma {:induction false} NoExtraWithTwoKeys(o: ObjectOptions, keys: seq<string>, i: nat, j: nat)
    requires i < |o.items| && j < |o.items| && o.items[i].key != o.items[j].key
    ensures ExtraAmong(o, keys) == []
  {
    if keys != [] {
      assert o.items[i].key != keys[0] || o.items[j].key != keys[0];
      NoExtraWithTwoKeys(o, keys[1..], i, j);
    }
  }

  /** With items all declared under one key, that key is the only one that
      can be extra. */
  lemma OnlyTheItemKeyIsExtra(o: ObjectOptions, keys: seq<string>, k: string)
    requires o.items != [] && k in ExtraAmong(o, keys)
    ensures k == o.items[0].key
  {
  }

  /** Deduplicating a list without repeats changes nothing. */
  lemma {:induction false} DedupeKeepsDistinct(keys: seq<string>)
    requires Distinct(keys)
    ensures Dedupe(keys) == keys
  {
    if keys != [] {
      var init := keys[..|keys| - 1];
      DedupeKeepsDistinct(init);
      assert keys[|keys| - 1] !in init;
      assert keys == init + [keys[|keys| - 1]];
    }
  }
}

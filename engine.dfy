/** `verify` over a verifier tree: every verifier runs its checks through the
    pipeline of src/utils/verify.ts, and the array and object verifiers'
    `checkItems` run the nested verifiers of their items. Because a nested
    `verify` only ever answers Success or Error, a nested Fail reaches the
    parent as an ordinary group of messages. */
module Engine {
  import opened Wrappers
  import opened Values
  import opened Outcomes
  import opened Schema
  import Pipeline
  import StringVerifier
  import NumberVerifier
  import BooleanVerifier
  import ArrayVerifier
  import ObjectVerifier

  /** `v.verify(x)`. */
  function Verify(v: Verifier, x: Value): (r: Outcome<Msg>)
    decreases v, 3
    ensures !r.Fail?
    ensures r.Error? ==> r.errors != []
  {
    Pipeline.Collect(Checks(v, x))
  }

  /** The outcomes of a verifier's checks on `x`, in the order its
      constructor lists them. */
  function Checks(v: Verifier, x: Value): (os: seq<Outcome<Msg>>)
    decreases v, 2
  {
    match v
    case StringV(o) => StringVerifier.Checks(o, x)
    case NumberV(o) => NumberVerifier.Checks(o, x)
    case BooleanV(o) => BooleanVerifier.Checks(o, x)
    case ArrayV(o) =>
      [ArrayVerifier.CheckArray(x), ArrayVerifier.CheckLengths(o, x), CheckArrayItems(o, x), ArrayVerifier.CheckExact(o, x)]
    case ObjectV(o) =>
      [ObjectVerifier.CheckObject(x), ObjectVerifier.CheckNotAllowed(o, x), CheckObjectItems(o, x), ObjectVerifier.CheckExact(o, x)]
  }

  /** The messages of failure groups, each under its heading. */
  function Flatten<K>(groups: seq<(K, seq<Msg>)>, heading: K -> Msg): (ms: seq<Msg>)
    ensures |ms| >= |groups|
  {
    if groups == [] then [] else [heading(groups[0].0)] + groups[0].1 + Flatten(groups[1..], heading)
  }

  function IndexHeading(i: nat): Msg { Heading("errors.array.items.indexOf", [ArgNum(i as real)]) }
  function KeyHeading(key: string): Msg { Heading("errors.object.items.keyOf", [ArgStr(key)]) }

  // ----- Array items -----

  /** How an item moves the cursor, or why the walk stops at it. */
  datatype Step = Consume(count: nat) | Halt(reason: Msg)

  /** What item `i` does with the cursor at `cursor` on an input of `len`
      elements: a `repeated` item must be the last one; a `repeatCount`
      must be a positive integer and consumes that many elements plus one;
      otherwise a `repeated` item consumes the rest of the input and any
      other item one element. */
  function ItemStep(items: seq<ArrayItem>, i: nat, len: nat, cursor: nat): (s: Step)
    requires i < |items|
    ensures s.Halt? && IsTrue(items[i].options.repeated) && i != |items| - 1 ==>
      s.reason == Msg("errors.array.items.repeatedItem", [])
    ensures s.Consume? && items[i].options.repeatCount.Some? ==>
      s.count as real == items[i].options.repeatCount.value + 1.0
    ensures s.Consume? && items[i].options.repeatCount.None? && IsTrue(items[i].options.repeated) ==>
      s.count == if cursor <= len then len - cursor else 0
    ensures s.Consume? && items[i].options.repeatCount.None? && !IsTrue(items[i].options.repeated) ==> s.count == 1
  {
    var item := items[i];
    if IsTrue(item.options.repeated) && i != |items| - 1 then
      Halt(Msg("errors.array.items.repeatedItem", []))
    else match item.options.repeatCount
      case Some(rc) =>
        if rc <= 0.0 || !IsInteger(rc) then Halt(Msg("errors.array.items.repeatCountNotInteger", [ArgNum(rc)]))
        else Consume(rc.Floor + 1)
      case None =>
        if IsTrue(item.options.repeated) then Consume(if cursor <= len then len - cursor else 0)
        else Consume(1)
  }

  /** The element failures when `v` verifies the `count` elements from
      `start`, grouped by index; a read past the end sees `undefined`. */
  function Failures(v: Verifier, elems: seq<Value>, start: nat, count: nat): (gs: seq<(nat, seq<Msg>)>)
    decreases v, 4, count
    ensures |gs| <= count
  {
    if count == 0 then []
    else
      var prior := Failures(v, elems, start, count - 1);
      var r := Verify(v, At(elems, start + count - 1));
      if r.Success? then prior else prior + [(start + count - 1, r.errors)]
  }

  /** The state of the cursor walk after some items. */
  datatype Walk = Walking(cursor: nat, failures: seq<(nat, seq<Msg>)>) | Stopped(reason: Msg)

  /** The walk over the first `k` items of `o` on the elements `elems`. */
  function WalkUpTo(o: ArrayOptions, elems: seq<Value>, k: nat): (w: Walk)
    requires k <= |o.items|
    decreases o, 5, k
  {
    if k == 0 then Walking(0, [])
    else match WalkUpTo(o, elems, k - 1)
      case Stopped(m) => Stopped(m)
      case Walking(c, fs) =>
        match ItemStep(o.items, k - 1, |elems|, c)
        case Halt(m) => Stopped(m)
        case Consume(n) =>
          Walking(c + n, fs + Failures(o.items[k - 1].verifier, elems, c, n))
  }

  /** `checkItems` of the array verifier. */
  function CheckArrayItems(o: ArrayOptions, x: Value): (r: Outcome<Msg>)
    decreases o, 6
    ensures !x.Arr? || o.items == [] ==> r == Success
    ensures r.Error? ==> r.errors != []
  {
    if !IsArray(x) then Success
    else if o.items == [] then Success
    else match WalkUpTo(o, x.elems, |o.items|)
      case Stopped(m) => Fail([m])
      case Walking(_, fs) => if fs == [] then Success else Error(Flatten(fs, IndexHeading))
  }

  // ----- Object items -----

  /** Item `item` raises no group: its key is present or not required, and
      its verifier accepts the key's value. */
  predicate ItemPasses(item: ObjectItem, fields: seq<(string, Value)>)
    decreases item, 0
  {
    (Has(fields, item.key) || !IsTrue(item.options.required)) && Verify(item.verifier, Get(fields, item.key)).Success?
  }

  /** The failure groups of the first `k` items, in item order: a required
      item whose key is absent reports `notExists`; any other item has its
      verifier run on the key's value, `undefined` when absent. */
  function ItemGroups(o: ObjectOptions, fields: seq<(string, Value)>, k: nat): (gs: seq<(string, seq<Msg>)>)
    requires k <= |o.items|
    decreases o, 5, k
    ensures |gs| <= k
  {
    if k == 0 then []
    else
      var item := o.items[k - 1];
      var prior := ItemGroups(o, fields, k - 1);
      if !Has(fields, item.key) && IsTrue(item.options.required) then
        prior + [(item.key, [Msg("errors.object.items.notExists", [ArgStr(item.key)])])]
      else
        var r := Verify(item.verifier, Get(fields, item.key));
        if r.Success? then prior else prior + [(item.key, r.errors)]
  }

  /** The failure groups when `g` verifies the values of the first `k`
      extra keys, in key order. */
  function ExtraGroups(g: Verifier, fields: seq<(string, Value)>, extra: seq<string>, k: nat): (gs: seq<(string, seq<Msg>)>)
    requires k <= |extra|
    decreases g, 4, k
    ensures |gs| <= k
  {
    if k == 0 then []
    else
      var prior := ExtraGroups(g, fields, extra, k - 1);
      var r := Verify(g, Get(fields, extra[k - 1]));
      if r.Success? then prior else prior + [(extra[k - 1], r.errors)]
  }

  /** The extra keys `generalType` applies to: all of them unless `exact`,
      none without a `generalType`. */
  function CatchAllGroups(o: ObjectOptions, fields: seq<(string, Value)>): seq<(string, seq<Msg>)>
    decreases o, 5
  {
    if !IsTrue(o.exact) && o.generalType.Some? then
      var extra := ObjectVerifier.Extra(o, fields);
      ExtraGroups(o.generalType.value, fields, extra, |extra|)
    else []
  }

  /** `checkItems` of the object verifier: the item groups, then the
      groups of the extra keys. */
  function CheckObjectItems(o: ObjectOptions, x: Value): (r: Outcome<Msg>)
    decreases o, 6
    ensures !x.Obj? ==> r == Success
    ensures !r.Fail?
    ensures r.Error? ==> r.errors != []
  {
    if !IsObject(x) then Success
    else
      var groups := ItemGroups(o, x.fields, |o.items|) + CatchAllGroups(o, x.fields);
      if groups == [] then Success else Error(Flatten(groups, KeyHeading))
  }
}

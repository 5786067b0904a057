/** The two `checkItems` loops as the source runs them: the array verifier's
    cursor walk (src/verifiers/ArrayVerifier.ts:130-197) and the object
    verifier's two passes over items and extra keys
    (src/verifiers/ObjectVerifier.ts:142-199), each proved to compute the
    engine's specification, with the lemmas that take one step of each
    walk. */
module ItemWalks {
  import opened Wrappers
  import opened Values
  import opened Outcomes
  import opened Schema
  import ArrayVerifier
  import ObjectVerifier
  import Engine

  /** Once the walk has stopped at an item, the later items change nothing. */
  lemma {:induction false} StoppedStays(o: ArrayOptions, elems: seq<Value>, k: nat, m: nat)
    requires k <= m <= |o.items|
    requires Engine.WalkUpTo(o, elems, k).Stopped?
    ensures Engine.WalkUpTo(o, elems, m) == Engine.WalkUpTo(o, elems, k)
  {
    if m > k {
      StoppedStays(o, elems, k, m - 1);
    }
  }

  /** One more element verified: its failure, if any, follows the others. */
  lemma FailuresStep(v: Verifier, elems: seq<Value>, start: nat, k: nat, r: Outcome<Msg>)
    requires r == Engine.Verify(v, At(elems, start + k))
    ensures Engine.Failures(v, elems, start, k + 1)
      == Engine.Failures(v, elems, start, k) + if r.Success? then [] else [(start + k, r.errors)]
  {
  }

  /** One more item walked from a running walk. */
  lemma WalkStep(o: ArrayOptions, elems: seq<Value>, i: nat, cursor: nat, failures: seq<(nat, seq<Msg>)>)
    requires i < |o.items|
    requires Engine.WalkUpTo(o, elems, i) == Engine.Walking(cursor, failures)
    ensures Engine.WalkUpTo(o, elems, i + 1) == match Engine.ItemStep(o.items, i, |elems|, cursor)
      case Halt(m) => Engine.Stopped(m)
      case Consume(n) => Engine.Walking(cursor + n, failures + Engine.Failures(o.items[i].verifier, elems, cursor, n))
  {
  }

  /** One more item walked from a running walk, when that item consumes
      `n` elements. */
  lemma WalkConsume(o: ArrayOptions, elems: seq<Value>, i: nat, cursor: nat, failures: seq<(nat, seq<Msg>)>, n: nat)
    requires i < |o.items|
    requires Engine.WalkUpTo(o, elems, i) == Engine.Walking(cursor, failures)
    requires Engine.ItemStep(o.items, i, |elems|, cursor) == Engine.Consume(n)
    ensures Engine.WalkUpTo(o, elems, i + 1) == Engine.Walking(cursor + n, failures + Engine.Failures(o.items[i].verifier, elems, cursor, n))
  {
  }

  /** A walk still running after item `k - 1` was running before it, and
      that item consumed some `n` elements from the cursor. */
  lemma LastStep(o: ArrayOptions, elems: seq<Value>, k: nat) returns (n: nat)
    requires 0 < k <= |o.items| && Engine.WalkUpTo(o, elems, k).Walking?
    ensures Engine.WalkUpTo(o, elems, k - 1).Walking?
    ensures Engine.ItemStep(o.items, k - 1, |elems|, Engine.WalkUpTo(o, elems, k - 1).cursor) == Engine.Consume(n)
    ensures Engine.WalkUpTo(o, elems, k) == Engine.Walking(Engine.WalkUpTo(o, elems, k - 1).cursor + n,
      Engine.WalkUpTo(o, elems, k - 1).failures + Engine.Failures(o.items[k - 1].verifier, elems, Engine.WalkUpTo(o, elems, k - 1).cursor, n))
  {
    var w := Engine.WalkUpTo(o, elems, k - 1);
    n := Engine.ItemStep(o.items, k - 1, |elems|, w.cursor).count;
  }

  /** A running walk was running one item earlier. */
  lemma WalkingBefore(o: ArrayOptions, elems: seq<Value>, k: nat)
    requires 0 < k <= |o.items| && Engine.WalkUpTo(o, elems, k).Walking?
    ensures Engine.WalkUpTo(o, elems, k - 1).Walking?
  {
  }

  /** One more item: its group, if it raises one, follows the others. */
  lemma ItemGroupsNext(o: ObjectOptions, fields: seq<(string, Value)>, k: nat)
    requires k < |o.items|
    ensures Engine.ItemGroups(o, fields, k + 1) == Engine.ItemGroups(o, fields, k) +
      if !Has(fields, o.items[k].key) && IsTrue(o.items[k].options.required) then
        [(o.items[k].key, [Msg("errors.object.items.notExists", [ArgStr(o.items[k].key)])])]
      else if Engine.Verify(o.items[k].verifier, Get(fields, o.items[k].key)).Success? then []
      else [(o.items[k].key, Engine.Verify(o.items[k].verifier, Get(fields, o.items[k].key)).errors)]
  {
  }

  /** One more extra key: its group, if it raises one, follows the others. */
  lemma ExtraGroupsNext(g: Verifier, fields: seq<(string, Value)>, extra: seq<string>, k: nat, r: Outcome<Msg>)
    requires k < |extra| && r == Engine.Verify(g, Get(fields, extra[k]))
    ensures Engine.ExtraGroups(g, fields, extra, k + 1)
      == Engine.ExtraGroups(g, fields, extra, k) + if r.Success? then [] else [(extra[k], r.errors)]
  {
  }

  /** ExtraGroupsNext for the group `VerifyItem` returns. */
  lemma ExtraGroupsAppend(g: Verifier, fields: seq<(string, Value)>, extra: seq<string>, k: nat, group: seq<(string, seq<Msg>)>)
    requires k < |extra|
    requires Engine.Verify(g, Get(fields, extra[k])).Success? ==> group == []
    requires !Engine.Verify(g, Get(fields, extra[k])).Success? ==> group == [(extra[k], Engine.Verify(g, Get(fields, extra[k])).errors)]
    ensures Engine.ExtraGroups(g, fields, extra, k + 1) == Engine.ExtraGroups(g, fields, extra, k) + group
  {
    ExtraGroupsNext(g, fields, extra, k, Engine.Verify(g, Get(fields, extra[k])));
  }

  /** One turn of the array verifier's item loop: item `i` either stops the
      walk with its reason or verifies its elements from the cursor on. */
  method WalkItem(o: ArrayOptions, elems: seq<Value>, i: nat, cursor: nat, errors: seq<(nat, seq<Msg>)>)
    returns (stop: Option<Msg>, cursor': nat, errors': seq<(nat, seq<Msg>)>)
    requires i < |o.items|
    requires Engine.WalkUpTo(o, elems, i) == Engine.Walking(cursor, errors)
    ensures Engine.WalkUpTo(o, elems, i + 1) == match stop
      case Some(m) => Engine.Stopped(m)
      case None => Engine.Walking(cursor', errors')
  {
    WalkStep(o, elems, i, cursor, errors);
    var item := o.items[i];
    var repeated := IsTrue(item.options.repeated);
    if repeated && i != |o.items| - 1 {
      return Some(Msg("errors.array.items.repeatedItem", [])), cursor, errors;
    }
    var count: nat;
    if item.options.repeatCount.Some? {
      var repeatCount := item.options.repeatCount.value;
      if repeatCount <= 0.0 || !IsInteger(repeatCount) {
        return Some(Msg("errors.array.items.repeatCountNotInteger", [ArgNum(repeatCount)])), cursor, errors;
      }
      count := repeatCount.Floor + 1;
    } else if repeated {
      count := if cursor <= |elems| then |elems| - cursor else 0;
    } else {
      count := 1;
    }
    assert Engine.ItemStep(o.items, i, |elems|, cursor) == Engine.Consume(count);
    var more := VerifyElements(item.verifier, elems, cursor, count);
    stop, cursor', errors' := None, cursor + count, errors + more;
  }

  /** The item's `verifyItem` closure run `count` times from the cursor:
      each run verifies the element under the cursor and keeps its failure
      with its index. */
  method VerifyElements(v: Verifier, elems: seq<Value>, cursor: nat, count: nat) returns (failures: seq<(nat, seq<Msg>)>)
    ensures failures == Engine.Failures(v, elems, cursor, count)
  {
    failures := [];
    var k := 0;
    while k < count
      invariant k <= count
      invariant failures == Engine.Failures(v, elems, cursor, k)
    {
      var result := Engine.Verify(v, At(elems, cursor + k));
      FailuresStep(v, elems, cursor, k, result);
      if !result.Success? {
        failures := failures + [(cursor + k, result.errors)];
      }
      k := k + 1;
    }
  }

  /** `checkItems` of the array verifier: the cursor starts at 0, each item
      verifies as many elements as its options ask for, and failures are
      kept with their index. */
  method CheckArrayItems(o: ArrayOptions, x: Value) returns (r: Outcome<Msg>)
    ensures r == Engine.CheckArrayItems(o, x)
  {
    if !x.Arr? || |o.items| == 0 {
      return Success;
    }
    var elems := x.elems;
    var cursor: nat := 0;
    var errors: seq<(nat, seq<Msg>)> := [];
    var i := 0;
    while i < |o.items|
      invariant i <= |o.items|
      invariant Engine.WalkUpTo(o, elems, i) == Engine.Walking(cursor, errors)
    {
      var stop;
      stop, cursor, errors := WalkItem(o, elems, i, cursor, errors);
      if stop.Some? {
        StoppedStays(o, elems, i + 1, |o.items|);
        return Fail([stop.value]);
      }
      i := i + 1;
    }
    if errors == [] {
      return Success;
    }
    return Error(Engine.Flatten(errors, Engine.IndexHeading));
  }

  /** The `verifyItem` closure of the object verifier: `v` runs on the
      value under `key` and a failure becomes one group under that key. */
  method VerifyItem(v: Verifier, fields: seq<(string, Value)>, key: string) returns (group: seq<(string, seq<Msg>)>)
    ensures Engine.Verify(v, Get(fields, key)).Success? ==> group == []
    ensures !Engine.Verify(v, Get(fields, key)).Success? ==> group == [(key, Engine.Verify(v, Get(fields, key)).errors)]
  {
    var result := Engine.Verify(v, Get(fields, key));
    group := if result.Success? then [] else [(key, result.errors)];
  }

  /** `checkItems` of the object verifier: every item in order, then, when
      the object is not exact and has a `generalType`, every extra key. */
  method CheckObjectItems(o: ObjectOptions, x: Value) returns (r: Outcome<Msg>)
    ensures r == Engine.CheckObjectItems(o, x)
  {
    if !x.Obj? {
      return Success;
    }
    var fields := x.fields;
    var extra := ObjectVerifier.Extra(o, fields);
    var errors: seq<(string, seq<Msg>)> := [];
    var i := 0;
    while i < |o.items|
      invariant i <= |o.items|
      invariant errors == Engine.ItemGroups(o, fields, i)
    {
      ItemGroupsNext(o, fields, i);
      var item := o.items[i];
      if !Has(fields, item.key) && IsTrue(item.options.required) {
        errors := errors + [(item.key, [Msg("errors.object.items.notExists", [ArgStr(item.key)])])];
      } else {
        var group := VerifyItem(item.verifier, fields, item.key);
        errors := errors + group;
      }
      i := i + 1;
    }
    if !IsTrue(o.exact) && o.generalType.Some? {
      var more := VerifyExtra(o.generalType.value, fields, extra);
      errors := errors + more;
    }
    assert errors == Engine.ItemGroups(o, fields, |o.items|) + Engine.CatchAllGroups(o, fields);
    if errors == [] {
      return Success;
    }
    return Error(Engine.Flatten(errors, Engine.KeyHeading));
  }

  /** The second loop of the object verifier's `checkItems`: `generalType`
      verifies the value of every extra key, in key order. */
  method VerifyExtra(g: Verifier, fields: seq<(string, Value)>, extra: seq<string>) returns (groups: seq<(string, seq<Msg>)>)
    ensures groups == Engine.ExtraGroups(g, fields, extra, |extra|)
  {
    groups := [];
    for j := 0 to |extra|
      invariant groups == Engine.ExtraGroups(g, fields, extra, j)
    {
      var group := VerifyItem(g, fields, extra[j]);
      ExtraGroupsAppend(g, fields, extra, j, group);
      groups := groups + group;
    }
  }
}

/** Properties of the array verifier's `checkItems` cursor walk
    (src/verifiers/ArrayVerifier.ts:130-197), stated on the engine's
    specification of it (Engine.WalkUpTo, Engine.CheckArrayItems). */
module ArrayWalk {
  import opened Wrappers
  import opened Values
  import opened Outcomes
  import opened Schema
  import ArrayVerifier
  import Engine
  import opened ItemWalks

  // ----- Inputs that agree on what the walk reads -----

  /** One more element of two runs that agree on every element they visit. */
  lemma FailuresAgreeStep(v: Verifier, e1: seq<Value>, e2: seq<Value>, start: nat, count: nat)
    requires 0 < count && start + count <= |e1| && start + count <= |e2|
    requires forall j :: start <= j < start + count ==> e1[j] == e2[j]
    requires Engine.Failures(v, e1, start, count - 1) == Engine.Failures(v, e2, start, count - 1)
    ensures Engine.Failures(v, e1, start, count) == Engine.Failures(v, e2, start, count)
  {
    var last := start + count - 1;
    assert At(e1, last) == At(e2, last);
    FailuresStep(v, e1, start, count - 1, Engine.Verify(v, At(e1, last)));
    FailuresStep(v, e2, start, count - 1, Engine.Verify(v, At(e2, last)));
  }

  /** Runs over inputs that agree on the elements they visit fail alike. */
  lemma {:induction false} FailuresAgree(v: Verifier, e1: seq<Value>, e2: seq<Value>, start: nat, count: nat)
    requires start + count <= |e1| && start + count <= |e2|
    requires forall j :: start <= j < start + count ==> e1[j] == e2[j]
    ensures Engine.Failures(v, e1, start, count) == Engine.Failures(v, e2, start, count)
  {
    if count > 0 {
      FailuresAgree(v, e1, e2, start, count - 1);
      FailuresAgreeStep(v, e1, e2, start, count);
    }
  }

  /** The cursor never moves back. */
  lemma CursorGrows(o: ArrayOptions, elems: seq<Value>, k: nat)
    requires 0 < k <= |o.items| && Engine.WalkUpTo(o, elems, k).Walking?
    ensures Engine.WalkUpTo(o, elems, k - 1).Walking?
    ensures Engine.WalkUpTo(o, elems, k - 1).cursor <= Engine.WalkUpTo(o, elems, k).cursor
  {
    var n := LastStep(o, elems, k);
  }

  /** One more item of two walks that were equal so far, on inputs of one
      length that agree below the cursor the first walk reaches. */
  lemma WalkAgreesStep(o: ArrayOptions, e1: seq<Value>, e2: seq<Value>, k: nat)
    requires 0 < k <= |o.items| && |e1| == |e2|
    requires Engine.WalkUpTo(o, e1, k).Walking? && Engine.WalkUpTo(o, e1, k).cursor <= |e1|
    requires forall j :: 0 <= j < Engine.WalkUpTo(o, e1, k).cursor ==> e1[j] == e2[j]
    requires Engine.WalkUpTo(o, e2, k - 1) == Engine.WalkUpTo(o, e1, k - 1)
    ensures Engine.WalkUpTo(o, e2, k) == Engine.WalkUpTo(o, e1, k)
  {
    var n := LastStep(o, e1, k);
    var w := Engine.WalkUpTo(o, e1, k - 1);
    FailuresAgree(o.items[k - 1].verifier, e1, e2, w.cursor, n);
    WalkConsume(o, e2, k - 1, w.cursor, w.failures, n);
  }

  /** The walk over inputs of one length that agree below the cursor it
      reaches is the same walk. */
  lemma {:induction false} WalkAgrees(o: ArrayOptions, e1: seq<Value>, e2: seq<Value>, k: nat)
    requires k <= |o.items| && |e1| == |e2|
    requires Engine.WalkUpTo(o, e1, k).Walking? && Engine.WalkUpTo(o, e1, k).cursor <= |e1|
    requires forall j :: 0 <= j < Engine.WalkUpTo(o, e1, k).cursor ==> e1[j] == e2[j]
    ensures Engine.WalkUpTo(o, e2, k) == Engine.WalkUpTo(o, e1, k)
  {
    if k > 0 {
      CursorGrows(o, e1, k);
      WalkAgrees(o, e1, e2, k - 1);
      WalkAgreesStep(o, e1, e2, k);
    }
  }

  /** checkItems never looks past the elements its items consume: two
      arrays of one length that agree on those elements get the same
      answer, whatever follows them. */
  lemma TailNotInspected(o: ArrayOptions, e1: seq<Value>, e2: seq<Value>)
    requires |e1| == |e2|
    requires Engine.WalkUpTo(o, e1, |o.items|).Walking?
    requires Engine.WalkUpTo(o, e1, |o.items|).cursor <= |e1|
    requires e1[..Engine.WalkUpTo(o, e1, |o.items|).cursor] == e2[..Engine.WalkUpTo(o, e1, |o.items|).cursor]
    ensures Engine.CheckArrayItems(o, Arr(e1)) == Engine.CheckArrayItems(o, Arr(e2))
  {
    var c := Engine.WalkUpTo(o, e1, |o.items|).cursor;
    assert forall j :: 0 <= j < c ==> e1[j] == e1[..c][j];
    WalkAgrees(o, e1, e2, |o.items|);
  }

  // ----- What the walk consumes -----

  /** One more item that is not `repeated` moves the cursor by one plus its
      repeat count. */
  lemma ConsumesStep(o: ArrayOptions, elems: seq<Value>, k: nat)
    requires 0 < k <= |o.items| && !IsTrue(o.items[k - 1].options.repeated)
    requires Engine.WalkUpTo(o, elems, k).Walking? && Engine.WalkUpTo(o, elems, k - 1).Walking?
    requires Engine.WalkUpTo(o, elems, k - 1).cursor as real == ArrayVerifier.ExpectedCount(o.items[..k - 1])
    ensures Engine.WalkUpTo(o, elems, k).cursor as real == ArrayVerifier.ExpectedCount(o.items[..k])
  {
    var n := LastStep(o, elems, k);
    assert o.items[..k] == o.items[..k - 1] + [o.items[k - 1]];
    ArrayVerifier.ExpectedCountAppend(o.items[..k - 1], o.items[k - 1]);
  }

  /** Without `repeated` items, a running walk has consumed exactly the
      element count checkExact expects of its items. */
  lemma {:induction false} WalkConsumesExpected(o: ArrayOptions, elems: seq<Value>, k: nat)
    requires k <= |o.items|
    requires forall j :: 0 <= j < k ==> !IsTrue(o.items[j].options.repeated)
    requires Engine.WalkUpTo(o, elems, k).Walking?
    ensures Engine.WalkUpTo(o, elems, k).cursor as real == ArrayVerifier.ExpectedCount(o.items[..k])
  {
    if k > 0 {
      WalkingBefore(o, elems, k);
      WalkConsumesExpected(o, elems, k - 1);
      ConsumesStep(o, elems, k);
    }
  }

  /** With no `repeated` item and a walk that did not stop, an exact array
      passes checkExact exactly when the walk consumed all its elements. */
  lemma ExactMeansWalkConsumesAll(o: ArrayOptions, elems: seq<Value>)
    requires forall j :: 0 <= j < |o.items| ==> !IsTrue(o.items[j].options.repeated)
    requires IsTrue(o.exact) && !Engine.CheckArrayItems(o, Arr(elems)).Fail?
    ensures Engine.WalkUpTo(o, elems, |o.items|).Walking?
    ensures ArrayVerifier.CheckExact(o, Arr(elems)).Success? <==> |elems| == Engine.WalkUpTo(o, elems, |o.items|).cursor
  {
    WalkConsumesExpected(o, elems, |o.items|);
    assert o.items[..|o.items|] == o.items;
  }

  /** A `repeated` item before the last one stops checkItems, and with it
      the array verifier's pipeline. */
  lemma RepeatedItemMustBeLast(o: ArrayOptions, elems: seq<Value>, i: nat)
    requires i < |o.items| - 1 && IsTrue(o.items[i].options.repeated)
    requires Engine.WalkUpTo(o, elems, i).Walking?
    ensures Engine.CheckArrayItems(o, Arr(elems)) == Fail([Msg("errors.array.items.repeatedItem", [])])
  {
    var w := Engine.WalkUpTo(o, elems, i);
    WalkStep(o, elems, i, w.cursor, w.failures);
    StoppedStays(o, elems, i + 1, |o.items|);
  }

  /** A `repeatCount` that is not a positive integer stops checkItems with
      the count it was given. */
  lemma RepeatCountMustBePositiveInteger(o: ArrayOptions, elems: seq<Value>, i: nat)
    requires i < |o.items| && o.items[i].options.repeatCount.Some?
    requires !(IsTrue(o.items[i].options.repeated) && i != |o.items| - 1)
    requires o.items[i].options.repeatCount.value <= 0.0 || !IsInteger(o.items[i].options.repeatCount.value)
    requires Engine.WalkUpTo(o, elems, i).Walking?
    ensures Engine.CheckArrayItems(o, Arr(elems))
      == Fail([Msg("errors.array.items.repeatCountNotInteger", [ArgNum(o.items[i].options.repeatCount.value)])])
  {
    var w := Engine.WalkUpTo(o, elems, i);
    var rc := o.items[i].options.repeatCount.value;
    assert Engine.ItemStep(o.items, i, |elems|, w.cursor) == Engine.Halt(Msg("errors.array.items.repeatCountNotInteger", [ArgNum(rc)]));
    WalkStep(o, elems, i, w.cursor, w.failures);
    StoppedStays(o, elems, i + 1, |o.items|);
  }

  // ----- The failures the walk reports -----

  /** Failure groups with indices in `[lo, hi)`, strictly increasing, each
      with at least one message. */
  ghost predicate Grouped(gs: seq<(nat, seq<Msg>)>, lo: nat, hi: nat) {
    && (forall g :: 0 <= g < |gs| ==> lo <= gs[g].0 < hi && gs[g].1 != [])
    && (forall g, h :: 0 <= g < h < |gs| ==> gs[g].0 < gs[h].0)
  }

  lemma GroupedAppend(a: seq<(nat, seq<Msg>)>, b: seq<(nat, seq<Msg>)>, lo: nat, mid: nat, hi: nat)
    requires lo <= mid <= hi && Grouped(a, lo, mid) && Grouped(b, mid, hi)
    ensures Grouped(a + b, lo, hi)
  {
  }

  /** One more element: if it fails, its group goes after the others. */
  lemma FailuresGroupedStep(v: Verifier, elems: seq<Value>, start: nat, count: nat)
    requires 0 < count && Grouped(Engine.Failures(v, elems, start, count - 1), start, start + count - 1)
    ensures Grouped(Engine.Failures(v, elems, start, count), start, start + count)
  {
    var last := start + count - 1;
    var r := Engine.Verify(v, At(elems, last));
    FailuresStep(v, elems, start, count - 1, r);
    GroupedAppend(Engine.Failures(v, elems, start, count - 1), if r.Success? then [] else [(last, r.errors)], start, last, start + count);
  }

  /** A run's failures carry the indices of the elements that failed, in
      increasing order, each with the messages of its failure. */
  lemma {:induction false} FailuresGrouped(v: Verifier, elems: seq<Value>, start: nat, count: nat)
    ensures Grouped(Engine.Failures(v, elems, start, count), start, start + count)
  {
    if count > 0 {
      FailuresGrouped(v, elems, start, count - 1);
      FailuresGroupedStep(v, elems, start, count);
    }
  }

  /** One more item: the failures of its run go after the earlier ones. */
  lemma WalkGroupedStep(o: ArrayOptions, elems: seq<Value>, k: nat)
    requires 0 < k <= |o.items| && Engine.WalkUpTo(o, elems, k).Walking? && Engine.WalkUpTo(o, elems, k - 1).Walking?
    requires Grouped(Engine.WalkUpTo(o, elems, k - 1).failures, 0, Engine.WalkUpTo(o, elems, k - 1).cursor)
    ensures Grouped(Engine.WalkUpTo(o, elems, k).failures, 0, Engine.WalkUpTo(o, elems, k).cursor)
  {
    var n := LastStep(o, elems, k);
    var w := Engine.WalkUpTo(o, elems, k - 1);
    FailuresGrouped(o.items[k - 1].verifier, elems, w.cursor, n);
    GroupedAppend(w.failures, Engine.Failures(o.items[k - 1].verifier, elems, w.cursor, n), 0, w.cursor, w.cursor + n);
  }

  /** checkItems reports the failing elements of a running walk below its
      cursor, in increasing index order. */
  lemma {:induction false} WalkGrouped(o: ArrayOptions, elems: seq<Value>, k: nat)
    requires k <= |o.items| && Engine.WalkUpTo(o, elems, k).Walking?
    ensures Grouped(Engine.WalkUpTo(o, elems, k).failures, 0, Engine.WalkUpTo(o, elems, k).cursor)
  {
    if k > 0 {
      WalkingBefore(o, elems, k);
      WalkGrouped(o, elems, k - 1);
      WalkGroupedStep(o, elems, k);
    }
  }

  /** Element `j` passes the item's verifier. */
  predicate Passes(v: Verifier, elems: seq<Value>, j: nat) {
    Engine.Verify(v, At(elems, j)).Success?
  }

  /** One more element: the run passes so far exactly when it passed
      before and this element passes. */
  lemma FailuresPassStep(v: Verifier, elems: seq<Value>, start: nat, k: nat)
    ensures Engine.Failures(v, elems, start, k + 1) == []
      <==> Engine.Failures(v, elems, start, k) == [] && Passes(v, elems, start + k)
  {
    var r := Engine.Verify(v, At(elems, start + k));
    FailuresStep(v, elems, start, k, r);
    if !r.Success? {
      assert |Engine.Failures(v, elems, start, k + 1)| > 0;
    }
  }

  lemma PassCombine(v: Verifier, elems: seq<Value>, start: nat, k: nat)
    requires Engine.Failures(v, elems, start, k) == []
      <==> forall j :: start <= j < start + k ==> Passes(v, elems, j)
    requires Engine.Failures(v, elems, start, k + 1) == []
      <==> Engine.Failures(v, elems, start, k) == [] && Passes(v, elems, start + k)
    ensures Engine.Failures(v, elems, start, k + 1) == []
      <==> forall j :: start <= j < start + k + 1 ==> Passes(v, elems, j)
  {
    assert (forall j :: start <= j < start + k + 1 ==> Passes(v, elems, j)) <==>
      && (forall j :: start <= j < start + k ==> Passes(v, elems, j))
      && Passes(v, elems, start + k);
  }

  /** A run's failures are empty exactly when every element it visits
      passes. */
  lemma {:induction false} FailuresPass(v: Verifier, elems: seq<Value>, start: nat, count: nat)
    decreases count
    ensures Engine.Failures(v, elems, start, count) == []
      <==> forall j :: start <= j < start + count ==> Passes(v, elems, j)
  {
    if count > 0 {
      var k := count - 1;
      FailuresPass(v, elems, start, k);
      FailuresPassStep(v, elems, start, k);
      PassCombine(v, elems, start, k);
    }
  }

  // ----- When the whole walk passes -----

  /** Item `i`'s run passes: if the walk reaches the item and the item
      consumes `n` elements from the cursor, each of them passes the item's
      verifier. */
  predicate RunPasses(o: ArrayOptions, elems: seq<Value>, i: nat)
    requires i < |o.items|
  {
    var w := Engine.WalkUpTo(o, elems, i);
    w.Walking? ==>
      match Engine.ItemStep(o.items, i, |elems|, w.cursor)
      case Halt(_) => true
      case Consume(n) => forall j :: w.cursor <= j < w.cursor + n ==> Passes(o.items[i].verifier, elems, j)
  }

  /** One more item: the walk has no failures so far exactly when it had
      none before and the item's run passes. */
  lemma WalkPassStep(o: ArrayOptions, elems: seq<Value>, k: nat)
    requires 0 < k <= |o.items| && Engine.WalkUpTo(o, elems, k).Walking?
    ensures Engine.WalkUpTo(o, elems, k - 1).Walking?
    ensures Engine.WalkUpTo(o, elems, k).failures == []
      <==> Engine.WalkUpTo(o, elems, k - 1).failures == [] && RunPasses(o, elems, k - 1)
  {
    var n := LastStep(o, elems, k);
    var w := Engine.WalkUpTo(o, elems, k - 1);
    var f := Engine.Failures(o.items[k - 1].verifier, elems, w.cursor, n);
    FailuresPass(o.items[k - 1].verifier, elems, w.cursor, n);
    assert Engine.WalkUpTo(o, elems, k).failures == w.failures + f;
    if f != [] {
      assert |Engine.WalkUpTo(o, elems, k).failures| > 0;
    }
  }

  lemma WalkPassCombine(o: ArrayOptions, elems: seq<Value>, k: nat)
    requires 0 < k <= |o.items| && Engine.WalkUpTo(o, elems, k).Walking? && Engine.WalkUpTo(o, elems, k - 1).Walking?
    requires Engine.WalkUpTo(o, elems, k - 1).failures == []
      <==> forall i :: 0 <= i < k - 1 ==> RunPasses(o, elems, i)
    requires Engine.WalkUpTo(o, elems, k).failures == []
      <==> Engine.WalkUpTo(o, elems, k - 1).failures == [] && RunPasses(o, elems, k - 1)
    ensures Engine.WalkUpTo(o, elems, k).failures == []
      <==> forall i :: 0 <= i < k ==> RunPasses(o, elems, i)
  {
    assert (forall i :: 0 <= i < k ==> RunPasses(o, elems, i)) <==>
      && (forall i :: 0 <= i < k - 1 ==> RunPasses(o, elems, i))
      && RunPasses(o, elems, k - 1);
  }

  /** A running walk has no failures exactly when the run of every item it
      has passed passes. */
  lemma {:induction false} WalkPass(o: ArrayOptions, elems: seq<Value>, k: nat)
    requires k <= |o.items| && Engine.WalkUpTo(o, elems, k).Walking?
    ensures Engine.WalkUpTo(o, elems, k).failures == []
      <==> forall i :: 0 <= i < k ==> RunPasses(o, elems, i)
  {
    if k > 0 {
      WalkPassStep(o, elems, k);
      WalkPass(o, elems, k - 1);
      WalkPassCombine(o, elems, k);
    }
  }

  /** The array verifier's `checkItems` passes exactly when the walk does
      not stop and every element each item consumes passes that item's
      verifier. */
  lemma ArrayItemsPass(o: ArrayOptions, elems: seq<Value>)
    ensures Engine.CheckArrayItems(o, Arr(elems)).Success? <==>
      && Engine.WalkUpTo(o, elems, |o.items|).Walking?
      && forall i :: 0 <= i < |o.items| ==> RunPasses(o, elems, i)
  {
    if Engine.WalkUpTo(o, elems, |o.items|).Walking? {
      WalkPass(o, elems, |o.items|);
    }
  }
}

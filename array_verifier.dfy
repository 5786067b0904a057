/** The array verifier's builders and its checks that do not descend into
    the elements (src/verifiers/ArrayVerifier.ts): checkArray, checkLengths
    and checkExact. The element walk, checkItems, runs nested verifiers and
    lives with the engine (module Engine) and module ItemWalks. */
module ArrayVerifier {
  import opened Wrappers
  import opened Values
  import opened Outcomes
  import opened Schema
  import Lengths

  function SetMaxLength(o: ArrayOptions, maxLength: real): ArrayOptions { o.(maxLength := Some(maxLength)) }
  function SetMinLength(o: ArrayOptions, minLength: real): ArrayOptions { o.(minLength := Some(minLength)) }
  function SetLength(o: ArrayOptions, length: real): ArrayOptions { o.(length := Some(length)) }
  function SetExact(o: ArrayOptions, exact: bool): ArrayOptions { o.(exact := Some(exact)) }

  /** `addItem` (behind `addString`, `addNumber`, ...): resolves the item's
      verifier for its kind and appends it, with its repeat options, to the
      item list. */
  function AddItem(o: ArrayOptions, k: Kind, verifierData: Option<ItemData>, options: ArrayItemOptions): (r: Result<ArrayOptions, string>)
    ensures r.Ok? <==> ResolveItem(verifierData, k).Ok?
    ensures r.Ok? ==> r.value == o.(items := o.items + [ArrayItem(ResolveItem(verifierData, k).value, k, options)])
  {
    match ResolveItem(verifierData, k)
    case Err(e) => Err(e)
    case Ok(v) => Ok(o.(items := o.items + [ArrayItem(v, k, options)]))
  }

  /** `checkArray`: anything but an array stops the pipeline. */
  function CheckArray(x: Value): (r: Outcome<Msg>)
    ensures r.Success? <==> x.Arr?
    ensures !r.Success? ==> r == Fail([Msg("errors.array.not", [])])
  {
    if IsArray(x) then Success else Fail([Msg("errors.array.not", [])])
  }

  /** `checkLengths` on an array: the string verifier's rule applied to the
      element count. */
  function CheckLengths(o: ArrayOptions, x: Value): (r: Outcome<Msg>)
    ensures !x.Arr? ==> r == Success
    ensures x.Arr? ==> (r.Success? <==> Lengths.Rule(o.maxLength, o.minLength, o.length, |x.elems|) == Lengths.Pass)
    ensures x.Arr? ==> (r.Fail? <==> Lengths.IsMisconfigured(Lengths.Rule(o.maxLength, o.minLength, o.length, |x.elems|)))
    ensures !r.Success? ==> |r.errors| == 1
    ensures x.Arr? ==> var d := Lengths.Rule(o.maxLength, o.minLength, o.length, |x.elems|);
      && (d == Lengths.NotEqual ==> (o.length.Some? &&
            r == Error([Msg("errors.array.lengths.notEqual", [ArgNum(|x.elems| as real), ArgNum(o.length.value)])])))
      && (d == Lengths.More ==> (o.maxLength.Some? &&
            r == Error([Msg("errors.array.lengths.max.more", [ArgNum(|x.elems| as real), ArgNum(o.maxLength.value)])])))
      && (d == Lengths.Less ==> (o.minLength.Some? &&
            r == Error([Msg("errors.array.lengths.min.less", [ArgNum(|x.elems| as real), ArgNum(o.minLength.value)])])))
      && (d == Lengths.Both ==> r == Fail([Msg("errors.array.lengths.both", [])]))
      && (d == Lengths.MaxInteger ==> r == Fail([Msg("errors.array.lengths.max.integer", [])]))
      && (d == Lengths.MaxNegative ==> r == Fail([Msg("errors.array.lengths.max.negative", [])]))
      && (d == Lengths.MaxLower ==> r == Fail([Msg("errors.array.lengths.max.lower", [])]))
      && (d == Lengths.MinInteger ==> r == Fail([Msg("errors.array.lengths.min.integer", [])]))
      && (d == Lengths.MinNegative ==> r == Fail([Msg("errors.array.lengths.min.negative", [])]))
  {
    if !IsArray(x) then Success
    else
      var n := ArgNum(|x.elems| as real);
      match Lengths.Rule(o.maxLength, o.minLength, o.length, |x.elems|)
      case Pass => Success
      case Both => Fail([Msg("errors.array.lengths.both", [])])
      case NotEqual => Error([Msg("errors.array.lengths.notEqual", [n, ArgNum(o.length.value)])])
      case MaxInteger => Fail([Msg("errors.array.lengths.max.integer", [])])
      case MaxNegative => Fail([Msg("errors.array.lengths.max.negative", [])])
      case MaxLower => Fail([Msg("errors.array.lengths.max.lower", [])])
      case MinInteger => Fail([Msg("errors.array.lengths.min.integer", [])])
      case MinNegative => Fail([Msg("errors.array.lengths.min.negative", [])])
      case More => Error([Msg("errors.array.lengths.max.more", [n, ArgNum(o.maxLength.value)])])
      case Less => Error([Msg("errors.array.lengths.min.less", [n, ArgNum(o.minLength.value)])])
  }

  /** The element count an exact array must have: one per item, plus its
      `repeatCount` when it has one. */
  function ExpectedCount(items: seq<ArrayItem>): real {
    if items == [] then 0.0
    else 1.0 + items[0].options.repeatCount.GetOr(0.0) + ExpectedCount(items[1..])
  }

  /** The last item is marked `repeated`. */
  predicate EndsRepeated(items: seq<ArrayItem>) {
    items != [] && IsTrue(items[|items| - 1].options.repeated)
  }

  /** `checkExact`: an exact array whose last item is not `repeated` must
      have exactly the expected number of elements. */
  function CheckExact(o: ArrayOptions, x: Value): (r: Outcome<Msg>)
    ensures !r.Fail?
    ensures r.Error? <==> x.Arr? && IsTrue(o.exact) && !EndsRepeated(o.items) && |x.elems| as real != ExpectedCount(o.items)
    ensures r.Error? ==> r.errors == [Msg("errors.array.notEqual", [])]
  {
    if !IsArray(x) then Success
    else if !IsTrue(o.exact) then Success
    else if EndsRepeated(o.items) then Success
    else if |x.elems| as real == ExpectedCount(o.items) then Success
    else Error([Msg("errors.array.notEqual", [])])
  }

  /** A zero `length` with no bound set checks nothing. */
  lemma ZeroLengthIsUnset(o: ArrayOptions, elems: seq<Value>)
    requires o.maxLength.None? && o.minLength.None? && o.length == Some(0.0)
    ensures CheckLengths(o, Arr(elems)) == Success
  {
  }

  /** With usable bounds and no exact length, an array longer than
      `maxLength` reports `max.more`, and a shorter one below `minLength`
      reports `min.less`, each naming the element count and the bound; an
      array within the bounds passes. */
  lemma BoundsReported(o: ArrayOptions, elems: seq<Value>)
    requires o.length.None? && Lengths.WellFormedBounds(o.maxLength, o.minLength)
    ensures o.maxLength.Some? && |elems| as real > o.maxLength.value ==>
      CheckLengths(o, Arr(elems)) == Error([Msg("errors.array.lengths.max.more", [ArgNum(|elems| as real), ArgNum(o.maxLength.value)])])
    ensures o.minLength.Some? && |elems| as real < o.minLength.value && (o.maxLength.Some? ==> |elems| as real <= o.maxLength.value) ==>
      CheckLengths(o, Arr(elems)) == Error([Msg("errors.array.lengths.min.less", [ArgNum(|elems| as real), ArgNum(o.minLength.value)])])
    ensures (o.maxLength.Some? ==> |elems| as real <= o.maxLength.value) && (o.minLength.Some? ==> o.minLength.value <= |elems| as real) ==>
      CheckLengths(o, Arr(elems)) == Success
  {
    Lengths.WithinBounds(o.maxLength, o.minLength, |elems|);
  }

  /** Appending an item adds one plus its repeat count to the expected count. */
  lemma {:induction false} ExpectedCountAppend(items: seq<ArrayItem>, item: ArrayItem)
    ensures ExpectedCount(items + [item]) == ExpectedCount(items) + 1.0 + item.options.repeatCount.GetOr(0.0)
  {
    if items != [] {
      assert (items + [item])[1..] == items[1..] + [item];
      ExpectedCountAppend(items[1..], item);
    } else {
      assert items + [item] == [item];
    }
  }
}

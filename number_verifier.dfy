/** The number verifier (src/verifiers/NumberVerifier.ts): its builders and
    its seven checks, in pipeline order checkNumber, checkIntegerType,
    checkExpectedValue, checkAllowedSigns, checkValues, checkRanges,
    checkDividableNumbers. */
module NumberVerifier {
  import opened Wrappers
  import opened Values
  import opened Outcomes
  import opened Schema

  // Builders: each returns the options record with one field replaced,
  // except the two `add*Ranges`, which append to the current list.

  function SetExpectedNumber(o: NumberOptions, e: real): NumberOptions { o.(expectedNumber := Some(e)) }
  function SetMinValue(o: NumberOptions, m: real): NumberOptions { o.(minValue := Some(m)) }
  function SetMaxValue(o: NumberOptions, m: real): NumberOptions { o.(maxValue := Some(m)) }
  function SetSafeIntegerOnly(o: NumberOptions, b: bool): NumberOptions { o.(safeInteger := Some(b)) }
  function SetIntegerOnly(o: NumberOptions, b: bool): NumberOptions { o.(integer := Some(b)) }
  function SetAllowedRanges(o: NumberOptions, rs: seq<NumberRange>): NumberOptions { o.(allowedRanges := rs) }
  function AddAllowedRanges(o: NumberOptions, rs: seq<NumberRange>): NumberOptions { o.(allowedRanges := o.allowedRanges + rs) }
  function SetExcludedRanges(o: NumberOptions, rs: seq<NumberRange>): NumberOptions { o.(excludedRanges := rs) }
  function AddExcludedRanges(o: NumberOptions, rs: seq<NumberRange>): NumberOptions { o.(excludedRanges := o.excludedRanges + rs) }
  function SetDividableNumbers(o: NumberOptions, ds: seq<real>): NumberOptions { o.(dividableBy := ds) }

  /** `setAllowedSigns`: each sign left out of the argument defaults to allowed. */
  function SetAllowedSigns(o: NumberOptions, positive: Option<bool>, zero: Option<bool>, negative: Option<bool>): (r: NumberOptions)
    ensures r.positive.Some? && r.zero.Some? && r.negative.Some?
    ensures positive.None? ==> r.positive == Some(true)
    ensures zero.None? ==> r.zero == Some(true)
    ensures negative.None? ==> r.negative == Some(true)
  {
    o.(positive := Some(positive.GetOr(true)), zero := Some(zero.GetOr(true)), negative := Some(negative.GetOr(true)))
  }

  /** `checkNumber`: anything but a number stops the pipeline. */
  function CheckNumber(x: Value): (r: Outcome<Msg>)
    ensures r.Success? <==> x.Num?
    ensures !r.Success? ==> r == Fail([Msg("errors.number.not", [])])
  {
    if IsNumber(x) then Success else Fail([Msg("errors.number.not", [])])
  }

  /** `checkIntegerType`: the integer test comes first, so a fraction is
      reported as `notInteger` even when it is also out of the safe range. */
  function CheckIntegerType(o: NumberOptions, x: Value): (r: Outcome<Msg>)
    ensures !r.Fail?
    ensures r.Success? <==> !x.Num? || ((IsTrue(o.integer) ==> IsInteger(x.n)) && (IsTrue(o.safeInteger) ==> IsSafeInteger(x.n)))
    ensures x.Num? && IsTrue(o.integer) && !IsInteger(x.n) ==> r == Error([Msg("errors.number.integers.notInteger", [ArgNum(x.n)])])
    ensures x.Num? && !(IsTrue(o.integer) && !IsInteger(x.n)) && IsTrue(o.safeInteger) && !IsSafeInteger(x.n) ==>
      r == Error([Msg("errors.number.integers.notSafe", [ArgNum(x.n)])])
    ensures !r.Success? ==> |r.errors| == 1
  {
    if !IsNumber(x) then Success
    else if IsTrue(o.integer) && !IsInteger(x.n) then Error([Msg("errors.number.integers.notInteger", [ArgNum(x.n)])])
    else if IsTrue(o.safeInteger) && !IsSafeInteger(x.n) then Error([Msg("errors.number.integers.notSafe", [ArgNum(x.n)])])
    else Success
  }

  /** `checkExpectedValue`. */
  function CheckExpectedValue(o: NumberOptions, x: Value): (r: Outcome<Msg>)
    ensures !r.Fail?
    ensures r.Error? <==> x.Num? && o.expectedNumber.Some? && x.n != o.expectedNumber.value
    ensures r.Error? ==> r.errors == [Msg("errors.number.notEqual", [ArgNum(x.n), ArgNum(o.expectedNumber.value)])]
  {
    if !IsNumber(x) then Success
    else match o.expectedNumber
      case None => Success
      case Some(e) =>
        if x.n == e then Success
        else Error([Msg("errors.number.notEqual", [ArgNum(x.n), ArgNum(e)])])
  }

  /** `checkAllowedSigns`: a sign is rejected only by an explicit `false`. */
  function CheckAllowedSigns(o: NumberOptions, x: Value): (r: Outcome<Msg>)
    ensures !r.Fail?
    ensures r.Error? <==>
      && x.Num?
      && ((o.positive == Some(false) && x.n > 0.0) ||
          (o.negative == Some(false) && x.n < 0.0) ||
          (o.zero == Some(false) && x.n == 0.0))
    ensures r.Error? ==>
      && x.Num?
      && r.errors == [Msg(if x.n > 0.0 then "errors.number.signs.positive"
                          else if x.n < 0.0 then "errors.number.signs.negative"
                          else "errors.number.signs.zero", [ArgNum(x.n)])]
    ensures !r.Success? ==> |r.errors| == 1
  {
    if !IsNumber(x) then Success
    else if o.positive.None? && o.negative.None? && o.zero.None? then Success
    else if o.positive == Some(false) && x.n > 0.0 then Error([Msg("errors.number.signs.positive", [ArgNum(x.n)])])
    else if o.negative == Some(false) && x.n < 0.0 then Error([Msg("errors.number.signs.negative", [ArgNum(x.n)])])
    else if o.zero == Some(false) && x.n == 0.0 then Error([Msg("errors.number.signs.zero", [ArgNum(x.n)])])
    else Success
  }

  /** `checkValues`: crossed bounds stop the pipeline; equal bounds are allowed. */
  function CheckValues(o: NumberOptions, x: Value): (r: Outcome<Msg>)
    ensures x.Num? && o.minValue.Some? && o.maxValue.Some? ==>
      (r.Fail? <==> o.minValue.value > o.maxValue.value)
    ensures r.Fail? ==> r == Fail([Msg("errors.number.values.maxLower", [])])
    ensures r.Success? <==>
      || !x.Num?
      || (&& !(o.minValue.Some? && o.maxValue.Some? && o.minValue.value > o.maxValue.value)
          && (o.minValue.Some? ==> o.minValue.value <= x.n)
          && (o.maxValue.Some? ==> x.n <= o.maxValue.value))
    ensures r.Error? && o.minValue.Some? && x.n < o.minValue.value ==>
      r.errors == [Msg("errors.number.values.min", [ArgNum(x.n), ArgNum(o.minValue.value)])]
    ensures r.Error? && (o.minValue.None? || o.minValue.value <= x.n) ==>
      o.maxValue.Some? && r.errors == [Msg("errors.number.values.max", [ArgNum(x.n), ArgNum(o.maxValue.value)])]
    ensures !r.Success? ==> |r.errors| == 1
  {
    if !IsNumber(x) then Success
    else if o.minValue.None? && o.maxValue.None? then Success
    else if o.minValue.Some? && o.maxValue.Some? && o.minValue.value > o.maxValue.value then
      Fail([Msg("errors.number.values.maxLower", [])])
    else if o.minValue.Some? && o.minValue.value > x.n then
      Error([Msg("errors.number.values.min", [ArgNum(x.n), ArgNum(o.minValue.value)])])
    else if o.maxValue.Some? && o.maxValue.value < x.n then
      Error([Msg("errors.number.values.max", [ArgNum(x.n), ArgNum(o.maxValue.value)])])
    else Success
  }

  /** A range holds `x` when `x` is past its start (or on it, if included)
      and before its end (or on it, if included). */
  predicate Contains(r: NumberRange, x: real) {
    (if r.start.included then r.start.number <= x else r.start.number < x) &&
    (if r.end.included then r.end.number >= x else r.end.number > x)
  }

  /** A range whose end is not after its start. */
  predicate Malformed(r: NumberRange) {
    r.start.number >= r.end.number
  }

  /** The ranges before position `i` are well formed and do not hold `x`. */
  predicate ScannedUpTo(rs: seq<NumberRange>, i: int, x: real) {
    0 <= i < |rs| && forall j :: 0 <= j < i ==> !Malformed(rs[j]) && !Contains(rs[j], x)
  }

  /** What an in-order scan of a range list finds first. */
  datatype Scan = Hit(range: NumberRange) | Broken | Miss

  /** The first-match search both loops of `checkRanges` perform: a range
      with start >= end stops it, and so does the first range that holds
      `x`; later ranges are not inspected. */
  function FirstHit(rs: seq<NumberRange>, x: real): (s: Scan)
    ensures s.Miss? <==> forall j :: 0 <= j < |rs| ==> !Malformed(rs[j]) && !Contains(rs[j], x)
    ensures s.Hit? ==> exists i :: ScannedUpTo(rs, i, x) && rs[i] == s.range && !Malformed(rs[i]) && Contains(rs[i], x)
    ensures s.Broken? ==> exists i :: ScannedUpTo(rs, i, x) && Malformed(rs[i])
  {
    if rs == [] then Miss
    else if Malformed(rs[0]) then Broken
    else if Contains(rs[0], x) then Hit(rs[0])
    else
      var s := FirstHit(rs[1..], x);
      assert forall j :: 1 <= j < |rs| ==> rs[j] == rs[1..][j - 1];
      s
  }

  /** The message naming the excluded range that holds `x`, written with
      bracket tags for included ends and parenthesis tags otherwise. */
  function ExcludedMsg(r: NumberRange, x: real): Msg {
    Msg("errors.number.ranges.excluded", [
      ArgNum(x),
      ArgStr(if r.start.included then "[" else "("),
      ArgNum(r.start.number),
      ArgNum(r.end.number),
      ArgStr(if r.end.included then "]" else ")")])
  }

  /** `checkRanges`: the excluded ranges are scanned before the allowed ones. */
  function CheckRanges(o: NumberOptions, x: Value): (r: Outcome<Msg>)
    ensures o.allowedRanges == [] && o.excludedRanges == [] ==> r == Success
    ensures x.Num? && FirstHit(o.excludedRanges, x.n).Hit? ==>
      r == Error([ExcludedMsg(FirstHit(o.excludedRanges, x.n).range, x.n)])
    ensures r.Fail? ==> r == Fail([Msg("errors.number.ranges.endLower", [])])
    ensures x.Num? && FirstHit(o.excludedRanges, x.n).Broken? ==>
      r == Fail([Msg("errors.number.ranges.endLower", [])])
    ensures x.Num? && FirstHit(o.excludedRanges, x.n).Miss? && o.allowedRanges != [] && FirstHit(o.allowedRanges, x.n).Broken? ==>
      r == Fail([Msg("errors.number.ranges.endLower", [])])
    ensures x.Num? && FirstHit(o.excludedRanges, x.n).Miss? && o.allowedRanges != [] && FirstHit(o.allowedRanges, x.n).Miss? ==>
      r == Error([Msg("errors.number.ranges.notInAllowed", [ArgNum(x.n)])])
    ensures r.Success? <==>
      || !x.Num?
      || (FirstHit(o.excludedRanges, x.n).Miss? && (o.allowedRanges == [] || FirstHit(o.allowedRanges, x.n).Hit?))
    ensures !r.Success? ==> |r.errors| == 1
  {
    if !IsNumber(x) then Success
    else if |o.allowedRanges + o.excludedRanges| == 0 then Success
    else match FirstHit(o.excludedRanges, x.n)
      case Broken => Fail([Msg("errors.number.ranges.endLower", [])])
      case Hit(range) => Error([ExcludedMsg(range, x.n)])
      case Miss =>
        if o.allowedRanges == [] then Success
        else match FirstHit(o.allowedRanges, x.n)
          case Broken => Fail([Msg("errors.number.ranges.endLower", [])])
          case Hit(_) => Success
          case Miss => Error([Msg("errors.number.ranges.notInAllowed", [ArgNum(x.n)])])
  }

  /** The test `(item) => input % item !== 0` of `checkDividableNumbers`;
      a zero divisor never reaches it. */
  function LeavesRemainder(x: real): real -> bool {
    d => d != 0.0 && !Divides(d, x)
  }

  /** The divisors that leave a remainder, in list order. */
  function NotDividing(ds: seq<real>, x: real): (failed: seq<real>)
    requires 0.0 !in ds
    ensures failed == Filter(ds, LeavesRemainder(x))
    ensures forall i :: 0 <= i < |failed| ==> failed[i] in ds && !Divides(failed[i], x)
    ensures forall d :: d in ds && !Divides(d, x) ==> d in failed
    ensures |failed| <= |ds|
  {
    if ds == [] then []
    else (if Divides(ds[0], x) then [] else [ds[0]]) + NotDividing(ds[1..], x)
  }

  /** `checkDividableNumbers`: a zero divisor stops the pipeline. */
  function CheckDividableNumbers(o: NumberOptions, x: Value): (r: Outcome<Msg>)
    ensures o.dividableBy == [] ==> r == Success
    ensures x.Num? && 0.0 in o.dividableBy ==> r == Fail([Msg("errors.number.dividable.zero", [])])
    ensures x.Num? && 0.0 !in o.dividableBy ==>
      (r.Success? <==> forall d :: d in o.dividableBy ==> Divides(d, x.n))
    ensures r.Error? ==>
      && x.Num?
      && r.errors == [Msg("errors.number.dividable.cannot", [ArgNum(x.n), ArgNums(Filter(o.dividableBy, LeavesRemainder(x.n)))])]
    ensures !r.Success? ==> |r.errors| == 1
  {
    if !IsNumber(x) then Success
    else if o.dividableBy == [] then Success
    else if 0.0 in o.dividableBy then Fail([Msg("errors.number.dividable.zero", [])])
    else
      var failed := NotDividing(o.dividableBy, x.n);
      if failed == [] then Success
      else assert !Divides(failed[0], x.n); Error([Msg("errors.number.dividable.cannot", [ArgNum(x.n), ArgNums(failed)])])
  }

  /** The checks in the order the verifier's constructor lists them. */
  function Checks(o: NumberOptions, x: Value): (os: seq<Outcome<Msg>>)
    ensures |os| == 7 && os[0] == CheckNumber(x)
  {
    [CheckNumber(x), CheckIntegerType(o, x), CheckExpectedValue(o, x), CheckAllowedSigns(o, x),
     CheckValues(o, x), CheckRanges(o, x), CheckDividableNumbers(o, x)]
  }

  /** Adding ranges in two calls is adding their concatenation, and a `set`
      discards whatever was added before. */
  lemma RangeBuilders(o: NumberOptions, a: seq<NumberRange>, b: seq<NumberRange>)
    ensures AddAllowedRanges(AddAllowedRanges(o, a), b) == AddAllowedRanges(o, a + b)
    ensures AddExcludedRanges(AddExcludedRanges(o, a), b) == AddExcludedRanges(o, a + b)
    ensures SetAllowedRanges(AddAllowedRanges(o, a), b) == SetAllowedRanges(o, b)
    ensures SetExcludedRanges(AddExcludedRanges(o, a), b) == SetExcludedRanges(o, b)
    ensures AddAllowedRanges(o, a).excludedRanges == o.excludedRanges
    ensures AddExcludedRanges(o, a).allowedRanges == o.allowedRanges
  {
  }

  /** Scanning a list extended at the end finds what the prefix finds, when
      the prefix already decides. */
  lemma {:induction false} FirstHitAppend(a: seq<NumberRange>, b: seq<NumberRange>, x: real)
    ensures !FirstHit(a, x).Miss? ==> FirstHit(a + b, x) == FirstHit(a, x)
    ensures FirstHit(a, x).Miss? ==> FirstHit(a + b, x) == FirstHit(b, x)
  {
    if a != [] {
      assert (a + b)[0] == a[0];
      assert (a + b)[1..] == a[1..] + b;
      FirstHitAppend(a[1..], b, x);
    } else {
      assert a + b == b;
    }
  }

  /** Adding allowed ranges after one that already holds `x` changes
      nothing for `x`, even when the added ranges are malformed. */
  lemma AddedRangesAfterAHit(o: NumberOptions, extra: seq<NumberRange>, x: real)
    requires FirstHit(o.allowedRanges, x).Hit?
    ensures CheckRanges(AddAllowedRanges(o, extra), Num(x)) == CheckRanges(o, Num(x))
  {
    FirstHitAppend(o.allowedRanges, extra, x);
  }

  /** With all three sign flags set through `setAllowedSigns`, a number is
      refused exactly when its sign was given as `false`. */
  lemma SignsDecide(o: NumberOptions, positive: Option<bool>, zero: Option<bool>, negative: Option<bool>, x: real)
    ensures var r := CheckAllowedSigns(SetAllowedSigns(o, positive, zero, negative), Num(x));
      r.Error? <==> (x > 0.0 && positive == Some(false)) || (x == 0.0 && zero == Some(false)) || (x < 0.0 && negative == Some(false))
  {
  }
}

/** The string verifier (src/verifiers/StringVerifier.ts): its builders and
    its four checks, in pipeline order checkString, checkExpectedString,
    checkLengths, checkRegex. */
module StringVerifier {
  import opened Wrappers
  import opened Values
  import opened Outcomes
  import opened Schema
  import Lengths

  // Builders: each returns the options record with one field replaced.

  function SetLength(o: StringOptions, length: real): StringOptions { o.(length := Some(length)) }
  function SetMaxLength(o: StringOptions, maxLength: real): StringOptions { o.(maxLength := Some(maxLength)) }
  function SetMinLength(o: StringOptions, minLength: real): StringOptions { o.(minLength := Some(minLength)) }
  function SetRegex(o: StringOptions, regex: Pattern): StringOptions { o.(regex := Some(regex)) }
  function SetExpectedString(o: StringOptions, expected: string): StringOptions { o.(expectedString := Some(expected)) }

  /** `checkString`: anything but a string stops the pipeline. */
  function CheckString(x: Value): (r: Outcome<Msg>)
    ensures r.Success? <==> x.Str?
    ensures !r.Success? ==> r == Fail([Msg("errors.string.not", [])])
  {
    if IsString(x) then Success else Fail([Msg("errors.string.not", [])])
  }

  /** `checkExpectedString`. */
  function CheckExpectedString(o: StringOptions, x: Value): (r: Outcome<Msg>)
    ensures !r.Fail?
    ensures r.Error? <==> x.Str? && o.expectedString.Some? && x.s != o.expectedString.value
    ensures r.Error? ==> r.errors == [Msg("errors.string.notEqual", [ArgStr(x.s), ArgStr(o.expectedString.value)])]
  {
    if !IsString(x) then Success
    else match o.expectedString
      case None => Success
      case Some(e) =>
        if x.s == e then Success
        else Error([Msg("errors.string.notEqual", [ArgStr(x.s), ArgStr(e)])])
  }

  /** `checkLengths` on a string: a non-string answers an Error with no
      message; a string is judged by the shared length rule. */
  function CheckLengths(o: StringOptions, x: Value): (r: Outcome<Msg>)
    ensures !x.Str? ==> r == Error([])
    ensures x.Str? ==> (r.Success? <==> Lengths.Rule(o.maxLength, o.minLength, o.length, |x.s|) == Lengths.Pass)
    ensures x.Str? ==> (r.Fail? <==> Lengths.IsMisconfigured(Lengths.Rule(o.maxLength, o.minLength, o.length, |x.s|)))
    ensures !r.Success? ==> |r.errors| <= 1
    ensures x.Str? && !r.Success? ==> |r.errors| == 1
    ensures x.Str? ==> var d := Lengths.Rule(o.maxLength, o.minLength, o.length, |x.s|);
      && (d == Lengths.NotEqual ==> (o.length.Some? &&
            r == Error([Msg("errors.string.lengths.notEqual", [ArgStr(x.s), ArgNum(|x.s| as real), ArgNum(o.length.value)])])))
      && (d == Lengths.More ==> (o.maxLength.Some? &&
            r == Error([Msg("errors.string.lengths.max.more", [ArgStr(x.s), ArgNum(|x.s| as real), ArgNum(o.maxLength.value)])])))
      && (d == Lengths.Less ==> (o.minLength.Some? &&
            r == Error([Msg("errors.string.lengths.min.less", [ArgStr(x.s), ArgNum(|x.s| as real), ArgNum(o.minLength.value)])])))
      && (d == Lengths.Both ==> r == Fail([Msg("errors.string.lengths.both", [])]))
      && (d == Lengths.MaxInteger ==> r == Fail([Msg("errors.string.lengths.max.integer", [])]))
      && (d == Lengths.MaxNegative ==> r == Fail([Msg("errors.string.lengths.max.negative", [])]))
      && (d == Lengths.MaxLower ==> r == Fail([Msg("errors.string.lengths.max.lower", [])]))
      && (d == Lengths.MinInteger ==> r == Fail([Msg("errors.string.lengths.min.integer", [])]))
      && (d == Lengths.MinNegative ==> r == Fail([Msg("errors.string.lengths.min.negative", [])]))
  {
    if !IsString(x) then Error([])
    else
      var n := |x.s|;
      var input := ArgStr(x.s);
      match Lengths.Rule(o.maxLength, o.minLength, o.length, n)
      case Pass => Success
      case Both => Fail([Msg("errors.string.lengths.both", [])])
      case NotEqual => Error([Msg("errors.string.lengths.notEqual", [input, ArgNum(n as real), ArgNum(o.length.value)])])
      case MaxInteger => Fail([Msg("errors.string.lengths.max.integer", [])])
      case MaxNegative => Fail([Msg("errors.string.lengths.max.negative", [])])
      case MaxLower => Fail([Msg("errors.string.lengths.max.lower", [])])
      case MinInteger => Fail([Msg("errors.string.lengths.min.integer", [])])
      case MinNegative => Fail([Msg("errors.string.lengths.min.negative", [])])
      case More => Error([Msg("errors.string.lengths.max.more", [input, ArgNum(n as real), ArgNum(o.maxLength.value)])])
      case Less => Error([Msg("errors.string.lengths.min.less", [input, ArgNum(n as real), ArgNum(o.minLength.value)])])
  }

  /** `checkRegex`. */
  function CheckRegex(o: StringOptions, x: Value): (r: Outcome<Msg>)
    ensures !r.Fail?
    ensures r.Error? <==> x.Str? && o.regex.Some? && !o.regex.value.test(x.s)
    ensures r.Error? ==> r.errors == [Msg("errors.string.regex", [ArgStr(x.s), ArgStr(o.regex.value.text)])]
  {
    if !IsString(x) then Success
    else match o.regex
      case None => Success
      case Some(p) =>
        if p.test(x.s) then Success
        else Error([Msg("errors.string.regex", [ArgStr(x.s), ArgStr(p.text)])])
  }

  /** The checks in the order the verifier's constructor lists them. */
  function Checks(o: StringOptions, x: Value): (os: seq<Outcome<Msg>>)
    ensures |os| == 4 && os[0] == CheckString(x)
  {
    [CheckString(x), CheckExpectedString(o, x), CheckLengths(o, x), CheckRegex(o, x)]
  }

  /** A zero `length` with no bound set checks nothing: every string
      passes the length check, whatever its length. */
  lemma ZeroLengthIsUnset(o: StringOptions, s: string)
    requires o.maxLength.None? && o.minLength.None? && o.length == Some(0.0)
    ensures CheckLengths(o, Str(s)) == Success
  {
  }

  /** With usable bounds and no exact length, a string longer than
      `maxLength` reports `max.more`, and a shorter one below `minLength`
      reports `min.less`, each naming the string, its length and the bound;
      a string within the bounds passes. */
  lemma BoundsReported(o: StringOptions, s: string)
    requires o.length.None? && Lengths.WellFormedBounds(o.maxLength, o.minLength)
    ensures o.maxLength.Some? && |s| as real > o.maxLength.value ==>
      CheckLengths(o, Str(s)) == Error([Msg("errors.string.lengths.max.more", [ArgStr(s), ArgNum(|s| as real), ArgNum(o.maxLength.value)])])
    ensures o.minLength.Some? && |s| as real < o.minLength.value && (o.maxLength.Some? ==> |s| as real <= o.maxLength.value) ==>
      CheckLengths(o, Str(s)) == Error([Msg("errors.string.lengths.min.less", [ArgStr(s), ArgNum(|s| as real), ArgNum(o.minLength.value)])])
    ensures (o.maxLength.Some? ==> |s| as real <= o.maxLength.value) && (o.minLength.Some? ==> o.minLength.value <= |s| as real) ==>
      CheckLengths(o, Str(s)) == Success
  {
    Lengths.WithinBounds(o.maxLength, o.minLength, |s|);
  }

  /** `setLength` after `setMaxLength` (or the reverse) makes every string
      fail the length check with `both`. */
  lemma LengthWithBoundFails(o: StringOptions, length: real, bound: real, s: string)
    ensures CheckLengths(SetLength(SetMaxLength(o, bound), length), Str(s)) == Fail([Msg("errors.string.lengths.both", [])])
    ensures CheckLengths(SetMinLength(SetLength(o, length), bound), Str(s)) == Fail([Msg("errors.string.lengths.both", [])])
  {
  }

  /** `setExpectedString(e)` accepts exactly `e` among strings. */
  lemma ExpectedStringDecides(o: StringOptions, e: string, s: string)
    ensures CheckExpectedString(SetExpectedString(o, e), Str(s)).Success? <==> s == e
  {
  }
}

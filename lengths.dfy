/** The length rule shared by the string and array verifiers
    (src/verifiers/StringVerifier.ts:105-147, src/verifiers/ArrayVerifier.ts:92-128):
    the two `checkLengths` apply the same sequence of tests to the input's
    length and differ only in their catalog branch and message arguments. */
module Lengths {
  import opened Wrappers
  import opened Values

  /** Which branch of the rule answered. */
  datatype Verdict =
    | Pass
    | Both          // Fail: `length` together with a bound
    | NotEqual      // Error: the exact length differs
    | MaxInteger    // Fail: `maxLength` is not an integer
    | MaxNegative   // Fail: `maxLength` is negative
    | MaxLower      // Fail: `maxLength` is below `minLength ?? 0`
    | MinInteger    // Fail: `minLength` is not an integer
    | MinNegative   // Fail: `minLength` is negative
    | More          // Error: longer than `maxLength`
    | Less          // Error: shorter than `minLength`

  /** The verdicts that stop the pipeline: errors in the options themselves. */
  predicate IsMisconfigured(d: Verdict) {
    d.Both? || d.MaxInteger? || d.MaxNegative? || d.MaxLower? || d.MinInteger? || d.MinNegative?
  }

  /** JavaScript `!length`: true for an unset length and for 0. */
  predicate Falsy(len: Option<real>) {
    len.None? || len.value == 0.0
  }

  /** The options are usable bounds: integers, non-negative, max not below min. */
  predicate WellFormedBounds(maxLength: Option<real>, minLength: Option<real>) {
    (maxLength.Some? ==> IsInteger(maxLength.value) && maxLength.value >= 0.0 && maxLength.value >= minLength.GetOr(0.0)) &&
    (minLength.Some? ==> IsInteger(minLength.value) && minLength.value >= 0.0)
  }

  /** The rule, tested in the source's order against an input of length `n`. */
  function Rule(maxLength: Option<real>, minLength: Option<real>, length: Option<real>, n: nat): (d: Verdict)
    ensures maxLength.None? && minLength.None? && Falsy(length) ==> d == Pass
    ensures (maxLength.Some? || minLength.Some?) && length.Some? ==> d == Both
    ensures IsMisconfigured(d) <==> (maxLength.Some? || minLength.Some?) && (length.Some? || !WellFormedBounds(maxLength, minLength))
  {
    if maxLength.None? && minLength.None? && Falsy(length) then Pass
    else if (maxLength.Some? || minLength.Some?) && length.Some? then Both
    else if length.Some? && length.value != n as real then NotEqual
    else if maxLength.Some? && !IsInteger(maxLength.value) then MaxInteger
    else if maxLength.Some? && maxLength.value < 0.0 then MaxNegative
    else if maxLength.Some? && maxLength.value < minLength.GetOr(0.0) then MaxLower
    else if minLength.Some? && !IsInteger(minLength.value) then MinInteger
    else if minLength.Some? && minLength.value < 0.0 then MinNegative
    else if maxLength.Some? && maxLength.value < n as real then More
    else if minLength.Some? && minLength.value > n as real then Less
    else Pass
  }

  /** A misconfiguration is found whatever the input: the verdict does not
      depend on the length. */
  lemma MisconfigurationIgnoresInput(maxLength: Option<real>, minLength: Option<real>, length: Option<real>, n: nat, m: nat)
    requires IsMisconfigured(Rule(maxLength, minLength, length, n))
    ensures Rule(maxLength, minLength, length, m) == Rule(maxLength, minLength, length, n)
  {
  }

  /** With only a non-zero `length`, the input passes exactly when its length
      equals it. */
  lemma ExactLength(length: real, n: nat)
    requires length != 0.0
    ensures Rule(None, None, Some(length), n) == if n as real == length then Pass else NotEqual
  {
  }

  /** With usable bounds and no exact length, the input passes exactly when
      it lies within them; above the maximum reports `More`, and only an
      input that is not too long can report `Less`. */
  lemma WithinBounds(maxLength: Option<real>, minLength: Option<real>, n: nat)
    requires WellFormedBounds(maxLength, minLength)
    ensures var d := Rule(maxLength, minLength, None, n);
      && (d == Pass <==> (maxLength.Some? ==> n as real <= maxLength.value) && (minLength.Some? ==> minLength.value <= n as real))
      && (d == More <==> maxLength.Some? && n as real > maxLength.value)
      && (d == Less <==> minLength.Some? && n as real < minLength.value && (maxLength.Some? ==> n as real <= maxLength.value))
  {
  }
}

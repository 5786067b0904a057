/** The boolean verifier (src/verifiers/BooleanVerifier.ts): one builder and
    the checks checkBoolean, checkExpectedBoolean. */
module BooleanVerifier {
  import opened Wrappers
  import opened Values
  import opened Outcomes
  import opened Schema

  function SetExpectedBoolean(o: BooleanOptions, e: bool): BooleanOptions { o.(expectedBoolean := Some(e)) }

  /** `checkBoolean`: anything but a boolean stops the pipeline. */
  function CheckBoolean(x: Value): (r: Outcome<Msg>)
    ensures r.Success? <==> x.Bool?
    ensures !r.Success? ==> r == Fail([Msg("errors.boolean.not", [])])
  {
    if IsBoolean(x) then Success else Fail([Msg("errors.boolean.not", [])])
  }

  /** `checkExpectedBoolean`. */
  function CheckExpectedBoolean(o: BooleanOptions, x: Value): (r: Outcome<Msg>)
    ensures !r.Fail?
    ensures r.Error? <==> x.Bool? && o.expectedBoolean.Some? && x.b != o.expectedBoolean.value
    ensures r.Error? ==> r.errors == [Msg("errors.boolean.notEqual", [ArgBool(x.b), ArgBool(o.expectedBoolean.value)])]
  {
    if !IsBoolean(x) then Success
    else match o.expectedBoolean
      case None => Success
      case Some(e) =>
        if x.b == e then Success
        else Error([Msg("errors.boolean.notEqual", [ArgBool(x.b), ArgBool(e)])])
  }

  /** The checks in the order the verifier's constructor lists them. */
  function Checks(o: BooleanOptions, x: Value): (os: seq<Outcome<Msg>>)
    ensures |os| == 2 && os[0] == CheckBoolean(x)
  {
    [CheckBoolean(x), CheckExpectedBoolean(o, x)]
  }

  /** `setExpectedBoolean(e)` accepts exactly `e` among booleans and keeps
      the type check as it was. */
  lemma ExpectedBooleanDecides(o: BooleanOptions, e: bool, b: bool)
    ensures CheckExpectedBoolean(SetExpectedBoolean(o, e), Bool(b)).Success? <==> b == e
    ensures Checks(SetExpectedBoolean(o, e), Bool(b))[0] == Success
  {
  }
}

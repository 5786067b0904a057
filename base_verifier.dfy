/** The base class every verifier extends (src/verifiers/BaseVerifier.ts):
    a fixed list of checks and an options record, bound together with the
    active catalog on each call and run through the pipeline of
    src/utils/verify.ts. */
module BaseVerifiers {
  import opened Wrappers
  import opened Values
  import opened Outcomes
  import opened Schema
  import Pipeline
  import Engine
  import Language

  /** A check as a verifier class defines it: it reads the options record
      and the catalog its `this` is bound to, and judges the input. An
      options record is held as a `Verifier` value, whose constructor names
      the kind of options it holds. */
  type Check = (Verifier, Value, Value) -> Outcome<Msg>

  /** What a verifier is constructed from: nothing, another verifier, or
      an options record. */
  datatype Context = NoContext | FromVerifier(source: BaseVerifier) | FromData(data: Verifier)

  /** The checks with `this` bound to `{ data, lang }`. */
  function Bind(checks: seq<Check>, data: Verifier, catalog: Value): (bound: seq<Value -> Outcome<Msg>>)
    ensures |bound| == |checks|
    ensures forall i :: 0 <= i < |checks| ==> bound[i] == (x => checks[i](data, catalog, x))
  {
    seq(|checks|, i requires 0 <= i < |checks| => (x => checks[i](data, catalog, x)))
  }

  /** Why `verifyFailOnError` throws: the active language is not in the
      table, or a check did not pass (with that check's messages). */
  datatype Thrown = LangUnavailable(message: string) | Failed(errors: seq<Msg>)

  class BaseVerifier {
    var verifiers: seq<Check>
    var data: Verifier

    /** `new BaseVerifier(verifierFunctions, verifierContext)` for a
        verifier class of kind `kind`: without a context the options are
        the empty record; from another verifier they are that verifier's
        record (whatever its class); from a record, the record itself. */
    constructor (kind: Kind, verifierFunctions: seq<Check>, context: Context)
      ensures verifiers == verifierFunctions
      ensures context.NoContext? ==> data == Fresh(kind)
      ensures context.FromVerifier? ==> data == context.source.data
      ensures context.FromData? ==> data == context.data
    {
      verifiers := verifierFunctions;
      match context
      case NoContext => data := Fresh(kind);
      case FromVerifier(source) => data := source.data;
      case FromData(d) => data := d;
    }

    /** `verify(input)`: read the active catalog once, bind it and the
        options to every check, and run them in order. Nothing of the
        verifier changes, so the answer depends only on its checks, its
        options, the active catalog and the input. */
    method Verify(langs: Language.Languages, input: Value) returns (r: Result<Outcome<Msg>, string>)
      ensures langs.Active().Err? ==> r == Err(langs.Active().error)
      ensures langs.Active().Ok? ==>
        r == Ok(Pipeline.Collect(Pipeline.Apply(Bind(verifiers, data, langs.Active().value), input)))
      ensures r.Ok? ==> !r.value.Fail?
    {
      var lang := langs.Active();
      if lang.Err? {
        return Err(lang.error);
      }
      var bound := Bind(verifiers, data, lang.value);
      var outcome := Pipeline.Verify(input, bound);
      return Ok(outcome);
    }

    /** `verifyFailOnError(input)`: the same bound checks, stopping at the
        first one that does not pass. It returns normally exactly when the
        active catalog exists and every check passes. */
    method VerifyFailOnError(langs: Language.Languages, input: Value) returns (r: Result<(), Thrown>)
      ensures langs.Active().Err? ==> r == Err(LangUnavailable(langs.Active().error))
      ensures langs.Active().Ok? ==>
        r == match Pipeline.FirstFailure(Pipeline.Apply(Bind(verifiers, data, langs.Active().value), input))
          case Ok(_) => Ok(())
          case Err(errors) => Err(Failed(errors))
      ensures r.Ok? <==>
        && langs.Active().Ok?
        && forall i :: 0 <= i < |verifiers| ==> verifiers[i](data, langs.Active().value, input).Success?
    {
      var lang := langs.Active();
      if lang.Err? {
        return Err(LangUnavailable(lang.error));
      }
      var bound := Bind(verifiers, data, lang.value);
      var outcome := Pipeline.VerifyFailOnError(input, bound);
      match outcome
      case Ok(_) => r := Ok(());
      case Err(errors) => r := Err(Failed(errors));
    }
  }

  /** The number of checks each verifier class passes to the base
      constructor. */
  function CheckCount(k: Kind): nat {
    match k
    case StringKind => 4
    case NumberKind => 7
    case BooleanKind => 2
    case ArrayKind => 4
    case ObjectKind => 4
  }

  /** Check `i` of a verifier class: the `i`-th of its checks on the
      options it is bound to. */
  function StandardCheck(i: nat): Check {
    (data: Verifier, catalog: Value, x: Value) =>
      var os := Engine.Checks(data, x);
      if i < |os| then os[i] else Success
  }

  /** The check list a verifier class of kind `k` passes to the base
      constructor. */
  function StandardChecks(k: Kind): (checks: seq<Check>)
    ensures |checks| == CheckCount(k)
    ensures forall i :: 0 <= i < |checks| ==> checks[i] == StandardCheck(i)
  {
    seq(CheckCount(k), (i: int) requires 0 <= i => StandardCheck(i))
  }

  /** A verifier class has as many checks as its constructor lists. */
  lemma CheckCountMatches(v: Verifier, x: Value)
    ensures |Engine.Checks(v, x)| == CheckCount(KindOf(v))
  {
  }

  /** A verifier class built on its standard checks and options of its own
      kind runs exactly the checks the engine specifies, whatever the
      catalog; so `verify` through the class is the engine's `verify`. */
  lemma StandardChecksAgree(v: Verifier, catalog: Value, x: Value)
    ensures Pipeline.Apply(Bind(StandardChecks(KindOf(v)), v, catalog), x) == Engine.Checks(v, x)
    ensures Pipeline.Collect(Pipeline.Apply(Bind(StandardChecks(KindOf(v)), v, catalog), x)) == Engine.Verify(v, x)
  {
    CheckCountMatches(v, x);
    var os := Pipeline.Apply(Bind(StandardChecks(KindOf(v)), v, catalog), x);
    assert forall i :: 0 <= i < |os| ==> os[i] == StandardCheck(i)(v, catalog, x);
  }
}

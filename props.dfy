/** Properties of `verify` over whole verifiers: the type check stops the
    pipeline on an input of the wrong type, every other non-Success
    outcome carries a message, and so `verify` and `verifyFailOnError`
    agree on which inputs they accept. */
module Properties {
  import opened Wrappers
  import opened Values
  import opened Outcomes
  import opened Schema
  import Pipeline
  import Lengths
  import StringVerifier
  import NumberVerifier
  import BooleanVerifier
  import ArrayVerifier
  import ObjectVerifier
  import Engine

  /** The input type a verifier of kind `k` accepts. */
  predicate OfKind(k: Kind, x: Value) {
    match k
    case StringKind => x.Str?
    case NumberKind => x.Num?
    case BooleanKind => x.Bool?
    case ArrayKind => x.Arr?
    case ObjectKind => x.Obj?
  }

  /** The catalog key of the `not` message of kind `k`. */
  function NotKey(k: Kind): string {
    match k
    case StringKind => "errors.string.not"
    case NumberKind => "errors.number.not"
    case BooleanKind => "errors.boolean.not"
    case ArrayKind => "errors.array.not"
    case ObjectKind => "errors.object.not"
  }

  /** The first check of every verifier is its type check: it passes the
      inputs of the verifier's type and stops the pipeline on any other
      input with the `not` message. */
  lemma TypeCheckFirst(v: Verifier, x: Value)
    ensures |Engine.Checks(v, x)| > 0
    ensures Engine.Checks(v, x)[0].Success? <==> OfKind(KindOf(v), x)
    ensures !OfKind(KindOf(v), x) ==> Engine.Checks(v, x)[0] == Fail([Msg(NotKey(KindOf(v)), [])])
  {
  }

  /** On an input of the wrong type, `verify` reports only the `not`
      message: no later check is heard. */
  lemma WrongTypeStops(v: Verifier, x: Value)
    requires !OfKind(KindOf(v), x)
    ensures Engine.Verify(v, x) == Error([Msg(NotKey(KindOf(v)), [])])
  {
    TypeCheckFirst(v, x);
  }

  /** A list whose first outcome passes only when every later failure
      carries a message, and which otherwise starts with a Fail that
      carries one, is audible. */
  lemma GatedIsAudible(os: seq<Outcome<Msg>>)
    requires os != []
    requires os[0].Success? ==> forall i :: 0 <= i < |os| && !os[i].Success? ==> os[i].errors != []
    requires !os[0].Success? ==> os[0].Fail? && os[0].errors != []
    ensures Pipeline.Audible(os)
  {
  }

  /** On an input of the right type, every check that does not pass says
      why. */
  lemma ChecksSpeak(v: Verifier, x: Value, i: nat)
    requires OfKind(KindOf(v), x)
    requires i < |Engine.Checks(v, x)| && !Engine.Checks(v, x)[i].Success?
    ensures Engine.Checks(v, x)[i].errors != []
  {
    match v
    case StringV(o) => StringChecksSpeak(o, x, i);
    case NumberV(o) => NumberChecksSpeak(o, x, i);
    case BooleanV(o) => BooleanChecksSpeak(o, x, i);
    case ArrayV(o) => ArrayChecksSpeak(o, x, i);
    case ObjectV(o) => ObjectChecksSpeak(o, x, i);
  }

  lemma StringChecksSpeak(o: StringOptions, x: Value, i: nat)
    requires x.Str? && i < 4 && !StringVerifier.Checks(o, x)[i].Success?
    ensures StringVerifier.Checks(o, x)[i].errors != []
  {
  }

  lemma NumberChecksSpeak(o: NumberOptions, x: Value, i: nat)
    requires x.Num? && i < 7 && !NumberVerifier.Checks(o, x)[i].Success?
    ensures NumberVerifier.Checks(o, x)[i].errors != []
  {
  }

  lemma BooleanChecksSpeak(o: BooleanOptions, x: Value, i: nat)
    requires x.Bool? && i < 2 && !BooleanVerifier.Checks(o, x)[i].Success?
    ensures BooleanVerifier.Checks(o, x)[i].errors != []
  {
  }

  lemma ArrayChecksSpeak(o: ArrayOptions, x: Value, i: nat)
    requires x.Arr? && i < |Engine.Checks(ArrayV(o), x)| && !Engine.Checks(ArrayV(o), x)[i].Success?
    ensures Engine.Checks(ArrayV(o), x)[i].errors != []
  {
    if i == 2 {
      ArrayItemsSpeak(o, x);
    }
  }

  lemma ObjectChecksSpeak(o: ObjectOptions, x: Value, i: nat)
    requires x.Obj? && i < |Engine.Checks(ObjectV(o), x)| && !Engine.Checks(ObjectV(o), x)[i].Success?
    ensures Engine.Checks(ObjectV(o), x)[i].errors != []
  {
  }

  /** A Fail of the array verifier's `checkItems` carries the reason the
      walk stopped, and an Error at least one message. */
  lemma ArrayItemsSpeak(o: ArrayOptions, x: Value)
    ensures Engine.CheckArrayItems(o, x).Fail? ==> |Engine.CheckArrayItems(o, x).errors| == 1
    ensures !Engine.CheckArrayItems(o, x).Success? ==> Engine.CheckArrayItems(o, x).errors != []
  {
  }

  /** The outcomes of every verifier's checks are audible. */
  lemma ChecksAudible(v: Verifier, x: Value)
    ensures Pipeline.Audible(Engine.Checks(v, x))
  {
    TypeCheckFirst(v, x);
    var os := Engine.Checks(v, x);
    if os[0].Success? {
      forall i | 0 <= i < |os| && !os[i].Success? ensures os[i].errors != [] {
        ChecksSpeak(v, x, i);
      }
    }
    GatedIsAudible(os);
  }

  /** `verify` succeeds exactly when every check passes, and so exactly
      when `verifyFailOnError` returns normally: no check ever answers a
      silent Error that `verify` would overlook but `verifyFailOnError`
      would throw on. */
  lemma AssertModeAgrees(v: Verifier, x: Value)
    ensures Engine.Verify(v, x).Success? <==> Pipeline.AllPass(Engine.Checks(v, x))
    ensures Engine.Verify(v, x).Success? <==> Pipeline.FirstFailure(Engine.Checks(v, x)).Ok?
  {
    ChecksAudible(v, x);
    Pipeline.CollectAgreesWithFirstFailure(Engine.Checks(v, x));
  }

  /** A boolean verifier accepts exactly the booleans equal to its
      expected value, or every boolean when none is set. */
  lemma BooleanVerifyIff(o: BooleanOptions, x: Value)
    ensures Engine.Verify(BooleanV(o), x).Success? <==>
      x.Bool? && (o.expectedBoolean.None? || x.b == o.expectedBoolean.value)
  {
    AssertModeAgrees(BooleanV(o), x);
    var os := Engine.Checks(BooleanV(o), x);
    assert os == BooleanVerifier.Checks(o, x);
    assert os[1] == BooleanVerifier.CheckExpectedBoolean(o, x);
  }

  /** A string verifier accepts exactly the strings that equal its
      expected string (if set), meet its length rule and match its
      pattern (if set). */
  lemma StringVerifyIff(o: StringOptions, x: Value)
    ensures Engine.Verify(StringV(o), x).Success? <==>
      && x.Str?
      && (o.expectedString.None? || x.s == o.expectedString.value)
      && Lengths.Rule(o.maxLength, o.minLength, o.length, |x.s|) == Lengths.Pass
      && (o.regex.None? || o.regex.value.test(x.s))
  {
    AssertModeAgrees(StringV(o), x);
    var os := Engine.Checks(StringV(o), x);
    assert os == StringVerifier.Checks(o, x);
    assert os[1] == StringVerifier.CheckExpectedString(o, x);
    assert os[2] == StringVerifier.CheckLengths(o, x);
    assert os[3] == StringVerifier.CheckRegex(o, x);
  }

  /** An array verifier accepts exactly the arrays that meet its length
      rule, whose items walk without a failure or a stop, and that have
      the expected length when it is exact. */
  lemma ArrayVerifyIff(o: ArrayOptions, x: Value)
    ensures Engine.Verify(ArrayV(o), x).Success? <==>
      && x.Arr?
      && ArrayVerifier.CheckLengths(o, x).Success?
      && Engine.CheckArrayItems(o, x).Success?
      && ArrayVerifier.CheckExact(o, x).Success?
  {
    AssertModeAgrees(ArrayV(o), x);
    var os := Engine.Checks(ArrayV(o), x);
    assert os == [ArrayVerifier.CheckArray(x), ArrayVerifier.CheckLengths(o, x), Engine.CheckArrayItems(o, x), ArrayVerifier.CheckExact(o, x)];
    assert Pipeline.AllPass(os) <==> os[0].Success? && os[1].Success? && os[2].Success? && os[3].Success?;
  }

  /** An object verifier accepts exactly the objects with no forbidden
      key, whose items and extra keys raise no group, and with no extra
      key when it is exact. */
  lemma ObjectVerifyIff(o: ObjectOptions, x: Value)
    ensures Engine.Verify(ObjectV(o), x).Success? <==>
      && x.Obj?
      && ObjectVerifier.CheckNotAllowed(o, x).Success?
      && Engine.CheckObjectItems(o, x).Success?
      && ObjectVerifier.CheckExact(o, x).Success?
  {
    AssertModeAgrees(ObjectV(o), x);
    var os := Engine.Checks(ObjectV(o), x);
    assert os == [ObjectVerifier.CheckObject(x), ObjectVerifier.CheckNotAllowed(o, x), Engine.CheckObjectItems(o, x), ObjectVerifier.CheckExact(o, x)];
    assert Pipeline.AllPass(os) <==> os[0].Success? && os[1].Success? && os[2].Success? && os[3].Success?;
  }
}

/** The check pipeline runner of src/utils/verify.ts: `verify` collects the
    messages of an ordered list of checks and stops at the first Fail;
    `verifyFailOnError` stops at the first outcome that is not a Success. */
module Pipeline {
  import opened Wrappers
  import opened Outcomes

  /** The messages `verify` accumulates from the outcomes of its checks, in
      check order: every Error's messages, up to and including the first
      Fail's, after which no outcome is read. */
  function Messages<M>(os: seq<Outcome<M>>): seq<M> {
    if os == [] then []
    else match os[0]
      case Success => Messages(os[1..])
      case Error(m) => m + Messages(os[1..])
      case Fail(m) => m
  }

  /** The outcome `verify` reports: Success when nothing accumulated,
      otherwise an Error with the accumulated messages; never a Fail. */
  function Collect<M>(os: seq<Outcome<M>>): (r: Outcome<M>)
    ensures !r.Fail?
    ensures r.Success? <==> Messages(os) == []
    ensures r.Error? ==> r.errors == Messages(os)
  {
    var m := Messages(os);
    if m == [] then Success else Error(m)
  }

  /** What `verifyFailOnError` does with the outcomes of its checks: return
      normally, or throw the messages of the first non-Success outcome. */
  function FirstFailure<M>(os: seq<Outcome<M>>): Result<(), seq<M>> {
    if os == [] then Ok(())
    else if os[0].Success? then FirstFailure(os[1..])
    else Err(os[0].errors)
  }

  /** The outcomes of `checks` on `input`, in order. */
  function Apply<I, M>(checks: seq<I -> Outcome<M>>, input: I): (os: seq<Outcome<M>>)
    ensures |os| == |checks|
    ensures forall i :: 0 <= i < |checks| ==> os[i] == checks[i](input)
  {
    seq(|checks|, i requires 0 <= i < |checks| => checks[i](input))
  }

  lemma MessagesFrom<M>(os: seq<Outcome<M>>, i: nat)
    requires i < |os|
    ensures Messages(os[i..]) == match os[i]
      case Success => Messages(os[i + 1..])
      case Error(m) => m + Messages(os[i + 1..])
      case Fail(m) => m
  {
    assert os[i..][0] == os[i];
    assert os[i..][1..] == os[i + 1..];
  }

  lemma FirstFailureFrom<M>(os: seq<Outcome<M>>, i: nat)
    requires i < |os|
    ensures FirstFailure(os[i..]) ==
      if os[i].Success? then FirstFailure(os[i + 1..]) else Err(os[i].errors)
  {
    assert os[i..][0] == os[i];
    assert os[i..][1..] == os[i + 1..];
  }

  /** `verify`: run the checks in order, appending the messages of every
      Error and of the first Fail, at which the loop stops. */
  method Verify<I, M>(input: I, checks: seq<I -> Outcome<M>>) returns (r: Outcome<M>)
    ensures r == Collect(Apply(checks, input))
  {
    ghost var os := Apply(checks, input);
    var errors: seq<M> := [];
    var i := 0;
    while i < |checks|
      invariant 0 <= i <= |checks|
      invariant Messages(os) == errors + Messages(os[i..])
    {
      var result := checks[i](input);
      MessagesFrom(os, i);
      if result.Success? {
        i := i + 1;
        continue;
      }
      if result.Fail? {
        errors := errors + result.errors;
        break;
      }
      errors := errors + result.errors;
      i := i + 1;
    }
    r := if |errors| > 0 then Error(errors) else Success;
  }

  /** `verifyFailOnError`: run the checks in order and throw (here: return
      `Err`) the messages of the first outcome that is not a Success. */
  method VerifyFailOnError<I, M>(input: I, checks: seq<I -> Outcome<M>>) returns (r: Result<(), seq<M>>)
    ensures r == FirstFailure(Apply(checks, input))
    ensures r.Ok? <==> forall i :: 0 <= i < |checks| ==> checks[i](input).Success?
  {
    ghost var os := Apply(checks, input);
    var i := 0;
    while i < |checks|
      invariant 0 <= i <= |checks|
      invariant FirstFailure(os) == FirstFailure(os[i..])
      invariant forall j :: 0 <= j < i ==> os[j].Success?
    {
      var result := checks[i](input);
      FirstFailureFrom(os, i);
      if !result.Success? {
        return Err(result.errors);
      }
      i := i + 1;
    }
    assert os[i..] == [];
    r := Ok(());
  }

  /** With no Fail among the first outcomes, their messages come first and
      the later checks still contribute theirs. */
  lemma {:induction false} MessagesAppend<M>(a: seq<Outcome<M>>, b: seq<Outcome<M>>)
    requires forall i :: 0 <= i < |a| ==> !a[i].Fail?
    ensures Messages(a + b) == Messages(a) + Messages(b)
  {
    if a == [] {
      assert a + b == b;
    } else {
      assert (a + b)[0] == a[0];
      assert (a + b)[1..] == a[1..] + b;
      MessagesAppend(a[1..], b);
      assert !a[0].Fail?;
      if a[0].Success? {
        assert Messages(a) == Messages(a[1..]);
        assert Messages(a + b) == Messages(a[1..] + b);
      } else {
        assert Messages(a) == a[0].errors + Messages(a[1..]);
        calc {
          Messages(a + b);
          a[0].errors + Messages(a[1..] + b);
          a[0].errors + (Messages(a[1..]) + Messages(b));
          (a[0].errors + Messages(a[1..])) + Messages(b);
        }
      }
    }
  }

  /** After a Fail nothing more is read: whatever outcomes follow it, the
      result is the same, and the Fail's own messages are the last ones. */
  lemma {:induction false} CollectStopsAtFail<M>(a: seq<Outcome<M>>, m: seq<M>, b1: seq<Outcome<M>>, b2: seq<Outcome<M>>)
    requires forall i :: 0 <= i < |a| ==> !a[i].Fail?
    ensures Messages(a + [Fail(m)] + b1) == Messages(a) + m
    ensures Collect(a + [Fail(m)] + b1) == Collect(a + [Fail(m)] + b2)
  {
    MessagesAppend(a, [Fail(m)] + b1);
    MessagesAppend(a, [Fail(m)] + b2);
    assert a + [Fail(m)] + b1 == a + ([Fail(m)] + b1);
    assert a + [Fail(m)] + b2 == a + ([Fail(m)] + b2);
    assert ([Fail(m)] + b1)[0] == Fail(m);
    assert ([Fail(m)] + b2)[0] == Fail(m);
  }

  /** A Success adds nothing, and an Error with no messages is just as
      silent to `verify` (while `verifyFailOnError` would throw on it). */
  lemma {:induction false} SilentOutcomes<M>(a: seq<Outcome<M>>, b: seq<Outcome<M>>)
    requires forall i :: 0 <= i < |a| ==> !a[i].Fail?
    ensures Collect(a + [Success] + b) == Collect(a + b)
    ensures Collect(a + [Error([])] + b) == Collect(a + b)
    ensures FirstFailure(a + [Error([])] + b).Err?
  {
    MessagesAppend(a, [Success] + b);
    MessagesAppend(a, [Error([])] + b);
    MessagesAppend(a, b);
    assert a + [Success] + b == a + ([Success] + b);
    assert a + [Error([])] + b == a + ([Error([])] + b);
    assert ([Success] + b)[0] == Success && ([Success] + b)[1..] == b;
    assert ([Error([])] + b)[0] == Error([]) && ([Error([])] + b)[1..] == b;
    FirstFailureReaches(a + [Error([])] + b, |a|);
  }

  lemma {:induction false} FirstFailureReaches<M>(os: seq<Outcome<M>>, k: nat)
    requires k < |os| && !os[k].Success?
    ensures FirstFailure(os).Err?
  {
    if !os[0].Success? {
    } else {
      FirstFailureReaches(os[1..], k - 1);
    }
  }

  /** Every outcome is a Success. */
  predicate AllPass<M>(os: seq<Outcome<M>>) {
    forall i :: 0 <= i < |os| ==> os[i].Success?
  }

  /** Every non-Success outcome that `verify` can read carries a message:
      an outcome without messages comes only after a Fail. */
  ghost predicate Audible<M>(os: seq<Outcome<M>>) {
    forall i :: 0 <= i < |os| && !os[i].Success? && os[i].errors == [] ==>
      exists j :: 0 <= j < i && os[j].Fail?
  }

  /** When every outcome `verify` reads is audible, `verify` succeeds
      exactly when every check succeeded, and so exactly when
      `verifyFailOnError` returns normally. */
  lemma {:induction false} CollectAgreesWithFirstFailure<M>(os: seq<Outcome<M>>)
    requires Audible(os)
    ensures Collect(os).Success? <==> AllPass(os)
    ensures FirstFailure(os).Ok? <==> AllPass(os)
  {
    if os != [] {
      if os[0].Success? {
        forall i | 0 <= i < |os[1..]| && !os[1..][i].Success? && os[1..][i].errors == []
          ensures exists j :: 0 <= j < i && os[1..][j].Fail?
        {
          assert os[1..][i] == os[i + 1];
          var j :| 0 <= j < i + 1 && os[j].Fail?;
          assert os[1..][j - 1] == os[j];
        }
        CollectAgreesWithFirstFailure(os[1..]);
        assert forall i :: 0 <= i < |os[1..]| ==> os[1..][i] == os[i + 1];
        if forall i :: 0 <= i < |os[1..]| ==> os[1..][i].Success? {
          forall i | 0 <= i < |os| ensures os[i].Success? {
            if i > 0 { assert os[1..][i - 1] == os[i]; }
          }
        }
      } else {
        assert os[0].errors != [];
      }
    }
  }
}

/** Nested-key flattening and dot-path lookup of src/utils/objects.ts:
    `keyNames` lists the leaf keys of a catalog, `accessKey` follows a
    dotted path into it. */
module Objects {
  import opened Wrappers
  import opened Values
  import Strings

  // ----- keyNames -----

  /** A value `keyNames` descends into: truthy and of type "object", which
      is every array and every object, and not `null`. */
  predicate Nested(x: Value)
    ensures Nested(x) <==> x.Arr? || x.Obj?
  {
    Truthy(x) && TypeOf(x) == "object"
  }

  /** The number of keys `Object.keys` lists. */
  function EntryCount(x: Value): nat {
    match x
    case Arr(elems) => |elems|
    case Obj(fields) => |fields|
    case _ => 0
  }

  /** The leaf keys `keyNames(x)`: nothing for a value that is not nested;
      otherwise the contributions of its keys in key order. */
  function Leaves(x: Value): seq<string>
    decreases x, 1
  {
    if !Nested(x) then [] else LeavesUpTo(x, EntryCount(x))
  }

  /** The contributions of the first `k` keys of `x`. */
  function LeavesUpTo(x: Value, k: nat): seq<string>
    requires k <= EntryCount(x)
    decreases x, 0, k
  {
    if k == 0 then [] else LeavesUpTo(x, k - 1) + EntryLeaves(x, k - 1)
  }

  /** What key `i` of `x` contributes: the leaf keys of its value when that
      value is nested, the key itself otherwise (an array's keys are its
      indices as decimal text). */
  function EntryLeaves(x: Value, i: nat): seq<string>
    requires i < EntryCount(x)
    decreases x, 0, 0
  {
    match x
    case Arr(elems) => if Nested(elems[i]) then Leaves(elems[i]) else [Strings.NatText(i)]
    case Obj(fields) => if Nested(fields[i].1) then Leaves(fields[i].1) else [fields[i].0]
  }

  /** `keyNames(x)`: push, key by key, the key itself or the key names of
      its nested value. */
  method KeyNames(x: Value) returns (keys: seq<string>)
    decreases x
    ensures keys == Leaves(x)
    ensures !Nested(x) ==> keys == []
  {
    keys := [];
    if !Truthy(x) || TypeOf(x) != "object" {
      return;
    }
    var count := EntryCount(x);
    var i := 0;
    while i < count
      invariant i <= count
      invariant keys == LeavesUpTo(x, i)
    {
      var names: seq<string>;
      match x {
        case Arr(elems) =>
          var value := elems[i];
          if Truthy(value) && TypeOf(value) == "object" {
            names := KeyNames(value);
          } else {
            names := [Strings.NatText(i)];
          }
        case Obj(fields) =>
          var value := fields[i].1;
          if Truthy(value) && TypeOf(value) == "object" {
            names := KeyNames(value);
          } else {
            names := [fields[i].0];
          }
      }
      keys := keys + names;
      i := i + 1;
    }
  }

  /** An object none of whose values is nested lists exactly its own keys:
      falsy values (`0`, `""`, `false`, `null`) and other scalars are
      leaves. */
  lemma FlatObjectLeaves(fields: seq<(string, Value)>)
    requires forall i :: 0 <= i < |fields| ==> !Nested(fields[i].1)
    ensures Leaves(Obj(fields)) == Keys(fields)
  {
    FlatPrefix(fields, |fields|);
  }

  lemma {:induction false} FlatPrefix(fields: seq<(string, Value)>, k: nat)
    requires k <= |fields|
    requires forall i :: 0 <= i < |fields| ==> !Nested(fields[i].1)
    ensures LeavesUpTo(Obj(fields), k) == Keys(fields)[..k]
  {
    if k > 0 {
      FlatPrefix(fields, k - 1);
      assert Keys(fields)[..k] == Keys(fields)[..k - 1] + [fields[k - 1].0];
    }
  }

  /** The first keys of a longer object contribute what they contribute on
      their own. */
  lemma {:induction false} LeavesUpToPrefix(a: seq<(string, Value)>, b: seq<(string, Value)>, k: nat)
    requires k <= |a|
    ensures LeavesUpTo(Obj(a + b), k) == LeavesUpTo(Obj(a), k)
  {
    if k > 0 {
      LeavesUpToPrefix(a, b, k - 1);
      assert (a + b)[k - 1] == a[k - 1];
    }
  }

  /** The keys after a prefix contribute what they contribute on their own. */
  lemma {:induction false} LeavesUpToSuffix(a: seq<(string, Value)>, b: seq<(string, Value)>, k: nat)
    requires k <= |b|
    ensures LeavesUpTo(Obj(a + b), |a| + k) == LeavesUpTo(Obj(a), |a|) + LeavesUpTo(Obj(b), k)
  {
    if k == 0 {
      LeavesUpToPrefix(a, b, |a|);
    } else {
      LeavesUpToSuffix(a, b, k - 1);
      assert (a + b)[|a| + k - 1] == b[k - 1];
    }
  }

  /** The key names of an object are those of its first keys followed by
      those of the rest. */
  lemma LeavesAppend(a: seq<(string, Value)>, b: seq<(string, Value)>)
    ensures Leaves(Obj(a + b)) == Leaves(Obj(a)) + Leaves(Obj(b))
  {
    LeavesUpToSuffix(a, b, |b|);
  }

  /** A key whose value is an empty object or an empty array contributes
      no names. */
  lemma EmptyNestedContributesNothing(a: seq<(string, Value)>, key: string, empty: Value, b: seq<(string, Value)>)
    requires empty == Obj([]) || empty == Arr([])
    ensures Leaves(Obj(a + [(key, empty)] + b)) == Leaves(Obj(a + b))
  {
    LeavesAppend(a + [(key, empty)], b);
    LeavesAppend(a, [(key, empty)]);
    LeavesAppend(a, b);
    assert LeavesUpTo(Obj([(key, empty)]), 1) == LeavesUpTo(Obj([(key, empty)]), 0) + Leaves(empty);
    assert Leaves(empty) == LeavesUpTo(empty, 0);
  }

  // ----- accessKey -----

  /** `s.split(".")`: the text between the dots, in order; a text with `n`
      dots gives `n + 1` parts, some of them empty. */
  function Split(s: string): (parts: seq<string>)
    ensures |parts| > 0
  {
    if s == [] then [""]
    else if s[0] == '.' then [""] + Split(s[1..])
    else
      var rest := Split(s[1..]);
      [[s[0]] + rest[0]] + rest[1..]
  }

  /** Joining the parts with "." gives the path back. */
  lemma {:induction false} JoinSplit(s: string)
    ensures Strings.Join(Split(s), ".") == s
  {
    if s != [] {
      JoinSplit(s[1..]);
      var rest := Split(s[1..]);
      if s[0] != '.' && |rest| > 1 {
        assert rest == [rest[0]] + rest[1..];
      }
    }
  }

  /** No part contains a dot. */
  lemma {:induction false} SplitPartsDotFree(s: string)
    ensures forall i :: 0 <= i < |Split(s)| ==> '.' !in Split(s)[i]
  {
    if s != [] {
      SplitPartsDotFree(s[1..]);
      var rest := Split(s[1..]);
      if s[0] != '.' {
        assert '.' !in [s[0]] + rest[0];
        assert forall i :: 1 <= i < |Split(s)| ==> Split(s)[i] == rest[i];
      } else {
        assert forall i :: 1 <= i < |Split(s)| ==> Split(s)[i] == rest[i - 1];
      }
    }
  }

  /** A leading dot starts an empty part. */
  lemma SplitDot(t: string)
    ensures Split("." + t) == [""] + Split(t)
  {
    assert ("." + t)[1..] == t;
  }

  /** A leading character other than a dot joins the first part. */
  lemma SplitCons(c: char, t: string)
    requires c != '.'
    ensures Split([c] + t) == [[c] + Split(t)[0]] + Split(t)[1..]
  {
    assert ([c] + t)[1..] == t;
  }

  /** Putting a part list in front of others and then extending its first
      part is extending the first part and then putting it in front. */
  lemma ExtendFirst(c: char, p: seq<string>, q: seq<string>)
    requires |p| > 0
    ensures [[c] + (p + q)[0]] + (p + q)[1..] == ([[c] + p[0]] + p[1..]) + q
  {
    assert (p + q)[0] == p[0];
    assert (p + q)[1..] == p[1..] + q;
  }

  /** One more leading character keeps the parts that follow a text. */
  lemma SplitConsStep(c: char, t: string, u: string, tail: seq<string>)
    requires Split(u) == Split(t) + tail
    ensures Split([c] + u) == Split([c] + t) + tail
  {
    if c == '.' {
      SplitDot(t);
      SplitDot(u);
    } else {
      SplitCons(c, t);
      SplitCons(c, u);
      ExtendFirst(c, Split(t), tail);
    }
  }

  /** A text that starts with a dot splits into the parts before it and
      the parts after the dot. */
  lemma {:induction false} SplitBefore(a: string, d: string, b: string)
    requires d == "." + b
    ensures Split(a + d) == Split(a) + Split(b)
  {
    if a == [] {
      assert a + d == d;
      SplitDot(b);
    } else {
      var t := a[1..];
      SplitBefore(t, d, b);
      assert [a[0]] + t == a;
      assert a + d == [a[0]] + (t + d);
      SplitConsStep(a[0], t, t + d, Split(b));
    }
  }

  /** A dot splits a path into the parts before it and the parts after it. */
  lemma SplitAtDot(a: string, b: string)
    ensures Split(a + "." + b) == Split(a) + Split(b)
  {
    SplitBefore(a, "." + b, b);
    assert a + "." + b == a + ("." + b);
  }

  /** Splitting a join of dot-free parts gives the parts back. */
  lemma {:induction false} SplitJoin(parts: seq<string>)
    requires |parts| > 0
    requires forall i :: 0 <= i < |parts| ==> '.' !in parts[i]
    ensures Split(Strings.Join(parts, ".")) == parts
  {
    if |parts| == 1 {
      SplitDotFree(parts[0]);
    } else {
      SplitJoin(parts[1..]);
      SplitDotFree(parts[0]);
      SplitAtDot(parts[0], Strings.Join(parts[1..], "."));
    }
  }

  /** A text without dots is one part. */
  lemma {:induction false} SplitDotFree(s: string)
    requires '.' !in s
    ensures Split(s) == [s]
  {
    if s != [] {
      assert s[0] in s;
      assert '.' !in s[1..] by {
        forall i | 0 <= i < |s[1..]| ensures s[1..][i] != '.' { assert s[1..][i] == s[i + 1]; }
      }
      SplitDotFree(s[1..]);
      assert [s[0]] + s[1..] == s;
    }
  }

  /** Why a descent cannot take its next step: the segment is not a key of
      the current value (or that value is not an object at all), or the
      current value is `null`, on which JavaScript's `in` throws a
      TypeError of its own. */
  datatype Stuck = Missing | InOnNull(segment: string)

  /** `current in value` for the own keys of an array or an object: an
      array has its indices and "length". */
  predicate HasOwn(x: Value, key: string)
    requires x.Arr? || x.Obj?
  {
    match x
    case Obj(fields) => Has(fields, key)
    case Arr(elems) =>
      key == "length" || (Strings.ParseIndex(key).Some? && Strings.ParseIndex(key).value < |elems|)
  }

  /** One step of the `reduce`: `value[current]` when the value is of type
      "object" and has the key. */
  function Member(x: Value, key: string): (r: Result<Value, Stuck>)
    ensures r.Ok? <==> Nested(x) && HasOwn(x, key)
    ensures r.Err? && x.Null? ==> r.error == InOnNull(key)
  {
    if TypeOf(x) != "object" then Err(Missing)
    else match x
      case Null => Err(InOnNull(key))
      case Obj(fields) => if Has(fields, key) then Ok(Get(fields, key)) else Err(Missing)
      case Arr(elems) =>
        if key == "length" then Ok(Num(|elems| as real))
        else match Strings.ParseIndex(key)
          case Some(i) => if i < |elems| then Ok(elems[i]) else Err(Missing)
          case None => Err(Missing)
  }

  /** The `reduce` over the path segments, from the root. */
  function Descend(x: Value, segments: seq<string>): Result<Value, Stuck>
    decreases |segments|
  {
    if segments == [] then Ok(x)
    else match Member(x, segments[0])
      case Err(e) => Err(e)
      case Ok(y) => Descend(y, segments[1..])
  }

  /** `accessKey(x, path)`: the value at the end of the dotted path. */
  function AccessKey(x: Value, path: string): (r: Result<Value, string>)
    ensures !Nested(x) ==> r == Err("Given input is not a object.")
    ensures Nested(x) && Descend(x, Split(path)).Ok? ==> r == Ok(Descend(x, Split(path)).value)
    ensures Nested(x) && Descend(x, Split(path)) == Err(Missing) ==>
      r == Err("Given object does not have the path: " + path)
    ensures Nested(x) && Descend(x, Split(path)).Err? && Descend(x, Split(path)).error.InOnNull? ==>
      r == Err("Cannot use 'in' operator to search for '" + Descend(x, Split(path)).error.segment + "' in null")
    ensures r.Ok? <==> Nested(x) && Descend(x, Split(path)).Ok?
  {
    if !Truthy(x) || TypeOf(x) != "object" then Err("Given input is not a object.")
    else match Descend(x, Split(path))
      case Ok(y) => Ok(y)
      case Err(Missing) => Err("Given object does not have the path: " + path)
      case Err(InOnNull(key)) => Err("Cannot use 'in' operator to search for '" + key + "' in null")
  }

  /** Descending along two lists of segments is descending along the first,
      then from where it ends along the second. */
  lemma {:induction false} DescendAppend(x: Value, s1: seq<string>, s2: seq<string>)
    decreases |s1|
    ensures Descend(x, s1 + s2) == match Descend(x, s1)
      case Err(e) => Err(e)
      case Ok(y) => Descend(y, s2)
  {
    if s1 == [] {
      assert s1 + s2 == s2;
    } else {
      assert (s1 + s2)[0] == s1[0] && (s1 + s2)[1..] == s1[1..] + s2;
      match Member(x, s1[0])
      case Err(e) =>
        assert Descend(x, s1) == Err(e);
        assert Descend(x, s1 + s2) == Err(e);
      case Ok(y) =>
        DescendAppend(y, s1[1..], s2);
        assert Descend(x, s1) == Descend(y, s1[1..]);
        assert Descend(x, s1 + s2) == Descend(y, s1[1..] + s2);
    }
  }

  /** A one-segment path on an object is a property lookup: the key's
      value when present, the missing-path error otherwise. */
  lemma AccessKeyOneSegment(fields: seq<(string, Value)>, key: string)
    requires '.' !in key
    ensures Has(fields, key) ==> AccessKey(Obj(fields), key) == Ok(Get(fields, key))
    ensures !Has(fields, key) ==> AccessKey(Obj(fields), key) == Err("Given object does not have the path: " + key)
  {
    SplitDotFree(key);
    var m := Member(Obj(fields), key);
    assert Descend(Obj(fields), [key]) == match m case Err(e) => Err(e) case Ok(y) => Descend(y, []);
  }

  /** A path that passes through a `null` field and goes on is stopped by
      the TypeError of `in` on `null`, naming the next segment, not by the
      missing-path error. */
  lemma AccessKeyThroughNull(fields: seq<(string, Value)>, key: string, next: string)
    requires '.' !in key && '.' !in next
    requires Has(fields, key) && Get(fields, key) == Null
    ensures AccessKey(Obj(fields), key + "." + next) ==
      Err("Cannot use 'in' operator to search for '" + next + "' in null")
  {
    SplitAtDot(key, next);
    SplitDotFree(key);
    SplitDotFree(next);
    assert Split(key + "." + next) == [key, next];
    var x := Obj(fields);
    assert Member(x, key) == Ok(Null);
    assert Descend(Null, [next]) == Err(InOnNull(next));
    assert Descend(x, [key, next]) == Descend(Null, [key, next][1..]);
  }

  /** `accessKey` descends one segment at a time: `a.b` resolves exactly
      when `a` resolves to an array or object in which `b` resolves, and
      then to the same value. */
  lemma AccessKeyDescends(x: Value, a: string, b: string)
    ensures AccessKey(x, a + "." + b).Ok? ==>
      && AccessKey(x, a).Ok? && Nested(AccessKey(x, a).value)
      && AccessKey(x, a + "." + b) == AccessKey(AccessKey(x, a).value, b)
    ensures AccessKey(x, a).Ok? && AccessKey(AccessKey(x, a).value, b).Ok? ==>
      AccessKey(x, a + "." + b) == AccessKey(AccessKey(x, a).value, b)
  {
    if Nested(x) {
      SplitAtDot(a, b);
      DescendAppend(x, Split(a), Split(b));
      match Descend(x, Split(a))
      case Err(_) =>
      case Ok(y) =>
        var parts := Split(b);
        assert Descend(y, parts) == match Member(y, parts[0]) case Err(e) => Err(e) case Ok(z) => Descend(z, parts[1..]);
    }
  }
}

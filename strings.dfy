/** Template substitution of src/utils/strings.ts, with the decimal
    rendering of indices it needs for its `{i}` placeholders. */
module Strings {
  import opened Wrappers

  predicate IsDigit(c: char) {
    '0' <= c <= '9'
  }

  function DigitChar(d: nat): (c: char)
    requires d < 10
    ensures IsDigit(c) && c as int - '0' as int == d
  {
    ('0' as int + d) as char
  }

  /** `n.toString()` for a natural number. */
  function NatText(n: nat): (s: string)
    ensures |s| > 0
    ensures forall i :: 0 <= i < |s| ==> IsDigit(s[i])
    ensures s[0] == '0' <==> n == 0
  {
    if n < 10 then [DigitChar(n)] else NatText(n / 10) + [DigitChar(n % 10)]
  }

  /** The number a string of decimal digits denotes. */
  function DigitsValue(s: string): nat
    requires forall i :: 0 <= i < |s| ==> IsDigit(s[i])
  {
    if s == [] then 0
    else
      assert IsDigit(s[|s| - 1]);
      DigitsValue(s[..|s| - 1]) * 10 + (s[|s| - 1] as int - '0' as int)
  }

  /** The canonical form of an array index: digits without a leading zero. */
  predicate IsIndexText(s: string) {
    |s| > 0 && (forall i :: 0 <= i < |s| ==> IsDigit(s[i])) && (|s| == 1 || s[0] != '0')
  }

  /** The array index a property name denotes, if any. */
  function ParseIndex(s: string): Option<nat> {
    if IsIndexText(s) then Some(DigitsValue(s)) else None
  }

  /** Rendering an index and reading it back gives the index. */
  lemma {:induction false} ParseIndexNatText(n: nat)
    ensures ParseIndex(NatText(n)) == Some(n)
  {
    var s := NatText(n);
    assert IsIndexText(s);
    if n < 10 {
      assert s[..|s| - 1] == [];
      assert DigitsValue(s) == DigitsValue([]) * 10 + n;
    } else {
      ParseIndexNatText(n / 10);
      assert s[..|s| - 1] == NatText(n / 10);
      assert DigitsValue(s) == DigitsValue(NatText(n / 10)) * 10 + n % 10;
    }
  }

  lemma NatTextInjective(m: nat, n: nat)
    requires NatText(m) == NatText(n)
    ensures m == n
  {
    ParseIndexNatText(m);
    ParseIndexNatText(n);
  }

  /** The placeholder `{i}` that `replace` substitutes with value number i. */
  function Placeholder(i: nat): string {
    "{" + NatText(i) + "}"
  }

  /** `p` occurs in `s` at position k. */
  predicate OccursAt(p: string, s: string, k: nat) {
    k + |p| <= |s| && s[k..k + |p|] == p
  }

  predicate Occurs(p: string, s: string) {
    exists k: nat | k <= |s| :: OccursAt(p, s, k)
  }

  /** The text `String.prototype.replace` puts in place of one match when
      the replacement is the string `r`: `$$` stands for `$`, `$&` for the
      match, `` $` `` for the text before it and `$'` for the text after it.
      The pattern has no capture groups, so every other `$` (`$1`, `$<`, a
      final `$`) stands for itself. */
  function Substitution(r: string, matched: string, before: string, after: string): (t: string)
    ensures '$' !in r ==> t == r
    decreases |r|
  {
    if r == [] then []
    else if r[0] == '$' && |r| > 1 && r[1] == '$' then "$" + Substitution(r[2..], matched, before, after)
    else if r[0] == '$' && |r| > 1 && r[1] == '&' then matched + Substitution(r[2..], matched, before, after)
    else if r[0] == '$' && |r| > 1 && r[1] == '`' then before + Substitution(r[2..], matched, before, after)
    else if r[0] == '$' && |r| > 1 && r[1] == '\'' then after + Substitution(r[2..], matched, before, after)
    else [r[0]] + Substitution(r[1..], matched, before, after)
  }

  /** The global replace of `p` from position k of `s` on: scanning from the
      left, every non-overlapping occurrence gives way to the substitution of
      `r` for it, which sees the whole of `s`. */
  function ReplaceAllFrom(s: string, p: string, r: string, k: nat): string
    requires |p| > 0 && k <= |s|
    decreases |s| - k
  {
    if |s| - k < |p| then s[k..]
    else if OccursAt(p, s, k) then Substitution(r, p, s[..k], s[k + |p|..]) + ReplaceAllFrom(s, p, r, k + |p|)
    else [s[k]] + ReplaceAllFrom(s, p, r, k + 1)
  }

  /** `s.replace(new RegExp(p, "g"), r)` for a literal pattern `p`. */
  function ReplaceAll(s: string, p: string, r: string): string
    requires |p| > 0
  {
    ReplaceAllFrom(s, p, r, 0)
  }

  /** The same scan putting `r` itself in place of every occurrence, which is
      what the global replace does when `r` holds no `$`. */
  function ReplaceVerbatim(s: string, p: string, r: string): string
    requires |p| > 0
    decreases |s|
  {
    if |s| < |p| then s
    else if s[..|p|] == p then r + ReplaceVerbatim(s[|p|..], p, r)
    else [s[0]] + ReplaceVerbatim(s[1..], p, r)
  }

  /** The first `n` steps of the `reduce` in `replace`. */
  function ReplaceUpTo(template: string, values: seq<string>, n: nat): string
    requires n <= |values|
  {
    if n == 0 then template
    else ReplaceAll(ReplaceUpTo(template, values, n - 1), Placeholder(n - 1), values[n - 1])
  }

  /** `replace(template, values)`: for i = 0, 1, ... in turn, replace every
      `{i}` in the text so far by the i-th value (already rendered). */
  function Replace(template: string, values: seq<string>): string {
    ReplaceUpTo(template, values, |values|)
  }

  /** `parts.join(sep)`. */
  function Join(parts: seq<string>, sep: string): string {
    if parts == [] then ""
    else if |parts| == 1 then parts[0]
    else parts[0] + sep + Join(parts[1..], sep)
  }

  lemma OccursTail(p: string, s: string)
    requires |s| > 0 && Occurs(p, s[1..])
    ensures Occurs(p, s)
  {
    var k: nat :| k <= |s[1..]| && OccursAt(p, s[1..], k);
    assert k + |p| <= |s| - 1;
    assert s[1..][k..k + |p|] == s[k + 1..k + 1 + |p|];
    assert OccursAt(p, s, k + 1);
  }

  /** From a position after which the pattern does not occur, the scan
      copies the rest of the text. */
  lemma {:induction false} ReplaceAllFromAbsent(s: string, p: string, r: string, k: nat)
    requires |p| > 0 && k <= |s|
    requires forall j: nat :: k <= j <= |s| ==> !OccursAt(p, s, j)
    ensures ReplaceAllFrom(s, p, r, k) == s[k..]
    decreases |s| - k
  {
    if |s| - k >= |p| {
      ReplaceAllFromAbsent(s, p, r, k + 1);
      assert s[k..] == [s[k]] + s[k + 1..];
    }
  }

  /** Text without the pattern comes back unchanged. */
  lemma ReplaceAllAbsent(s: string, p: string, r: string)
    requires |p| > 0 && !Occurs(p, s)
    ensures ReplaceAll(s, p, r) == s
  {
    ReplaceAllFromAbsent(s, p, r, 0);
    assert s[0..] == s;
  }

  lemma {:induction false} ReplaceAllFromVerbatim(s: string, p: string, r: string, k: nat)
    requires |p| > 0 && k <= |s| && '$' !in r
    ensures ReplaceAllFrom(s, p, r, k) == ReplaceVerbatim(s[k..], p, r)
    decreases |s| - k
  {
    if |s| - k < |p| {
      VerbatimEndAt(s, p, r, k);
    } else if OccursAt(p, s, k) {
      ReplaceAllFromVerbatim(s, p, r, k + |p|);
      VerbatimMatchAt(s, p, r, k);
    } else {
      ReplaceAllFromVerbatim(s, p, r, k + 1);
      VerbatimSkipAt(s, p, r, k);
    }
  }

  /** ReplaceAllFromVerbatim near the end of the text. */
  lemma VerbatimEndAt(s: string, p: string, r: string, k: nat)
    requires |p| > 0 && k <= |s| && |s| - k < |p|
    ensures ReplaceAllFrom(s, p, r, k) == ReplaceVerbatim(s[k..], p, r)
  {
  }

  /** ReplaceAllFromVerbatim past an occurrence of `p` at k. */
  lemma VerbatimMatchAt(s: string, p: string, r: string, k: nat)
    requires |p| > 0 && OccursAt(p, s, k) && '$' !in r
    requires ReplaceAllFrom(s, p, r, k + |p|) == ReplaceVerbatim(s[k + |p|..], p, r)
    ensures ReplaceAllFrom(s, p, r, k) == ReplaceVerbatim(s[k..], p, r)
  {
    var t := s[k..];
    assert t[..|p|] == s[k..k + |p|];
    assert t[|p|..] == s[k + |p|..];
    assert ReplaceVerbatim(t, p, r) == r + ReplaceVerbatim(s[k + |p|..], p, r);
  }

  /** ReplaceAllFromVerbatim past a character where `p` does not occur. */
  lemma VerbatimSkipAt(s: string, p: string, r: string, k: nat)
    requires |p| > 0 && k + |p| <= |s| && !OccursAt(p, s, k)
    requires ReplaceAllFrom(s, p, r, k + 1) == ReplaceVerbatim(s[k + 1..], p, r)
    ensures ReplaceAllFrom(s, p, r, k) == ReplaceVerbatim(s[k..], p, r)
  {
    var t := s[k..];
    assert t[..|p|] == s[k..k + |p|];
    assert t[0] == s[k] && t[1..] == s[k + 1..];
    assert ReplaceVerbatim(t, p, r) == [s[k]] + ReplaceVerbatim(s[k + 1..], p, r);
  }

  /** A replacement without `$` is put verbatim in place of every occurrence. */
  lemma ReplaceAllVerbatim(s: string, p: string, r: string)
    requires |p| > 0 && '$' !in r
    ensures ReplaceAll(s, p, r) == ReplaceVerbatim(s, p, r)
  {
    ReplaceAllFromVerbatim(s, p, r, 0);
    assert s[0..] == s;
  }

  /** No occurrence starts inside `a` when `a` holds none and what follows
      starts with the pattern, whose first character does not recur in it. */
  lemma NoMatchBefore(a: string, t: string, p: string)
    requires |a| > 0 && |p| > 0 && p[0] !in p[1..]
    requires !Occurs(p, a)
    requires t == [] || (|t| >= |p| && t[..|p|] == p)
    requires |a + t| >= |p|
    ensures (a + t)[..|p|] != p
  {
    var s := a + t;
    if |p| <= |a| {
      assert s[..|p|] == a[0..|p|];
      assert !OccursAt(p, a, 0);
    } else {
      assert t != [] && s[|a|] == t[0] == p[0];
      assert p[|a|] == p[1..][|a| - 1] != p[0];
    }
  }

  /** The scan passes over text without the pattern up to the next
      occurrence, provided the pattern's first character does not recur in
      it (so that no occurrence can straddle the boundary). */
  lemma {:induction false} VerbatimSkip(a: string, t: string, p: string, r: string)
    requires |p| > 0 && p[0] !in p[1..]
    requires !Occurs(p, a)
    requires t == [] || (|t| >= |p| && t[..|p|] == p)
    ensures ReplaceVerbatim(a + t, p, r) == a + ReplaceVerbatim(t, p, r)
    decreases |a|
  {
    if a == [] {
      assert a + t == t;
    } else if |a + t| < |p| {
      assert t == [] && a + t == a;
    } else {
      var s := a + t;
      NoMatchBefore(a, t, p);
      if Occurs(p, a[1..]) { OccursTail(p, a); }
      assert s[1..] == a[1..] + t;
      VerbatimSkip(a[1..], t, p, r);
      assert ReplaceVerbatim(s, p, r) == [s[0]] + ReplaceVerbatim(a[1..] + t, p, r);
      assert a == [a[0]] + a[1..];
    }
  }

  /** Every occurrence of the pattern is replaced: text made of pieces
      without the pattern, joined by it, becomes the same pieces joined by
      the replacement, when that holds no `$`. */
  lemma {:induction false} ReplaceAllJoin(parts: seq<string>, p: string, r: string)
    requires |parts| > 0
    requires |p| > 0 && p[0] !in p[1..] && '$' !in r
    requires forall i :: 0 <= i < |parts| ==> !Occurs(p, parts[i])
    ensures ReplaceAll(Join(parts, p), p, r) == Join(parts, r)
  {
    if |parts| == 1 {
      ReplaceAllAbsent(parts[0], p, r);
    } else {
      var rest := Join(parts[1..], p);
      assert Join(parts, p) == parts[0] + (p + rest);
      ReplaceAllVerbatim(Join(parts, p), p, r);
      VerbatimSkip(parts[0], p + rest, p, r);
      assert (p + rest)[..|p|] == p;
      assert (p + rest)[|p|..] == rest;
      ReplaceAllVerbatim(rest, p, r);
      ReplaceAllJoin(parts[1..], p, r);
    }
  }

  lemma PlaceholderShape(i: nat)
    ensures |Placeholder(i)| == |NatText(i)| + 2
    ensures Placeholder(i)[0] == '{' && Placeholder(i)[|Placeholder(i)| - 1] == '}'
    ensures forall j :: 0 < j < |Placeholder(i)| ==> Placeholder(i)[j] != '{'
    ensures forall j :: 0 <= j < |Placeholder(i)| - 1 ==> Placeholder(i)[j] != '}'
    ensures '$' !in Placeholder(i)
  {
    var s := Placeholder(i);
    forall j | 0 < j < |s| - 1 ensures s[j] == NatText(i)[j - 1] {}
  }

  /** One step of `replace`: if the text so far is pieces without `{n}`
      joined by `{n}`, the step puts value n, when it holds no `$`, in every
      one of those places. */
  lemma ReplaceStep(template: string, values: seq<string>, n: nat, parts: seq<string>)
    requires n < |values| && |parts| > 0 && '$' !in values[n]
    requires ReplaceUpTo(template, values, n) == Join(parts, Placeholder(n))
    requires forall i :: 0 <= i < |parts| ==> !Occurs(Placeholder(n), parts[i])
    ensures ReplaceUpTo(template, values, n + 1) == Join(parts, values[n])
  {
    PlaceholderShape(n);
    var p := Placeholder(n);
    assert p[0] !in p[1..] by {
      forall j | 0 <= j < |p[1..]| ensures p[1..][j] != p[0] { assert p[1..][j] == p[j + 1]; }
    }
    ReplaceAllJoin(parts, p, values[n]);
  }

  /** Steps `n0` to `n` of `replace` change nothing when the text after step
      `n0` holds none of their placeholders. */
  lemma {:induction false} ReplaceFrom(template: string, values: seq<string>, n0: nat, n: nat)
    requires n0 <= n <= |values|
    requires forall m :: n0 <= m < n ==> !Occurs(Placeholder(m), ReplaceUpTo(template, values, n0))
    ensures ReplaceUpTo(template, values, n) == ReplaceUpTo(template, values, n0)
    decreases n
  {
    if n > n0 {
      ReplaceFrom(template, values, n0, n - 1);
      ReplaceAllAbsent(ReplaceUpTo(template, values, n0), Placeholder(n - 1), values[n - 1]);
    }
  }

  /** Text holding no `{i}` for any i below the number of values comes back
      unchanged; in particular so does any text when there are no values. */
  lemma ReplaceUnchanged(template: string, values: seq<string>, n: nat)
    requires n <= |values|
    requires forall i :: 0 <= i < n ==> !Occurs(Placeholder(i), template)
    ensures ReplaceUpTo(template, values, n) == template
  {
    ReplaceFrom(template, values, 0, n);
  }

  /** `{i}` does not occur inside `{k}` for i != k. */
  lemma PlaceholderDistinct(i: nat, k: nat)
    requires i != k
    ensures !Occurs(Placeholder(i), Placeholder(k))
  {
    if Occurs(Placeholder(i), Placeholder(k)) {
      var pi, pk := Placeholder(i), Placeholder(k);
      var j: nat :| j <= |pk| && OccursAt(pi, pk, j);
      PlaceholderShape(i);
      PlaceholderShape(k);
      assert j + |pi| <= |pk| && pk[j..j + |pi|] == pi;
      assert pk[j] == pk[j..j + |pi|][0] == pi[0] == '{';
      assert j == 0;
      assert pk[|pi| - 1] == pk[0..|pi|][|pi| - 1] == pi[|pi| - 1] == '}';
      assert |pi| == |pk|;
      assert pi == pk;
      assert NatText(i) == pi[1..|pi| - 1] == pk[1..|pk| - 1] == NatText(k);
      NatTextInjective(i, k);
    }
  }

  /** A lone placeholder with no value of its own is left in place. */
  lemma ReplaceLeavesLonePlaceholder(k: nat, values: seq<string>)
    requires k >= |values|
    ensures Replace(Placeholder(k), values) == Placeholder(k)
  {
    forall i | 0 <= i < |values| ensures !Occurs(Placeholder(i), Placeholder(k)) {
      PlaceholderDistinct(i, k);
    }
    ReplaceUnchanged(Placeholder(k), values, |values|);
  }

  /** No occurrence of `p` in `a + t` starts in `a` and ends in `t`. */
  predicate NoStraddle(p: string, a: string, t: string) {
    forall m: nat :: m < |a| < m + |p| ==> !OccursAt(p, a + t, m)
  }

  /** An occurrence in a suffix is an occurrence in the whole text. */
  lemma OccursAtShift(p: string, s: string, d: nat, m: nat)
    requires d <= |s|
    ensures OccursAt(p, s[d..], m) <==> OccursAt(p, s, d + m)
  {
    if d + m + |p| <= |s| {
      assert s[d..][m..m + |p|] == s[d + m..d + m + |p|];
    }
  }

  /** Dropping the first `d` characters of `a` keeps the boundary clean. */
  lemma NoStraddleDrop(p: string, a: string, t: string, d: nat)
    requires d <= |a| && NoStraddle(p, a, t)
    ensures NoStraddle(p, a[d..], t)
  {
    assert (a + t)[d..] == a[d..] + t;
    forall m: nat | m < |a[d..]| < m + |p| ensures !OccursAt(p, a[d..] + t, m) {
      OccursAtShift(p, a + t, d, m);
    }
  }

  /** VerbatimSplit when `a` starts with a match of `p`. */
  lemma VerbatimMatchStep(a: string, t: string, p: string, r: string)
    requires 0 < |p| <= |a| && a[..|p|] == p
    requires ReplaceVerbatim(a[|p|..] + t, p, r) == ReplaceVerbatim(a[|p|..], p, r) + ReplaceVerbatim(t, p, r)
    ensures ReplaceVerbatim(a + t, p, r) == ReplaceVerbatim(a, p, r) + ReplaceVerbatim(t, p, r)
  {
    var s := a + t;
    assert s[..|p|] == p && s[|p|..] == a[|p|..] + t;
    assert ReplaceVerbatim(s, p, r) == r + ReplaceVerbatim(a[|p|..] + t, p, r);
  }

  /** VerbatimSplit when `a + t` does not start with a match of `p`. */
  lemma VerbatimSkipStep(a: string, t: string, p: string, r: string)
    requires |p| > 0 && |a| > 0 && |a + t| >= |p| && (a + t)[..|p|] != p
    requires ReplaceVerbatim(a[1..] + t, p, r) == ReplaceVerbatim(a[1..], p, r) + ReplaceVerbatim(t, p, r)
    ensures ReplaceVerbatim(a + t, p, r) == ReplaceVerbatim(a, p, r) + ReplaceVerbatim(t, p, r)
  {
    var s := a + t;
    assert s[0] == a[0] && s[1..] == a[1..] + t;
    assert ReplaceVerbatim(s, p, r) == [a[0]] + ReplaceVerbatim(a[1..] + t, p, r);
    if |a| >= |p| {
      assert a[..|p|] == s[..|p|];
    } else {
      assert ReplaceVerbatim(a, p, r) == a == [a[0]] + a[1..];
      assert ReplaceVerbatim(a[1..], p, r) == a[1..];
    }
  }

  /** The verbatim scan works on `a` and `t` apart when no occurrence of `p`
      straddles their boundary. */
  lemma {:induction false} VerbatimSplit(a: string, t: string, p: string, r: string)
    requires |p| > 0 && NoStraddle(p, a, t)
    ensures ReplaceVerbatim(a + t, p, r) == ReplaceVerbatim(a, p, r) + ReplaceVerbatim(t, p, r)
    decreases |a|
  {
    var s := a + t;
    if a == [] {
      assert s == t;
    } else if |s| < |p| {
      assert ReplaceVerbatim(a, p, r) == a && ReplaceVerbatim(t, p, r) == t;
    } else if s[..|p|] == p {
      assert |p| <= |a| by {
        assert s[0..0 + |p|] == s[..|p|];
        assert OccursAt(p, s, 0);
      }
      assert a[..|p|] == s[..|p|];
      NoStraddleDrop(p, a, t, |p|);
      VerbatimSplit(a[|p|..], t, p, r);
      VerbatimMatchStep(a, t, p, r);
    } else {
      NoStraddleDrop(p, a, t, 1);
      VerbatimSplit(a[1..], t, p, r);
      VerbatimSkipStep(a, t, p, r);
    }
  }

  /** Replacing all of `p` in `a + t` works on the two parts apart when no
      occurrence of `p` straddles their boundary and the replacement holds
      no `$`. */
  lemma ReplaceAllSplit(a: string, t: string, p: string, r: string)
    requires |p| > 0 && '$' !in r && NoStraddle(p, a, t)
    ensures ReplaceAll(a + t, p, r) == ReplaceAll(a, p, r) + ReplaceAll(t, p, r)
  {
    VerbatimSplit(a, t, p, r);
    ReplaceAllVerbatim(a + t, p, r);
    ReplaceAllVerbatim(a, p, r);
    ReplaceAllVerbatim(t, p, r);
  }

  /** `b` is a suffix of `a`. */
  predicate EndsWith(a: string, b: string) {
    |b| <= |a| && a[|a| - |b|..] == b
  }

  /** A character inside an occurrence of `p`, past its first, is one of
      `p`'s later characters. */
  lemma InsideMatch(s: string, p: string, k: nat, q: nat)
    requires OccursAt(p, s, k) && k < q < |s|
    ensures q < k + |p| ==> s[q] in p[1..]
  {
    if q < k + |p| {
      assert s[q] == s[k..k + |p|][q - k] == p[q - k] == p[1..][q - k - 1];
    }
  }

  /** Text put in front keeps a suffix a suffix. */
  lemma EndsWithPrepend(x: string, b: string, c: string)
    requires EndsWith(b, c)
    ensures EndsWith(x + b, c)
  {
    assert (x + b)[|x + b| - |c|..] == b[|b| - |c|..];
  }

  /** ScanReaches when an occurrence of `p` starts at k. */
  lemma ScanMatchStep(s: string, p: string, r: string, k: nat, q: nat)
    requires |p| > 0 && OccursAt(p, s, k) && k + |p| <= q <= |s|
    requires EndsWith(ReplaceAllFrom(s, p, r, k + |p|), ReplaceAllFrom(s, p, r, q))
    ensures EndsWith(ReplaceAllFrom(s, p, r, k), ReplaceAllFrom(s, p, r, q))
  {
    var x := Substitution(r, p, s[..k], s[k + |p|..]);
    assert ReplaceAllFrom(s, p, r, k) == x + ReplaceAllFrom(s, p, r, k + |p|);
    EndsWithPrepend(x, ReplaceAllFrom(s, p, r, k + |p|), ReplaceAllFrom(s, p, r, q));
  }

  /** ScanReaches when no occurrence of `p` starts at k. */
  lemma ScanSkipStep(s: string, p: string, r: string, k: nat, q: nat)
    requires |p| > 0 && k + |p| <= |s| && !OccursAt(p, s, k) && k < q <= |s|
    requires EndsWith(ReplaceAllFrom(s, p, r, k + 1), ReplaceAllFrom(s, p, r, q))
    ensures EndsWith(ReplaceAllFrom(s, p, r, k), ReplaceAllFrom(s, p, r, q))
  {
    assert ReplaceAllFrom(s, p, r, k) == [s[k]] + ReplaceAllFrom(s, p, r, k + 1);
    EndsWithPrepend([s[k]], ReplaceAllFrom(s, p, r, k + 1), ReplaceAllFrom(s, p, r, q));
  }

  /** The scan from k stops at q, and so ends with the scan from q, when
      the character at q cannot lie inside an occurrence of `p`. */
  lemma {:induction false} ScanReaches(s: string, p: string, r: string, k: nat, q: nat)
    requires |p| > 0 && k <= q <= |s|
    requires q == |s| || s[q] !in p[1..]
    ensures EndsWith(ReplaceAllFrom(s, p, r, k), ReplaceAllFrom(s, p, r, q))
    decreases q - k
  {
    if k == q {
      assert ReplaceAllFrom(s, p, r, k)[0..] == ReplaceAllFrom(s, p, r, k);
    } else if |s| - k < |p| {
      assert ReplaceAllFrom(s, p, r, q) == s[q..];
      assert s[k..][q - k..] == s[q..];
    } else if OccursAt(p, s, k) {
      if q < |s| {
        InsideMatch(s, p, k, q);
      }
      ScanReaches(s, p, r, k + |p|, q);
      ScanMatchStep(s, p, r, k, q);
    } else {
      ScanReaches(s, p, r, k + 1, q);
      ScanSkipStep(s, p, r, k, q);
    }
  }

  /** Where no occurrence of `p` starts, the scan copies one character. */
  lemma CopyStep(s: string, p: string, r: string, k: nat)
    requires |p| > 0 && k < |s| && !OccursAt(p, s, k)
    ensures ReplaceAllFrom(s, p, r, k) == [s[k]] + ReplaceAllFrom(s, p, r, k + 1)
  {
    if |s| - k < |p| {
      assert s[k..] == [s[k]] + s[k + 1..];
    }
  }

  /** No occurrence of `p` starts at a character other than `p`'s first. */
  lemma NoMatchAt(s: string, p: string, k: nat)
    requires |p| > 0 && k < |s| && s[k] != p[0]
    ensures !OccursAt(p, s, k)
  {
    if k + |p| <= |s| {
      assert s[k..k + |p|][0] == s[k];
    }
  }

  /** The scan copies a stretch of text holding no first character of `p`. */
  lemma {:induction false} CopyRun(s: string, p: string, r: string, k: nat, n: nat)
    requires |p| > 0 && k + n <= |s|
    requires forall m :: k <= m < k + n ==> s[m] != p[0]
    ensures ReplaceAllFrom(s, p, r, k) == s[k..k + n] + ReplaceAllFrom(s, p, r, k + n)
    decreases n
  {
    if n == 0 {
      assert s[k..k + n] == [];
    } else {
      NoMatchAt(s, p, k);
      CopyStep(s, p, r, k);
      CopyRun(s, p, r, k + 1, n - 1);
      SliceCons(s, k, n);
      ConsGlue(ReplaceAllFrom(s, p, r, k), s[k], ReplaceAllFrom(s, p, r, k + 1),
        s[k + 1..k + n], ReplaceAllFrom(s, p, r, k + n), s[k..k + n]);
    }
  }

  lemma SliceCons(s: string, k: nat, n: nat)
    requires 0 < n && k + n <= |s|
    ensures s[k..k + n] == [s[k]] + s[k + 1..k + n]
  {
  }

  /** Chains the equations a scan step gives. */
  lemma ConsGlue(x: string, c: char, b: string, m: string, f: string, w: string)
    requires x == [c] + b && b == m + f && w == [c] + m
    ensures x == w + f
  {
    assert [c] + (m + f) == ([c] + m) + f;
  }

  /** Two occurrences starting at the same place: one text is a prefix of the
      other. */
  lemma SharedStart(s: string, p: string, q: string, j: nat)
    requires OccursAt(q, s, j)
    ensures OccursAt(p, s, j) ==> OccursAt(p, q, 0) || OccursAt(q, p, 0)
  {
    if OccursAt(p, s, j) {
      if |p| <= |q| {
        assert q[0..|p|] == s[j..j + |p|];
      } else {
        assert p[0..|q|] == s[j..j + |q|];
      }
    }
  }

  /** At an occurrence of `{k}`, no `{i}` starts, and the rest of the `{k}`
      holds no `{`. */
  lemma PlaceholderClear(s: string, i: nat, k: nat, j: nat)
    requires i != k && OccursAt(Placeholder(k), s, j)
    ensures !OccursAt(Placeholder(i), s, j)
    ensures forall m :: j < m < j + |Placeholder(k)| ==> s[m] != Placeholder(i)[0]
  {
    var p, q := Placeholder(i), Placeholder(k);
    PlaceholderShape(i);
    PlaceholderShape(k);
    SharedStart(s, p, q, j);
    PlaceholderDistinct(i, k);
    PlaceholderDistinct(k, i);
    forall m | j < m < j + |q| ensures s[m] != p[0] {
      assert s[m] == s[j..j + |q|][m - j];
    }
  }

  /** Replacing `{i}` keeps every occurrence of another placeholder `{k}`,
      whatever the replacement. */
  lemma ReplaceAllKeeps(s: string, i: nat, k: nat, r: string)
    requires i != k && Occurs(Placeholder(k), s)
    ensures Occurs(Placeholder(k), ReplaceAll(s, Placeholder(i), r))
  {
    var p, q := Placeholder(i), Placeholder(k);
    var j: nat :| j <= |s| && OccursAt(q, s, j);
    PlaceholderStart(s, i, k, j);
    ScanReaches(s, p, r, 0, j);
    PlaceholderClear(s, i, k, j);
    ScanCopies(s, p, q, r, j);
    OccursInSuffix(ReplaceAll(s, p, r), q, ReplaceAllFrom(s, p, r, j + |q|));
  }

  /** An occurrence of `{k}` starts with a character that no `{i}` has past
      its first. */
  lemma PlaceholderStart(s: string, i: nat, k: nat, j: nat)
    requires OccursAt(Placeholder(k), s, j)
    ensures j < |s| && s[j] !in Placeholder(i)[1..]
  {
    var p, q := Placeholder(i), Placeholder(k);
    PlaceholderShape(i);
    PlaceholderShape(k);
    assert s[j] == s[j..j + |q|][0] == '{';
    forall t | 0 <= t < |p| - 1 ensures p[1..][t] != '{' { assert p[1..][t] == p[t + 1]; }
  }

  /** The scan copies an occurrence of `q` it reaches when no occurrence of
      `p` starts within it. */
  lemma ScanCopies(s: string, p: string, q: string, r: string, j: nat)
    requires |p| > 0 && |q| > 0 && OccursAt(q, s, j) && !OccursAt(p, s, j)
    requires forall m :: j < m < j + |q| ==> s[m] != p[0]
    ensures ReplaceAllFrom(s, p, r, j) == q + ReplaceAllFrom(s, p, r, j + |q|)
  {
    CopyStep(s, p, r, j);
    CopyRun(s, p, r, j + 1, |q| - 1);
    SliceCons(s, j, |q|);
    assert s[j..j + |q|] == q;
    ConsGlue(ReplaceAllFrom(s, p, r, j), s[j], ReplaceAllFrom(s, p, r, j + 1),
      s[j + 1..j + |q|], ReplaceAllFrom(s, p, r, j + |q|), q);
  }

  /** A text starting a suffix of `x` occurs in `x`. */
  lemma OccursInSuffix(x: string, q: string, z: string)
    requires EndsWith(x, q + z)
    ensures Occurs(q, x)
  {
    var d := |x| - |q + z|;
    assert x[d..] == q + z;
    assert x[d..][..|q|] == q;
    assert x[d..d + |q|] == x[d..][..|q|];
    assert OccursAt(q, x, d);
  }

  /** A placeholder with no value of its own is left in place, wherever it
      stands in the template. */
  lemma {:induction false} ReplaceKeepsUnmatched(template: string, values: seq<string>, k: nat, n: nat)
    requires n <= |values| <= k
    requires Occurs(Placeholder(k), template)
    ensures Occurs(Placeholder(k), ReplaceUpTo(template, values, n))
  {
    if n > 0 {
      ReplaceKeepsUnmatched(template, values, k, n - 1);
      ReplaceAllKeeps(ReplaceUpTo(template, values, n - 1), n - 1, k, values[n - 1]);
    }
  }

  /** A text that is exactly `p` becomes the substitution of `r` for it. */
  lemma ReplaceAllWhole(p: string, r: string)
    requires |p| > 0
    ensures ReplaceAll(p, p, r) == Substitution(r, p, "", "")
  {
    assert p[0..|p|] == p && p[..0] == [] && p[|p|..] == [];
    assert ReplaceAllFrom(p, p, r, |p|) == [];
  }

  /** A step of `replace` turns its own lone placeholder into its value,
      read as a replacement pattern. */
  lemma ReplaceOwnPlaceholder(template: string, values: seq<string>, n: nat)
    requires n < |values| && ReplaceUpTo(template, values, n) == Placeholder(n)
    ensures ReplaceUpTo(template, values, n + 1) == Substitution(values[n], Placeholder(n), "", "")
  {
    ReplaceAllWhole(Placeholder(n), values[n]);
  }

  /** Steps `n0` to `n` of `replace` leave a lone `{k}` alone when k is none
      of them. */
  lemma ReplaceSkipsPlaceholder(template: string, values: seq<string>, k: nat, n0: nat, n: nat)
    requires n0 <= n <= |values| && !(n0 <= k < n)
    requires ReplaceUpTo(template, values, n0) == Placeholder(k)
    ensures ReplaceUpTo(template, values, n) == Placeholder(k)
  {
    forall m | n0 <= m < n ensures !Occurs(Placeholder(m), Placeholder(k)) {
      PlaceholderDistinct(m, k);
    }
    ReplaceFrom(template, values, n0, n);
  }

  /** Substitution works on the text rewritten so far: when value i is the
      placeholder `{j}` of a later value j, `{i}` ends up as what value j
      stands for in place of `{j}` (value j itself when it holds no `$`),
      provided that text holds no placeholder of any value. */
  lemma ReplaceIsSequential(values: seq<string>, i: nat, j: nat)
    requires i < j < |values|
    requires values[i] == Placeholder(j)
    requires forall m :: 0 <= m < |values| ==> !Occurs(Placeholder(m), Substitution(values[j], Placeholder(j), "", ""))
    ensures Replace(Placeholder(i), values) == Substitution(values[j], Placeholder(j), "", "")
    ensures '$' !in values[j] ==> Replace(Placeholder(i), values) == values[j]
  {
    var t := Placeholder(i);
    ReplaceReachesPlaceholder(values, i, j);
    ReplaceOwnPlaceholder(t, values, j);
    ReplaceFrom(t, values, j + 1, |values|);
  }

  /** The first j steps of `replace` turn `{i}` into `{j}` when value i is
      `{j}`, for i < j. */
  lemma ReplaceReachesPlaceholder(values: seq<string>, i: nat, j: nat)
    requires i < j < |values| && values[i] == Placeholder(j)
    ensures ReplaceUpTo(Placeholder(i), values, j) == Placeholder(j)
  {
    var t := Placeholder(i);
    PlaceholderShape(j);
    ReplaceSkipsPlaceholder(t, values, i, 0, i);
    ReplaceOwnPlaceholder(t, values, i);
    ReplaceSkipsPlaceholder(t, values, j, i + 1, j);
  }

  /** A value is a replacement pattern, not plain text: `$$` gives `$` and
      `$&` the placeholder itself. */
  lemma ReplaceDollarForms()
    ensures Replace("{0}", ["a$$b"]) == "a$b"
    ensures Replace("{0}", ["$&"]) == "{0}"
  {
    var p := Placeholder(0);
    assert NatText(0) == "0";
    assert p == "{0}";
    ReplaceAllWhole(p, "a$$b");
    ReplaceAllWhole(p, "$&");
  }

  /** `$'` gives the text after the placeholder and `` $` `` the text before it. */
  lemma ReplaceContextForms()
    ensures Replace("x{0}y", ["$'"]) == "xyy"
    ensures Replace("x{0}y", ["$`"]) == "xxy"
  {
    var p := Placeholder(0);
    assert NatText(0) == "0";
    assert p == "{0}";
    var s := "x{0}y";
    assert !OccursAt(p, s, 0) by { assert s[0..3][0] == 'x'; }
    assert OccursAt(p, s, 1) by { assert s[1..4] == p; }
    assert s[..1] == "x" && s[4..] == "y";
  }
}

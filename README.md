# Verifier, modelled in Dafny

This project models the core of Verifier, a TypeScript validation library.
A validator for a value is built by chaining immutable builders: each
builder returns a new verifier with one more option set. The library has
five kinds of verifier: string, number, boolean, array and object. Array
and object verifiers hold item verifiers, so verifiers nest into a tree.

Each verifier class hands an ordered list of check functions to
`BaseVerifier`. `verify(input)` runs those checks through one pipeline:

- A check answers Success, Error or Fail.
- The messages of every Error accumulate.
- A Fail adds its messages and stops the pipeline.
- The result is Success when nothing accumulated, and otherwise an Error
  carrying the messages.

`verifyFailOnError(input)` throws at the first check that does not pass.

Messages come from language catalogs (`en`, `tr`). `langCheck` makes sure
all catalogs have the same leaf keys. Catalog strings are filled in by
`replace`, which substitutes `{0}`, `{1}`, ... one after another, each
value read as a replacement pattern of `String.prototype.replace` (`$$`,
`$&`, `` $` `` and `$'` expand), and are
looked up with `accessKey` along a dotted path. `keyNames` lists the leaf
keys of a catalog.

How each module maps to the source:

- `Values` holds the input values and the type predicates (`isString` ...
  `isObject`). An object is modelled as its own enumerable properties in
  `Object.keys` order. A number is modelled as a real.
- `Outcomes` holds the Success/Error/Fail outcome. A message is modelled
  as a catalog key plus its arguments. `Pipeline` models `verify` and
  `verifyFailOnError` over a list of checks.
- `Schema` holds the options record of each verifier kind and
  `createVerifier`.
- `StringVerifier`, `NumberVerifier`, `BooleanVerifier`, `ArrayVerifier`
  and `ObjectVerifier` hold the builders and check functions of each class.
  `Lengths` holds the length rule that the string and array verifiers
  share.
- `Engine` is the nested `verify` over a whole verifier tree: item
  verifiers run inside the array and object `checkItems`.
  `ItemWalks` holds the loops of those two checks as methods, proved
  against `Engine`.
  `ArrayWalk` and `ObjectWalk` prove what those loops promise.
- `BaseVerifiers` models the `BaseVerifier` class. `Language` models the
  module state of `language.ts` as the class `Languages`. `Strings` and
  `Objects` model the string and object utilities.
- `Properties` proves properties of whole verifiers: the type check comes
  first, and `verify` and `verifyFailOnError` accept the same inputs.

## Model

| member | source | states |
|---|---|---|
| Values.IsObject | src/utils/verify.ts:67-69 | `isObject` holds exactly for plain objects: not null, not an array, not a primitive |
| Values.Keys | src/verifiers/ObjectVerifier.ts:154 | `Object.keys` gives one key per own property, in property order |
| Values.Get | src/verifiers/ObjectVerifier.ts:164 | reading an absent key gives `undefined` |
| Values.Filter | src/verifiers/ObjectVerifier.ts:154-159 | `filter` keeps only elements of the input that satisfy the test, and keeps every element that does |
| Values.FilterAppend | src/verifiers/ObjectVerifier.ts:127-130 | filtering a concatenation filters each part, keeping their order |
| Pipeline.Collect | src/utils/verify.ts:33-35 | `verify` never reports Fail; it reports Success exactly when no message accumulated, otherwise an Error with exactly the accumulated messages |
| Pipeline.Apply | src/utils/verify.ts:20-21 | one outcome per check, in order: outcome i is check i on the input |
| Pipeline.Verify | src/utils/verify.ts:14-36 | the loop's answer is Collect of the checks' outcomes |
| Pipeline.VerifyFailOnError | src/utils/verify.ts:38-49 | the loop throws the messages of the first check that does not pass, and returns normally exactly when every check passes |
| Pipeline.MessagesAppend | src/utils/verify.ts:23-30 | with no Fail among the earlier outcomes, their messages come first and the later checks still contribute theirs |
| Pipeline.CollectStopsAtFail | src/utils/verify.ts:25-28 | a Fail's messages come last; whatever follows the Fail does not change the answer |
| Pipeline.SilentOutcomes | src/utils/verify.ts:23-35 | a Success adds nothing, and neither does an Error without messages, which `verify` overlooks but `verifyFailOnError` throws on |
| Pipeline.FirstFailureReaches | src/utils/verify.ts:42-48 | any outcome that is not Success makes `verifyFailOnError` throw |
| Pipeline.CollectAgreesWithFirstFailure | src/utils/verify.ts:14-49 | when every silent Error is preceded by a Fail, `verify` succeeds iff every check passes iff `verifyFailOnError` returns normally |
| Schema.Fresh | src/utils/verify.ts:87 | a verifier constructed without data has the requested kind |
| Schema.CreateVerifier | src/utils/verify.ts:83-96 | no data gives a fresh verifier; an instance of another class gives "Wrong verifier class."; an instance of the right class is kept; a builder function is applied to a fresh verifier |
| Schema.ResolveItem | src/verifiers/ArrayVerifier.ts:71-76 | an item's verifier data resolves exactly as in `createVerifier`, except that an instance of the wrong class ends in a TypeError (calling it as a builder) |
| Lengths.Rule | src/verifiers/StringVerifier.ts:125-146 | unset options and a zero length pass; a length combined with a bound fails "both"; a misconfigured verdict happens exactly when a bound is set and either a length is set or the bounds are not non-negative integers with max >= min |
| Lengths.MisconfigurationIgnoresInput | src/verifiers/StringVerifier.ts:126-139 | a misconfiguration verdict does not depend on the input's length |
| Lengths.ExactLength | src/verifiers/StringVerifier.ts:127-128 | with only a non-zero length set, the input passes iff its length equals it, otherwise notEqual |
| Lengths.WithinBounds | src/verifiers/StringVerifier.ts:141-144 | with well-formed bounds the input passes iff it lies within them; "more" iff above max; "less" iff below min and not above max |
| StringVerifier.CheckString | src/verifiers/StringVerifier.ts:72-83 | anything but a string stops the pipeline with the `not` message |
| StringVerifier.CheckExpectedString | src/verifiers/StringVerifier.ts:85-103 | an Error exactly when an expected string is set and differs from the input, with both strings as arguments |
| StringVerifier.CheckLengths | src/verifiers/StringVerifier.ts:105-147 | on a string, passes iff the length rule passes and Fails iff the rule finds a misconfiguration; each verdict gives its own message: `notEqual`, `max.more` and `min.less` Errors name the string, its length and the bound, each misconfiguration Fails with its key; on a non-string, an Error without messages |
| StringVerifier.BoundsReported | src/verifiers/StringVerifier.ts:141-146 | with usable bounds and no exact length, a string above `maxLength` gives the `max.more` Error, one below `minLength` the `min.less` Error, one within the bounds passes |
| StringVerifier.CheckRegex | src/verifiers/StringVerifier.ts:149-166 | an Error exactly when a pattern is set and the string does not match it, with the string and the pattern's `toString()` text (`/source/flags`) |
| StringVerifier.Checks | src/verifiers/StringVerifier.ts:19-24 | four checks, the type check first |
| StringVerifier.ZeroLengthIsUnset | src/verifiers/StringVerifier.ts:125 | `setLength(0)` without bounds accepts every string, since `!length` treats 0 as unset |
| StringVerifier.LengthWithBoundFails | src/verifiers/StringVerifier.ts:126 | a length combined with a max or a min length fails "both" in either builder order, whatever the input |
| StringVerifier.ExpectedStringDecides | src/verifiers/StringVerifier.ts:67-103 | after `setExpectedString(e)`, a string passes that check iff it equals e |
| NumberVerifier.SetAllowedSigns | src/verifiers/NumberVerifier.ts:99-105 | all three signs become set, and each sign left out defaults to allowed |
| NumberVerifier.CheckNumber | src/verifiers/NumberVerifier.ts:161-168 | anything but a number stops the pipeline with the `not` message |
| NumberVerifier.CheckIntegerType | src/verifiers/NumberVerifier.ts:237-253 | passes iff the integer-only and safe-integer-only options hold; the integer message takes precedence; at most one message |
| NumberVerifier.CheckExpectedValue | src/verifiers/NumberVerifier.ts:170-186 | an Error exactly when an expected number is set and differs from the input |
| NumberVerifier.CheckAllowedSigns | src/verifiers/NumberVerifier.ts:188-209 | an Error exactly when the input's sign is explicitly disallowed, with the `signs.positive`, `signs.negative` or `signs.zero` message naming the number |
| NumberVerifier.CheckValues | src/verifiers/NumberVerifier.ts:211-233 | Fails exactly when min > max (both set); otherwise passes iff the input lies within the set bounds; below the minimum the `values.min` Error, otherwise above the maximum the `values.max` Error, each naming the number and the bound |
| NumberVerifier.FirstHit | src/verifiers/NumberVerifier.ts:268-296 | the scan finds nothing iff every range is well formed and misses the input; a hit or a broken range comes after well-formed misses only |
| NumberVerifier.CheckRanges | src/verifiers/NumberVerifier.ts:255-299 | no ranges pass; the first excluded range holding the input is reported; passes iff no excluded range holds it and, when allowed ranges exist, one holds it first; a range with start >= end reached in the excluded list, or in the allowed list after the excluded list is cleared, Fails with endLower; no allowed range holding the input is an Error notInAllowed naming the input |
| NumberVerifier.NotDividing | src/verifiers/NumberVerifier.ts:316 | exactly the listed divisors that do not divide the input, in list order (the `filter` of the divisors by "leaves a remainder") |
| NumberVerifier.CheckDividableNumbers | src/verifiers/NumberVerifier.ts:301-321 | a 0 divisor Fails; otherwise passes iff every listed divisor divides the input; the Error names the input and the divisors that leave a remainder, in list order |
| NumberVerifier.Checks | src/verifiers/NumberVerifier.ts:20-33 | seven checks, the type check first |
| NumberVerifier.RangeBuilders | src/verifiers/NumberVerifier.ts:112-149 | `add*Ranges` appends and composes by concatenation, `set*Ranges` overrides earlier adds, and each leaves the other list alone |
| NumberVerifier.FirstHitAppend | src/verifiers/NumberVerifier.ts:285-298 | ranges appended after a hit or a broken range are never inspected |
| NumberVerifier.AddedRangesAfterAHit | src/verifiers/NumberVerifier.ts:112-118 | adding allowed ranges does not change the verdict on an input an earlier allowed range already holds |
| NumberVerifier.SignsDecide | src/verifiers/NumberVerifier.ts:188-209 | after `setAllowedSigns`, an input is rejected iff its sign was passed as false |
| BooleanVerifier.CheckBoolean | src/verifiers/BooleanVerifier.ts:33-45 | anything but a boolean stops the pipeline with the `not` message |
| BooleanVerifier.CheckExpectedBoolean | src/verifiers/BooleanVerifier.ts:47-65 | an Error exactly when an expected boolean is set and differs from the input |
| BooleanVerifier.Checks | src/verifiers/BooleanVerifier.ts:19-21 | two checks, the type check first |
| BooleanVerifier.ExpectedBooleanDecides | src/verifiers/BooleanVerifier.ts:28-65 | after `setExpectedBoolean(e)`, a boolean passes iff it equals e |
| ArrayVerifier.AddItem | src/verifiers/ArrayVerifier.ts:58-79 | appends the resolved item verifier with its options, or reports why resolving failed; nothing else changes |
| ArrayVerifier.CheckArray | src/verifiers/ArrayVerifier.ts:82-90 | anything but an array stops the pipeline with the `not` message |
| ArrayVerifier.CheckLengths | src/verifiers/ArrayVerifier.ts:92-128 | on an array, passes iff the length rule passes and Fails iff it finds a misconfiguration; `notEqual`, `max.more` and `min.less` Errors name the element count and the bound, each misconfiguration Fails with its key |
| ArrayVerifier.BoundsReported | src/verifiers/ArrayVerifier.ts:122-127 | with usable bounds and no exact length, an array above `maxLength` gives the `max.more` Error, one below `minLength` the `min.less` Error, one within the bounds passes |
| ArrayVerifier.CheckExact | src/verifiers/ArrayVerifier.ts:199-224 | an Error exactly when the verifier is exact, its last item is not repeated and the array's length differs from the sum of 1 + repeatCount over the items |
| ArrayVerifier.ZeroLengthIsUnset | src/verifiers/ArrayVerifier.ts:106 | `setLength(0)` without bounds accepts every array |
| ArrayVerifier.ExpectedCountAppend | src/verifiers/ArrayVerifier.ts:214-217 | appending an item adds 1 + its repeatCount to the expected count |
| ObjectVerifier.SetGeneralType | src/verifiers/ObjectVerifier.ts:30-44 | sets the catch-all verifier, resolved like an item's, or reports why resolving failed |
| ObjectVerifier.AddItem | src/verifiers/ObjectVerifier.ts:80-102 | appends the resolved item under its key with its options, or reports why resolving failed |
| ObjectVerifier.Dedupe | src/verifiers/ObjectVerifier.ts:51-53 | the same keys, each once |
| ObjectVerifier.DedupeAppend | src/verifiers/ObjectVerifier.ts:51-53 | deduplicating a concatenation gives the first part deduplicated, then the second part's keys not in the first part, deduplicated: `new Set` keeps first occurrences in order |
| ObjectVerifier.AddNotAllowedKeys | src/verifiers/ObjectVerifier.ts:50-55 | the forbidden keys become the union of the old and new keys, without repeats; when the old keys have no repeats they stay first, in order, followed by the new keys not among them in first-occurrence order; nothing else changes |
| ObjectVerifier.CheckObject | src/verifiers/ObjectVerifier.ts:105-113 | anything but a plain object stops the pipeline with the `not` message |
| ObjectVerifier.CheckNotAllowed | src/verifiers/ObjectVerifier.ts:115-140 | forbidden keys present in the input give an Error naming them in key order; otherwise an item declared under a forbidden key Fails with the `usingNotAllowed` message naming those keys; passes iff neither happens |
| ObjectVerifier.ExtraAmong | src/verifiers/ObjectVerifier.ts:154-159 | a key is "extra" iff it is not forbidden and no item has a different key |
| ObjectVerifier.CheckExact | src/verifiers/ObjectVerifier.ts:201-223 | an Error exactly when the verifier is exact and the input has extra keys, which it names |
| ObjectVerifier.ExtraWithoutItems | src/verifiers/ObjectVerifier.ts:154-159 | without items, every key that is not forbidden is extra |
| ObjectVerifier.NoExtraWithTwoKeys | src/verifiers/ObjectVerifier.ts:157-159 | once items have two different keys, no key is extra |
| ObjectVerifier.OnlyTheItemKeyIsExtra | src/verifiers/ObjectVerifier.ts:216-218 | with items, only the items' shared key can be extra |
| ObjectVerifier.DedupeKeepsDistinct | src/verifiers/ObjectVerifier.ts:51-53 | keys without repeats come out unchanged, in order |
| Engine.Verify | src/verifiers/BaseVerifier.ts:42-48 | a nested `verify` never answers Fail, and its Error always carries a message |
| Engine.ItemStep | src/verifiers/ArrayVerifier.ts:157-185 | a repeated item that is not last stops the walk; a repeatCount consumes repeatCount + 1 elements; a repeated item consumes the rest; any other item consumes one |
| Engine.Failures | src/verifiers/ArrayVerifier.ts:146-155 | at most one group per element verified |
| Engine.CheckArrayItems | src/verifiers/ArrayVerifier.ts:130-197 | a non-array or an empty item list passes; an Error carries messages |
| Engine.ItemGroups | src/verifiers/ObjectVerifier.ts:171-181 | at most one group per item |
| Engine.ExtraGroups | src/verifiers/ObjectVerifier.ts:183-187 | at most one group per extra key |
| Engine.CheckObjectItems | src/verifiers/ObjectVerifier.ts:142-199 | a non-object passes; never a Fail; an Error carries messages |
| ItemWalks.StoppedStays | src/verifiers/ArrayVerifier.ts:161-166 | once the item loop has returned a Fail, later items change nothing |
| ItemWalks.FailuresStep | src/verifiers/ArrayVerifier.ts:146-155 | verifying one more element adds its group exactly when its verifier does not pass |
| ItemWalks.WalkStep | src/verifiers/ArrayVerifier.ts:157-185 | one iteration of the item loop: stop, or advance the cursor and add the groups of the elements consumed |
| ItemWalks.ItemGroupsNext | src/verifiers/ObjectVerifier.ts:171-181 | one iteration of the item loop: a missing required key adds `notExists`, otherwise the verifier runs on the key's value and adds a group if it does not pass |
| ItemWalks.ExtraGroupsNext | src/verifiers/ObjectVerifier.ts:183-187 | one iteration of the catch-all loop adds a group exactly when the verifier rejects the key's value |
| ItemWalks.WalkItem | src/verifiers/ArrayVerifier.ts:157-185 | the loop body for one item yields exactly the next walk state |
| ItemWalks.VerifyElements | src/verifiers/ArrayVerifier.ts:168-179 | the inner loop collects exactly the groups of the elements it verifies |
| ItemWalks.CheckArrayItems | src/verifiers/ArrayVerifier.ts:130-197 | the imperative `checkItems` answers exactly what the walk specifies |
| ItemWalks.VerifyItem | src/verifiers/ObjectVerifier.ts:163-169 | pushes the key's group exactly when the verifier rejects its value |
| ItemWalks.CheckObjectItems | src/verifiers/ObjectVerifier.ts:142-199 | the imperative `checkItems` answers exactly what the item and catch-all groups specify |
| ItemWalks.VerifyExtra | src/verifiers/ObjectVerifier.ts:183-187 | the catch-all loop collects exactly the groups of the extra keys |
| ArrayWalk.FailuresAgree | src/verifiers/ArrayVerifier.ts:146-155 | the groups depend only on the elements verified |
| ArrayWalk.CursorGrows | src/verifiers/ArrayVerifier.ts:154 | the cursor never moves back |
| ArrayWalk.WalkAgrees | src/verifiers/ArrayVerifier.ts:157-185 | the walk depends only on the elements before its cursor |
| ArrayWalk.TailNotInspected | src/verifiers/ArrayVerifier.ts:130-197 | elements past where the items end are never inspected: changing them does not change `checkItems` |
| ArrayWalk.ConsumesStep | src/verifiers/ArrayVerifier.ts:164-184 | a non-repeated item advances the cursor by 1 + its repeatCount |
| ArrayWalk.WalkConsumesExpected | src/verifiers/ArrayVerifier.ts:157-185 | without repeated items, the walk's cursor equals `checkExact`'s expected count |
| ArrayWalk.ExactMeansWalkConsumesAll | src/verifiers/ArrayVerifier.ts:199-224 | without repeated items, an exact array passes `checkExact` iff the item walk consumes exactly all its elements |
| ArrayWalk.RepeatedItemMustBeLast | src/verifiers/ArrayVerifier.ts:161-162 | a repeated item reached before the last position makes `checkItems` Fail with repeatedItem |
| ArrayWalk.RepeatCountMustBePositiveInteger | src/verifiers/ArrayVerifier.ts:164-166 | a reached repeatCount that is not a positive integer makes `checkItems` Fail naming it |
| ArrayWalk.FailuresGrouped | src/verifiers/ArrayVerifier.ts:146-155 | groups name distinct verified indices in increasing order, each with at least one message |
| ArrayWalk.WalkGrouped | src/verifiers/ArrayVerifier.ts:187-196 | the walk's groups name indices below its cursor in increasing order |
| ArrayWalk.FailuresPass | src/verifiers/ArrayVerifier.ts:146-155 | no group arises iff every verified element passes its item verifier |
| ArrayWalk.WalkPass | src/verifiers/ArrayVerifier.ts:157-185 | while the walk runs, no group has arisen iff every item so far passed on each element it consumed |
| ArrayWalk.ArrayItemsPass | src/verifiers/ArrayVerifier.ts:130-197 | `checkItems` passes iff the item walk never stops and every element an item consumes passes that item's verifier |
| ObjectWalk.FlattenShows | src/verifiers/ObjectVerifier.ts:189-198 | each group appears flattened as its heading followed by its messages |
| ObjectWalk.GroupShown | src/verifiers/ObjectVerifier.ts:189-198 | every group collected appears in the Error as the key's heading then its messages |
| ObjectWalk.ItemGroupShown | src/verifiers/ObjectVerifier.ts:171-198 | the group item i raises appears under its key |
| ObjectWalk.RequiredKeyMissing | src/verifiers/ObjectVerifier.ts:175-178 | a missing required key reports `notExists` under its heading |
| ObjectWalk.OptionalKeySeesUndefined | src/verifiers/ObjectVerifier.ts:175-180 | a missing optional key has its verifier run on `undefined`, whose messages appear under its heading |
| ObjectWalk.ExtraGroupShown | src/verifiers/ObjectVerifier.ts:183-187 | the group of a rejected extra key is among the catch-all groups |
| ObjectWalk.CatchAllShown | src/verifiers/ObjectVerifier.ts:183-187 | with `generalType` and not exact, a rejected extra key's group is collected |
| ObjectWalk.CatchAllGroupShown | src/verifiers/ObjectVerifier.ts:183-198 | a catch-all group appears in the Error after the item groups |
| ObjectWalk.GeneralTypeSeesExtraKeys | src/verifiers/ObjectVerifier.ts:183-198 | an extra key that the catch-all verifier rejects has that verifier's messages in the Error under its heading |
| ObjectWalk.ItemGroupsOfItems | src/verifiers/ObjectVerifier.ts:171-181 | the item groups depend only on the items |
| ObjectWalk.ExactIgnoresGeneralType | src/verifiers/ObjectVerifier.ts:183 | an exact verifier's `checkItems` ignores `generalType` |
| ObjectWalk.ItemGroupsPrefix | src/verifiers/ObjectVerifier.ts:171-181 | groups only accumulate: earlier ones are never removed |
| ObjectWalk.ItemGroupsPass | src/verifiers/ObjectVerifier.ts:171-181 | no item group arises iff every item passes (present, or optional, and accepted) |
| ObjectWalk.ExtraGroupsPass | src/verifiers/ObjectVerifier.ts:183-187 | no catch-all group arises iff the catch-all verifier accepts every extra key's value |
| ObjectWalk.ObjectItemsPass | src/verifiers/ObjectVerifier.ts:142-199 | `checkItems` passes iff every item passes and, with `generalType` and not exact, every extra key's value is accepted |
| BaseVerifiers.Bind | src/verifiers/BaseVerifier.ts:44-46 | one bound check per check, each with `this` bound to the options and the catalog |
| BaseVerifiers.BaseVerifier.constructor | src/verifiers/BaseVerifier.ts:24-35 | keeps the checks; options are empty without context, copied from a verifier context, or the given record |
| BaseVerifiers.BaseVerifier.Verify | src/verifiers/BaseVerifier.ts:42-48 | an unavailable language throws; otherwise the pipeline over the bound checks, never a Fail; nothing changes |
| BaseVerifiers.BaseVerifier.VerifyFailOnError | src/verifiers/BaseVerifier.ts:54-62 | returns normally iff the language is available and every bound check passes; otherwise throws the first failure's messages |
| BaseVerifiers.StandardChecks | src/verifiers/BaseVerifier.ts:24-28 | the check list a class passes has as many checks as its constructor lists, check i being the i-th |
| BaseVerifiers.StandardChecksAgree | src/verifiers/BaseVerifier.ts:42-48 | `verify` through the class on its standard checks equals the nested engine's `verify`, whatever the catalog |
| Properties.TypeCheckFirst | src/verifiers/ObjectVerifier.ts:105-113 | every kind's first check passes iff the input has the kind's type, and otherwise Fails with the kind's `not` message (likewise in the other four classes) |
| Properties.WrongTypeStops | src/utils/verify.ts:25-28 | on an input of the wrong type `verify` reports only the `not` message |
| Properties.ChecksSpeak | src/utils/verify.ts:30-35 | on an input of the right type, every check that does not pass carries a message |
| Properties.ChecksAudible | src/utils/verify.ts:14-49 | no check's silent Error goes unnoticed: it is always preceded by a Fail |
| Properties.AssertModeAgrees | src/verifiers/BaseVerifier.ts:42-62 | `verify` succeeds iff every check passes iff `verifyFailOnError` returns normally |
| Properties.BooleanVerifyIff | src/verifiers/BooleanVerifier.ts:19-65 | a boolean verifier accepts exactly the booleans equal to the expected one, or every boolean when none is set |
| Properties.StringVerifyIff | src/verifiers/StringVerifier.ts:19-166 | a string verifier accepts exactly the strings equal to the expected one, meeting the length rule and matching the pattern |
| Properties.ArrayVerifyIff | src/verifiers/ArrayVerifier.ts:18-20 | an array verifier accepts exactly the arrays passing its lengths, items and exactness checks |
| Properties.ObjectVerifyIff | src/verifiers/ObjectVerifier.ts:19-24 | an object verifier accepts exactly the objects passing `checkNotAllowed` (no forbidden key among the object's keys, and no item declared under a forbidden key, which rejects every object), `checkItems` and, when exact, `checkExact` |
| Strings.NatText | src/utils/strings.ts:8 | `index.toString()` is a non-empty string of digits, with a leading 0 only for 0 |
| Strings.ParseIndexNatText | src/utils/strings.ts:8 | reading a rendered index back gives the index |
| Strings.NatTextInjective | src/utils/strings.ts:8 | distinct indices render differently |
| Strings.Substitution | src/utils/strings.ts:9 | a replacement without `$` is inserted as it is |
| Strings.ReplaceAllVerbatim | src/utils/strings.ts:7-10 | with a replacement without `$`, the global replace puts the replacement itself in place of every occurrence, scanning left to right without overlap |
| Strings.ReplaceDollarForms | src/utils/strings.ts:7-10 | a value is a replacement pattern: `$$` gives `$`, `$&` gives the placeholder itself |
| Strings.ReplaceContextForms | src/utils/strings.ts:7-10 | `$'` gives the text after the match and `` $` `` the text before it |
| Strings.ReplaceAllAbsent | src/utils/strings.ts:7-10 | a global replace of a pattern that does not occur changes nothing, whatever the replacement |
| Strings.ReplaceAllJoin | src/utils/strings.ts:7-10 | a global replace with a replacement without `$` swaps every separator of a join for the replacement |
| Strings.ReplaceStep | src/utils/strings.ts:5-12 | the reduce step n swaps every `{n}` for the n-th value when that value holds no `$` |
| Strings.ReplaceFrom | src/utils/strings.ts:5-12 | reduce steps whose placeholders do not occur in the text so far leave it unchanged |
| Strings.ReplaceUnchanged | src/utils/strings.ts:5-12 | a template holding none of the placeholders comes out unchanged, in particular with no values |
| Strings.PlaceholderDistinct | src/utils/strings.ts:8 | `{i}` never occurs inside `{k}` for i != k |
| Strings.ReplaceLeavesLonePlaceholder | src/utils/strings.ts:5-12 | a template that is just a placeholder beyond the values comes out unchanged |
| Strings.ReplaceAllSplit | src/utils/strings.ts:7-10 | with a replacement without `$`, a global replace works on two texts apart when no occurrence of the pattern straddles their boundary |
| Strings.ReplaceAllKeeps | src/utils/strings.ts:7-10 | replacing `{i}`, by any value, keeps every occurrence of another placeholder `{k}` |
| Strings.ReplaceKeepsUnmatched | src/utils/strings.ts:5-12 | a placeholder beyond the values that occurs in the template still occurs after any number of reduce steps |
| Strings.ReplaceAllWhole | src/utils/strings.ts:7-10 | a text that is exactly the pattern becomes the expansion of the replacement, with empty text before and after |
| Strings.ReplaceOwnPlaceholder | src/utils/strings.ts:5-12 | step n turns a lone `{n}` into the expansion of the n-th value |
| Strings.ReplaceIsSequential | src/utils/strings.ts:5-11 | substitutions are sequential: when value i is the placeholder of a later value j, and the expansion of value j holds no placeholder, `{i}` comes out as that expansion, which is value j itself when it holds no `$` |
| Objects.Nested | src/utils/objects.ts:4 | `value && typeof value === "object"` holds exactly for arrays and plain objects |
| Objects.KeyNames | src/utils/objects.ts:1-16 | the loop collects exactly the leaf keys, and nothing for a value that is not nested |
| Objects.FlatObjectLeaves | src/utils/objects.ts:8-13 | a flat object's leaf keys are its keys in order |
| Objects.LeavesAppend | src/utils/objects.ts:8-13 | the leaf keys of joined properties are the joined leaf keys |
| Objects.EmptyNestedContributesNothing | src/utils/objects.ts:8-13 | an empty nested object or array contributes no leaf key |
| Objects.JoinSplit | src/utils/objects.ts:22 | splitting at "." and joining with "." gives back the path |
| Objects.SplitPartsDotFree | src/utils/objects.ts:22 | no part of a split path contains "." |
| Objects.SplitAtDot | src/utils/objects.ts:22 | splitting a + "." + b splits a and b |
| Objects.SplitJoin | src/utils/objects.ts:22 | splitting a join of dot-free parts gives back the parts |
| Objects.SplitDotFree | src/utils/objects.ts:22 | a dot-free path is one segment |
| Objects.Member | src/utils/objects.ts:24-28 | a step succeeds iff the current value is nested and has the segment as an own key; on null it is a TypeError |
| Objects.AccessKey | src/utils/objects.ts:18-30 | a non-nested input throws "Given input is not a object."; succeeds exactly when the path exists, with its value; a missing segment throws naming the whole path; a step from `null` throws the TypeError of `in` naming the segment |
| Objects.AccessKeyThroughNull | src/utils/objects.ts:22-29 | a path that reaches a `null` field and goes on throws the TypeError of `in` on `null`, not the missing-path error |
| Objects.DescendAppend | src/utils/objects.ts:23-29 | following s1 then s2 is following s1 + s2 |
| Objects.AccessKeyOneSegment | src/utils/objects.ts:18-30 | a dot-free key reads the property, or throws when it is absent |
| Objects.AccessKeyDescends | src/utils/objects.ts:22-29 | `accessKey(x, "a.b")` is `accessKey(accessKey(x, "a"), "b")` whenever either succeeds |
| Language.GetLang | src/utils/language.ts:21-26 | the catalog of a listed language, otherwise the "is not available" error naming it |
| Language.ListedLanguageAvailable | src/utils/language.ts:21-26 | every listed language is available with its own catalog |
| Language.Languages.constructor | src/utils/language.ts:7-8 | the catalog table is given and the active language starts as "en" |
| Language.Languages.SetLang | src/utils/language.ts:17-19 | the active language becomes the new one, unchecked; later lookups read its catalog |
| Language.Languages.GetLangString | src/utils/language.ts:12-15 | `accessKey` on the active catalog, or the "not available" error |
| Language.Languages.LangCheck | src/utils/language.ts:28-62 | the imperative check returns what the verdict on the collected key map specifies |
| Language.MaxLength | src/utils/language.ts:36 | the length of the longest key list, which some catalog attains |
| Language.FirstNotIn | src/utils/language.ts:52-53 | a key of one list missing from the other, every key before it being present (so the first such key), or none iff every key is present |
| Language.Verdict | src/utils/language.ts:36-61 | throws "less data" naming the short catalogs, else "different data" naming the differing ones, else returns normally |
| Language.ShorterNamesShortCatalogs | src/utils/language.ts:37-39 | a catalog is named as short iff its key list is shorter than the longest |
| Language.DiffersIff | src/utils/language.ts:49-53 | for lists without an empty key, two catalogs differ iff their key sets differ |
| Language.SameLengthIsAll | src/utils/language.ts:46 | when all lists are longest, `sameLength` holds every catalog |
| Language.NoneShorter | src/utils/language.ts:36-41 | no catalog is short iff all have the longest length |
| Language.AllLongestIffEqual | src/utils/language.ts:36-39 | all lists are longest iff all have equal length |
| Language.NoneDifferent | src/utils/language.ts:46-58 | with equal lengths and no empty key, no catalog is named as different iff all have the same key sets |
| Language.LangCheckPasses | src/utils/language.ts:28-62 | with no empty leaf key, `langCheck` passes iff all catalogs have the same number of leaf keys and the same key sets |
| Language.EmptyKeySlipsThrough | src/utils/language.ts:52-53 | an empty leaf key, being falsy, hides a difference from `langCheck` |

## Left out

- Floating point: numbers are reals, so NaN, the infinities and -0 are
  not modelled. `x % d === 0` is modelled as "x / d is a whole number".
  How `toString` prints a number is not modelled.
- Regular expressions: a pattern is an uninterpreted `test` predicate plus
  its `toString()` text, `/source/flags`. The regex engine is not
  modelled, nor how `toString()` escapes the source.
- Message text: a message is a catalog key plus its arguments. Looking the
  key up in the active catalog and filling it in with `replace` (both
  modelled on their own) are not composed into text. The same holds for
  the `-- {0} --` headings and for the "\n" join in `verifyFailOnError`,
  which throws the message list (`Thrown.Failed`).
- Catalog contents: the texts of `src/langs/en.ts` and `src/langs/tr.ts`
  are not part of this model. The catalog table is a constructor
  parameter of `Languages`.
- The `langCheck()` call at module import is not modelled as import-time
  behaviour; `Languages.LangCheck` is the same check, made callable.
- The `this` binding is passed as an explicit parameter.
- `instanceof` is modelled as the kind tag of the verifier value, so a
  subclass of a verifier class is not modelled.
- `key in input` and `current in value` see own properties only: the
  prototype chain is not modelled.
- Arrays are dense sequences: holes and non-index properties are not
  modelled. `Object.keys` of an array gives its index texts.
- Objects have distinct keys in `Object.keys` order. Integer-like keys,
  which JavaScript moves to the front, are not reordered.
- `items.indexOf(item)` is modelled by the item's position. An item object
  added twice (so found earlier by `indexOf`) is not modelled.
- String lengths count characters. JavaScript's `length` counts UTF-16
  code units, so strings outside the Basic Multilingual Plane are not
  modelled.
- Exceptions are `Result` values. The TypeError texts are given as the
  engine writes them (`verifierData is not a function`, and `Cannot use
  'in' operator to search for '...' in null`); the error class and the
  stack are not modelled.
- `Math.max()` of no catalogs is -Infinity. `MaxLength` gives -1 there,
  which leads to the same verdict.
- The commented-out `checkLengths` of the number verifier is not part of
  the source's behaviour. The build configuration, the package entry
  point and the type-only files are not modelled.
- Strings.ReplaceAllJoin: stated only for a replacement without `$`,
  because the `$` forms of the replacement expand to text that depends on
  where the match is. Strings.ReplaceAllAbsent, Strings.ReplaceAllKeeps
  and Strings.ReplaceIsSequential cover any replacement.
- Strings.ReplaceStep: stated only for a value without `$`, for the same
  reason; Strings.ReplaceOwnPlaceholder gives the expansion in general.
- Strings.ReplaceAllSplit: stated only for a replacement without `$`:
  `` $` `` and `$'` see the whole text, so a replace of two texts apart is
  not a replace of their concatenation.
- Replacement patterns: numbered and named group references (`$1`,
  `$<name>`) stand for themselves, since the patterns `replace` builds
  have no capture groups.
- Language.LangCheckPasses: requires that no catalog has an empty leaf
  key. An empty key is falsy, so `find` cannot report it as missing, and
  `langCheck` then passes catalogs whose key sets differ.
  Language.EmptyKeySlipsThrough exhibits this.

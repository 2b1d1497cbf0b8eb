# Test-data helpers of the todo-list end-to-end suite

The suite drives a hosted todo-list application through a browser. Its own
logic lives in the `MyHelpers` class:

- `createArrayOfEnumeratedStrings(n, baseText)` allocates an array of `n`
  slots and fills slot `i - 1` with `baseText + i` for `i = 1..n`. The
  bulk-completion tests address `Example1` to `Example5`, created by
  `addMultipleTodos(5, "Example")` (e2e/mark-all-as-completed.spec.ts:19-27).
  The page object shown does not define that method, so the link to this
  helper is an inference: these are the labels the helper produces.
- `checkStringHasBeenTrimmed(text)` tells whether `text` equals
  `text.trim()`.

The project is in three modules:

- `Decimal` (`decimal.dfy`) renders a natural number in decimal. This is the
  number-to-string step JavaScript performs in `baseText + i`. The module
  proves the rendering canonical: non-empty, digits only, and no leading
  zero unless the number is zero. It also proves rendering a bijection onto
  canonical digit strings by round trips through a reference parser,
  `StringToNat`, and derives injectivity from that.
- `Trimming` (`trimming.dfy`) gives `String.prototype.trim`. `IsWs` lists
  the ECMAScript white space and line terminator code points. `TrimStart`
  and `TrimEnd` strip each end, and `Trim` does both. The module
  characterises `Trim(s)` uniquely: `s` is `Trim(s)` with all-whitespace
  text on either side, and `Trim(s)` has no surrounding whitespace. It
  then derives the fixed-point, idempotence and all-whitespace facts.
- `MyHelpers` (`helpers.dfy`) models the class itself. The spec function
  `Enumerated(n, baseText)` gives the label sequence. The method
  `CreateArrayOfEnumeratedStrings` fills a fresh `array<string>` in a `for`
  loop and is proved to produce exactly `Enumerated`. Lemmas cover the
  labels' contents, prefix, order and pairwise distinctness.
  `CheckStringHasBeenTrimmed` is a function whose contract states what it
  decides, in terms of the first and last characters.

The class has no fields, so it is a module here rather than a class.
`async`/`Promise` is dropped: both operations are modelled synchronously.

The generator has no flag to repeat `baseText` without a number
(utils/helpers.ts:10), so every label is enumerated.

## Model

| member | source | states |
|---|---|---|
| Decimal.NatToString | utils/helpers.ts:13 | the decimal form of `i` that `baseText + i` appends is non-empty, all digits, and starts with `0` exactly when `i` is zero |
| Decimal.StringToNatOfNatToString | utils/helpers.ts:13 | reading the decimal form of `n` back gives `n` |
| Decimal.NatToStringOfStringToNat | utils/helpers.ts:13 | every canonical digit string is the decimal form of the number it denotes, so the two are inverse |
| Decimal.NatToStringInjective | utils/helpers.ts:13 | distinct numbers have distinct decimal forms |
| Trimming.TrimStart | utils/helpers.ts:24 | the result is a suffix of the input, what it drops is all whitespace, and it does not start with whitespace |
| Trimming.TrimEnd | utils/helpers.ts:24 | the result is a prefix of the input, what it drops is all whitespace, and it does not end with whitespace |
| Trimming.TrimSplits | utils/helpers.ts:24 | every string is its trim with all-whitespace text before and after it |
| Trimming.TrimHasNoSurroundingWs | utils/helpers.ts:19-24 | the trim of any string is empty or starts and ends with a non-whitespace character |
| Trimming.TrimRemovesPadding | utils/helpers.ts:24 | trimming whitespace padding off text with no surrounding whitespace gives that text back, interior whitespace included; with TrimSplits this fixes the trim uniquely |
| Trimming.TrimFixedIff | utils/helpers.ts:19-24 | a string equals its trim if and only if it is empty or neither end is whitespace |
| Trimming.TrimIdempotent | utils/helpers.ts:24 | trimming twice is trimming once |
| Trimming.TrimEmptyIff | utils/helpers.ts:24 | the trim is empty if and only if the input is all whitespace |
| MyHelpers.Enumerated | utils/helpers.ts:7 | the label sequence for `n` has exactly `n` entries, so `n = 0` gives none |
| MyHelpers.EnumeratedAt | utils/helpers.ts:12-13 | slot `k` holds `baseText` followed by the decimal form of `k + 1` |
| MyHelpers.EnumeratedHasPrefix | utils/helpers.ts:13 | every label starts with `baseText` |
| MyHelpers.EnumeratedOrder | utils/helpers.ts:7-13 | the first label is `baseText + "1"`, the last is `baseText` plus the decimal form of `n`, and the number after `baseText` in slot `k` is `k + 1` |
| MyHelpers.EnumeratedDistinct | utils/helpers.ts:13 | no two slots hold the same label |
| MyHelpers.EnumeratedExampleFive | e2e/mark-all-as-completed.spec.ts:19-27 | five labels from `"Example"` are `Example1` to `Example5` in that order, the names these tests address after `addMultipleTodos(5, "Example")` |
| MyHelpers.CreateArrayOfEnumeratedStrings | utils/helpers.ts:10-16 | returns a newly allocated array of length `numberOfElements` whose slot `k` is `baseText` plus the decimal form of `k + 1`, that is, exactly the label sequence |
| MyHelpers.CheckStringHasBeenTrimmed | utils/helpers.ts:23-25 | true if and only if the text is empty or neither its first nor its last character is whitespace |
| MyHelpers.TrimPassesCheck | utils/helpers.ts:24 | the trim of any string passes the check |
| MyHelpers.CheckIgnoresInteriorWs | utils/helpers.ts:19-24 | whitespace inserted inside a text does not change the verdict |
| MyHelpers.CheckRejectsPadding | utils/helpers.ts:24 | text with whitespace padding at either end fails the check, and its trim passes |
| MyHelpers.TrimEditingFixture | e2e/editing.spec.ts:137-138 | the editing input padded in front with spaces and tabs trims to `Ipsum` |
| MyHelpers.TrimCreationFixturePlain | e2e/newTodo.spec.ts:20-25 | the creation input `'test'` trims to `test` |
| MyHelpers.TrimCreationFixtureLeading | e2e/newTodo.spec.ts:20-25 | the creation input `' test'` trims to `test` |
| MyHelpers.TrimCreationFixtureTrailing | e2e/newTodo.spec.ts:20-25 | the creation input `'test '` trims to `test` |
| MyHelpers.TrimCreationFixture | e2e/newTodo.spec.ts:20-25 | the creation input `' test '` trims to `test` |
| MyHelpers.TrimCreationFixtureTrailingRun | e2e/newTodo.spec.ts:20-25 | the creation input `'test    '` trims to `test` |

## Left out

- CreateArrayOfEnumeratedStrings: does not model the `RangeError` that `new Array` throws for a length of 2^32 or more. The length is any `nat` here. Below that bound every index is an exact integer under 10^21, so JavaScript renders it in plain decimal, as `NatToString` does. Negative and fractional lengths are excluded by typing the length as `nat`.
- CreateArrayOfEnumeratedStrings: the source array starts with empty slots (holes). The Dafny array starts with empty strings. Either way the loop overwrites every slot before the array is returned.
- The `async`/`Promise` wrappers of both operations are not modelled. Nothing here awaits anything.
- Strings are sequences of Unicode scalar values, not UTF-16 code units, so lone surrogates are not represented. Every whitespace code point lies in the Basic Multilingual Plane, so trimming is the same either way.
- `IsWs` lists the space separators (category Zs) of Unicode 15. A later Unicode version that added one would need it added here.
- The page object (POM/todo-angular-ts.ts) is not part of this model. Every one of its operations is a call into the browser automation driver, with string dispatch around it.
- The end-to-end test scripts (e2e/) and the runner configuration (playwright.config.ts) are not part of this model. They act on a remotely hosted application; only their fixture strings appear, in the fixture lemmas.

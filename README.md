# Code rule editor — a Dafny model

A *code rule* describes how an identifier is generated. It is an ordered list of
typed *segments*. Each segment is serialised as `{type, note?, settings:[{name, value}]}`,
and there are eleven kinds: literal, parameterValue, year, month, dayOfMonth,
dayOfWeek, dayOfYear, weekOfYear, autoIncrement, checksum and userInput.

This project models the editor's core:

- the codecs between a serialised segment and the flat objects the editor works on:
  - the setting map (`parseCodeRuleMap` / `parseCodeRule`);
  - the single-segment form (`parseFormFromSegment` / `parseSegmentFromForm`);
  - the multi-segment editor's own decode and encode;
- the code length and preview renderers, with the exact `decimalSum` behind the
  auto-increment counter;
- the per-kind validators, their field edit handlers and the generic
  `validationMethods`;
- the multi-segment editor:
  - its state machine over `formList`, `focusedPosition`, `isModified` and `listedFailures`;
  - its insert, remove, move, type change, submission and confirmation;
- the single-segment editor with its `failures` state;
- the read-only view's label and its user-input upsert;
- the preview tile;
- the type dropdown's candidate list;
- the `{key}` substitution of `formatString`.

Module layout: one module per source file, plus three shared modules:

- `Js` holds JavaScript values and the built-ins the code relies on:
  - truthiness, `==`, `${}`, `Number()` and `parseInt`;
  - lodash `isEmpty`, `padStart`, `padEnd` and `last`.
- `JsObject` holds plain objects as insertion-ordered entry lists, with lodash
  `fromPairs` and `merge`.
- `FormInputs` holds the input coercions that several form files repeat.

The modules for the source files are:

| module | source file |
|---|---|
| `Types` | src/models/types.ts |
| `CodeRule` | src/models/code-rule.ts |
| `SequenceRule` | src/utils/sequence-rule.ts |
| `NumberCalculator` | src/utils/number-calculator.ts |
| `Lingual` | src/lingual/index.ts |
| `ImmerForm` | src/immer-form.tsx |
| `AutoIncrementForm`, `ChecksumForm`, `UserInputForm`, `ParameterValueForm`, `LiteralForm`, `YearForm` | the matching files in src/forms/ |
| `SingleEditor` | src/single-editor.tsx |
| `Editor` | src/editor.tsx |
| `CodeRuleView` | src/code-rule-view.tsx |
| `SegmentPreview` | src/segment-preview.tsx |
| `TypesDropdown` | src/types-dropdown.tsx |

Modelling choices:

- The code that mutates state is written as imperative Dafny:
  - the two editor components are classes whose methods update their fields;
  - `parseCodeRule`'s accumulating reduce is a loop;
  - `decimalSum`'s `forEach` is a loop;
  - `formatString`'s `for ... in` is a loop.

  Each is proved equal to a specification function.
- Everything else is functions and lemmas.
- Dates come from an injected `Calendar` (year, month, day of month, day of week,
  day of year, week of year) instead of the clock.
- A call that can throw returns `Outcome` (`Throws` or `Returns(v)`). This covers reading
  `length` of null, and decimal.js refusing an operand.

Behaviour of the code the model keeps on purpose:

- Remove does not clamp the focus, so removing the form at index 0 while it is focused leaves the focus at -1 (src/editor.tsx:92-101).
- The multi-segment editor's type change gives only `{type}` to the month, day and week kinds (src/editor.tsx:419-452).
- The auto-increment preview and the start bound use `start || 1` and `length || 1` (src/utils/sequence-rule.ts:212 and src/forms/auto-increment-form.tsx:170).
- A literal whose `content` is a non-zero number has an undefined code length, which makes the sequence length NaN (src/utils/sequence-rule.ts:51-53).
- String lengths are JavaScript's: `length` counts UTF-16 code units, so a character outside the Basic Multilingual Plane counts twice (`Js.Utf16Length`).

## Model

| member | source | states |
|---|---|---|
| Types.AllTypesComplete | src/models/types.ts:1-13 | the enum has exactly eleven members, each listed once, and every kind is among them |
| Types.TagsDistinct | src/models/types.ts:2-12 | two kinds share a tag only when they are the same kind, and reading a kind's tag back gives that kind |
| Types.TagIsLowerCamelName | src/models/types.ts:2-12 | every tag is its member's name with the first letter lower-cased |
| Types.KindOf | src/models/types.ts:1-13 | a `type` value names a kind exactly when it is a string equal to one of the eleven tags, and then it is that kind's tag |
| Types.KindOfTypeValue | src/models/types.ts:2-12 | the serialised `type` of a kind names that kind again |
| Types.AlignTags | src/models/types.ts:15-19 | the label alignments are "left", "right" and "center", one per alignment |
| CodeRule.DateKindsCarryNoFields | src/models/code-rule.ts:31-59 | exactly the month, dayOfMonth, dayOfWeek, dayOfYear and weekOfYear forms declare no field besides `type` and `note` |
| CodeRule.PeriodValues | src/models/code-rule.ts:65 | a value is a valid `period` exactly when it is "forever", "day", "month" or "year" |
| CodeRule.OptionalFields | src/models/code-rule.ts:62-92 | the only optional fields are autoIncrement's `currentAutoNumber` (number or string) and userInput's `userInputValue` (string) |
| NumberCalculator.Operand | src/utils/number-calculator.ts:6 | `num \|\| 0` reads a falsy argument as 0 and a number as itself |
| NumberCalculator.DecimalSum | src/utils/number-calculator.ts:3-10 | the `forEach` loop computes the left-to-right sum from 0 of the arguments' operands, and a throw on any operand is a throw |
| NumberCalculator.SumAppend | src/utils/number-calculator.ts:5-7 | summing a concatenation adds the sums of its parts, and a throw in either part is a throw |
| NumberCalculator.SumAfterThrow | src/utils/number-calculator.ts:5-7 | once a prefix of the arguments throws, the whole sum throws |
| NumberCalculator.SumOfTwo | src/utils/number-calculator.ts:3-10 | `decimalSum(a, b)` is exactly a + b |
| NumberCalculator.FalsyAddsNothing | src/utils/number-calculator.ts:6 | a null, undefined, 0, "" or false argument adds nothing, wherever it stands |
| NumberCalculator.SumOfNumbers | src/utils/number-calculator.ts:3-10 | a sum of numbers never throws and equals their arithmetic total, which is 0 with no arguments |
| NumberCalculator.DecimalMinus | src/utils/number-calculator.ts:12-14 | `decimalMinus(x, y)` is x - y for numbers; a falsy y leaves x; it throws exactly when an operand does |
| Lingual.FormatString | src/lingual/index.ts:16-22 | the loop substitutes each key of the data in turn, in key order, into the template as it stands after the earlier keys |
| Lingual.JoinSplitIsReplaceAll | src/lingual/index.ts:18 | `split(sep).join(rep)` replaces every non-overlapping left-to-right occurrence of sep by rep |
| Lingual.SplitCount | src/lingual/index.ts:18 | `split` gives one more piece than there are occurrences of the separator |
| Lingual.ReplaceAllLength | src/lingual/index.ts:18 | each replaced occurrence changes the length by \|rep\| - \|pat\| |
| Lingual.ReplaceAllAbsent | src/lingual/index.ts:18 | a template in which the pattern never occurs is unchanged |
| Lingual.SubstituteLength | src/lingual/index.ts:18 | one key with k occurrences changes the length by k * (\|value\| - \|key\| - 2) |
| Lingual.FormattedWithoutPlaceholders | src/lingual/index.ts:16-22 | a template containing no key's placeholder comes back unchanged; so does any template with empty data |
| Lingual.FormattedAppend | src/lingual/index.ts:16-22 | formatting with the entries of a then b is formatting with a, then formatting that result with b |
| Lingual.LaterKeysSeeEarlierSubstitutions | src/lingual/index.ts:17-19 | for every template, first entry and rest, formatting is substituting the first entry and then formatting the substituted text with the rest, so later keys see placeholders earlier values introduced |
| Lingual.ChainedSubstitutionExample | src/lingual/index.ts:17-19 | an illustration: "{a}" with a -> "{b}" and then b -> "x" gives "x" |
| ImmerForm.Required | src/immer-form.tsx:48-64 | fails, with the "required" message, exactly on null, undefined, the empty string and the empty array; 0 and false pass |
| ImmerForm.MaxLength | src/immer-form.tsx:79-89 | throws exactly on null or undefined; data without a length fails with "... has no length property"; otherwise passes exactly when its length (UTF-16 code units for a string, elements for an array) is at most n, else fails naming n |
| ImmerForm.MinLength | src/immer-form.tsx:90-99 | the same, passing exactly when the length (UTF-16 code units for a string, elements for an array) is at least n |
| ImmerForm.Fn | src/immer-form.tsx:100-102 | `fn(f)` is the check f itself |
| ImmerForm.IsFailuresEmpty | src/immer-form.tsx:106-108 | true exactly when every value is null or undefined, so the empty object gives true |
| ImmerForm.LengthWindow | src/immer-form.tsx:79-99 | a string passes `maxLength(n)` and `minLength(m)` together exactly when m <= length <= n |
| ImmerForm.IsFailuresEmptyAppend | src/immer-form.tsx:106-108 | a failure list is empty exactly when both of its halves are |
| Js.PadStart | src/utils/sequence-rule.ts:177 | lodash `padStart`: the string ends the result; with a non-empty fill, the result is max(length, \|s\|) wide and the fill repeats, cut, before it |
| Js.PadEnd | src/utils/sequence-rule.ts:174 | lodash `padEnd`: the string starts the result and the repeated fill follows, up to the same width |
| Js.Utf16Length | src/immer-form.tsx:80-81 | a string's `length` counts UTF-16 code units: between its number of characters and twice that, and exactly that number when every character lies in the Basic Multilingual Plane |
| Js.LengthOf | src/immer-form.tsx:80-81 | a string's `length` is its UTF-16 length, an array's its element count, and nothing else has one |
| Js.Utf16LengthAppend | src/utils/sequence-rule.ts:53 | the `length` of a concatenation is the sum of the lengths |
| Js.Utf16LengthRepeat | src/single-editor.tsx:122 | n copies of a character are 2n code units long outside the Basic Multilingual Plane and n inside it |
| Js.Last | src/forms/auto-increment-form.tsx:120 | lodash `last` of a string is its last character, and undefined for "" |
| Js.ParseIntOfIntToString | src/utils/sequence-rule.ts:135 | `parseInt(String(n), 10)` is n for every integer n |
| Js.ToNumberOfIntToString | src/forms/auto-increment-form.tsx:171 | `Number(String(n))` is n for every integer n |
| Js.ZeroPaddedDigits | src/utils/sequence-rule.ts:216 | zero-padding a digit string keeps it all digits, and `parseInt` still reads the same value |
| JsObject.GetSet | src/utils/sequence-rule.ts:132-138 | after `draft[k] = v`, k reads v and every other key reads as before |
| JsObject.FromPairsOfUnique | src/editor.tsx:67 | `fromPairs` of pairs with distinct keys is those pairs, in order |
| JsObject.MergeDisjoint | src/editor.tsx:67 | `merge` with a source whose keys are distinct and new to the destination appends the source |
| JsObject.FromPairsLacks | src/single-editor.tsx:74 | `fromPairs` creates no key that none of its pairs carries |
| JsObject.MergeLacks | src/single-editor.tsx:74 | `merge` leaves a key the source lacks as the destination has it |
| FormInputs.CoerceNumberInput | src/forms/auto-increment-form.tsx:98-100 | a falsy input, "null" or "undefined" becomes 1 and anything else is kept, so the stored value is never falsy or nil |
| FormInputs.PaddingInput | src/forms/auto-increment-form.tsx:120 | the padding input keeps the last typed character, or "0" when nothing was typed, so it is always one character |
| FormInputs.Edit | src/forms/auto-increment-form.tsx:76-80 | a copy-on-write edit sets one field, leaves every other field as it was, and keeps the keys, adding the new key last |
| AutoIncrementForm.ValidateAutoIncrementForm | src/forms/auto-increment-form.tsx:151-176 | `length` fails iff nil, `period` and `paddingCharactor` iff empty, `start` iff it exceeds 10^(length \|\| 1) - 1; each failure has its message and there is no other key |
| AutoIncrementForm.StartBound | src/forms/auto-increment-form.tsx:170-173 | for an integer length L >= 0, an integer start fails exactly when it is at least 10^e (e = L, or 1 for L = 0); the message names 10^e - 1, and that bound itself passes |
| AutoIncrementForm.ValidStartFitsLength | src/forms/auto-increment-form.tsx:170-173 | a start that passes has at most `length` digits, so zero-padding it to `length` gives exactly `length` characters |
| AutoIncrementForm.OneDigitPasses | src/forms/auto-increment-form.tsx:151-176 | a one-digit form starting at 1 with a period and a padding passes |
| AutoIncrementForm.ScopeNotValidated | src/forms/auto-increment-form.tsx:154-156 | editing `scope` changes no failure |
| AutoIncrementForm.UnvalidatedEdit | src/forms/auto-increment-form.tsx:151-176 | editing any field other than the four validated ones changes no failure |
| AutoIncrementForm.EditPeriod | src/forms/auto-increment-form.tsx:75-81 | the period select stores one of the four periods, changes nothing else, and clears the `period` failure |
| AutoIncrementForm.EditLength | src/forms/auto-increment-form.tsx:96-106 | the length input stores the coerced value, changes nothing else, and clears the `length` failure |
| AutoIncrementForm.EditPadding | src/forms/auto-increment-form.tsx:117-123 | the padding input stores the reduced character, changes nothing else, and clears the `paddingCharactor` failure |
| AutoIncrementForm.EditStart | src/forms/auto-increment-form.tsx:132-142 | the start input stores the coerced value and changes nothing else |
| ChecksumForm.ValidateChecksumForm | src/forms/checksum-form.tsx:115-131 | `length` fails iff nil, `paddingCharactor` and `algorithm` iff empty, each with its message and no other key; the result is {} exactly when all three hold a value |
| ChecksumForm.EditAlgorithm | src/forms/checksum-form.tsx:60-71 | the only choice stores "CRC32", changes nothing else, and clears the `algorithm` failure |
| ChecksumForm.EditLength | src/forms/checksum-form.tsx:80-90 | the length input stores the coerced value, changes nothing else, and clears the `length` failure |
| ChecksumForm.EditPadding | src/forms/checksum-form.tsx:101-106 | the padding input stores the reduced character, changes nothing else, and clears the `paddingCharactor` failure |
| ChecksumForm.PaddingEditRenders | src/forms/checksum-form.tsx:101-106 | after a padding edit the checksum preview is `length` copies of the last typed character, or of "0" |
| ChecksumForm.EditedFormPasses | src/forms/checksum-form.tsx:115-131 | any form after an algorithm, a length and a padding edit passes |
| UserInputForm.ValidateUserInputForm | src/forms/user-input-form.tsx:94-106 | `length` fails iff nil and `parameterName` iff empty, with no other key; {} exactly when both hold a value |
| UserInputForm.EditLength | src/forms/user-input-form.tsx:59-69 | the length input stores the coerced value, changes nothing else, and clears the `length` failure |
| UserInputForm.EditParameterName | src/forms/user-input-form.tsx:80-85 | the name input stores the text, changes nothing else, and the name fails exactly when the text is empty |
| ParameterValueForm.ValidateParameterValueForm | src/forms/parameter-value-form.tsx:73-81 | only `parameterName` is checked: it fails exactly when empty or absent |
| ParameterValueForm.EditParameterName | src/forms/parameter-value-form.tsx:59-65 | the name input stores the text, changes nothing else, and the form passes exactly when the text is non-empty |
| ParameterValueForm.LengthNotValidated | src/forms/parameter-value-form.tsx:73-81 | whatever `length` holds, the outcome is the same |
| LiteralForm.ValidateLiteralForm | src/forms/literal-form.tsx:73-81 | only `content` is checked: it fails exactly when empty or absent |
| LiteralForm.EditContent | src/forms/literal-form.tsx:59-65 | the content input stores the text, changes nothing else, and the form passes exactly when the text is non-empty |
| YearForm.ValidateYearForm | src/forms/year-form.tsx:76-80 | every form passes |
| YearForm.EditLength | src/forms/year-form.tsx:58-67 | the select stores 2 or 4 as `length` and changes nothing else |
| YearForm.ChosenLengthRenders | src/forms/year-form.tsx:58-67 | after choosing a length, a four-digit year previews with exactly that many digits |
| SequenceRule.CoerceInteger | src/utils/sequence-rule.ts:135 | `value ? parseInt(value, 10) : 0` always gives a number or NaN |
| SequenceRule.CoerceIntegerOfInteger | src/utils/sequence-rule.ts:135 | an integer, given as a number or as its decimal string, is read back as itself |
| SequenceRule.CoerceIntegerTwice | src/utils/sequence-rule.ts:160 | reading a map value as an integer a second time always gives a number |
| SequenceRule.GetWithSettings | src/utils/sequence-rule.ts:131-139 | after the settings are written, a key reads the last setting of that name, or what it held before |
| SequenceRule.ParseCodeRuleMapReads | src/utils/sequence-rule.ts:121-140 | the map's key reads its last setting (integers for `length` and `start`); otherwise `type` and `note` read the segment's own, and any other key is undefined |
| SequenceRule.ParseCodeRule | src/utils/sequence-rule.ts:142-166 | the reduce writes `type` and `note` into the segment and pushes every other key as a setting, with `length` read as an integer; a null map gives an untyped segment with no settings |
| SequenceRule.RoundTripShape | src/utils/sequence-rule.ts:121-166 | with distinct setting names other than `type` and `note`, the round trip gives the same type and note, and each setting read back |
| SequenceRule.RoundTrip | src/utils/sequence-rule.ts:121-166 | the round trip keeps the type, the note and the setting names in order; values are unchanged except that `length` and `start` come back as the integers they denote, with `length` always a number |
| SequenceRule.GetCodeLength | src/utils/sequence-rule.ts:34-57 | a null segment or an unknown type measures 0; the other cases are stated by the lemmas below |
| SequenceRule.CodeLengthOfLengthKind | src/utils/sequence-rule.ts:41-50 | the nine length-carrying kinds always measure a number, and 0 when there is no `length` setting |
| SequenceRule.CodeLengthOfIntegerSetting | src/utils/sequence-rule.ts:41-50 | for those kinds, a `length` setting denoting the integer n measures n |
| SequenceRule.CodeLengthWithoutContent | src/utils/sequence-rule.ts:51-53 | literal and parameterValue measure 0 without a truthy `content` |
| SequenceRule.CodeLengthOfContent | src/utils/sequence-rule.ts:51-53 | literal and parameterValue measure a string content by its length in UTF-16 code units, its number of characters when all lie in the Basic Multilingual Plane |
| SequenceRule.CodeLengthOfNumericContent | src/utils/sequence-rule.ts:51-53 | a non-zero number as content has no length, so the code length is undefined |
| SequenceRule.SequenceLengthIsSum | src/utils/sequence-rule.ts:28-32 | when every code length is a number, the sequence length is their sum, so the empty list gives 0 |
| SequenceRule.SequenceLengthUndefined | src/utils/sequence-rule.ts:28-32 | one segment with an undefined code length makes the sequence length NaN |
| SequenceRule.LengthTotalOfNaN | src/utils/sequence-rule.ts:29-31 | once the running total is NaN it stays NaN |
| SequenceRule.LengthTotalAppend | src/utils/sequence-rule.ts:29-31 | adding up a concatenation is adding up its halves in turn |
| SequenceRule.SequenceLengthAppend | src/utils/sequence-rule.ts:28-32 | the sequence length of a concatenation adds the second part's lengths onto the first part's total |
| SequenceRule.GetCodeTypeName | src/utils/sequence-rule.ts:59-65 | the display name of a kind's tag, and "-" for anything else, a falsy type included |
| SequenceRule.GetCodeContent | src/utils/sequence-rule.ts:67-100 | a null segment or an unknown type gives ""; only an auto-increment segment can throw |
| SequenceRule.PreviewSequenceCode | src/utils/sequence-rule.ts:107-115 | the result is undefined exactly for a null list |
| SequenceRule.PreviewIsConcatenation | src/utils/sequence-rule.ts:107-115 | the preview is the in-order concatenation of the segments' contents; it throws exactly when one of them does, and an empty list gives "" |
| SequenceRule.AppendedAppend | src/utils/sequence-rule.ts:112-114 | appending the contents of a concatenation is appending its parts in turn |
| SequenceRule.RenderChecksum | src/utils/sequence-rule.ts:219-221 | `length` characters (none for a length <= 0 or an empty padding), the padding repeated |
| SequenceRule.ChecksumOfOneCharacter | src/utils/sequence-rule.ts:219-221 | a one-character padding gives exactly `length` copies of it |
| SequenceRule.PreviewStartOfNumbers | src/utils/sequence-rule.ts:212-214 | the counter starts at max(start \|\| 1, currentAutoNumber \|\| 1) |
| SequenceRule.RenderedSum | src/utils/sequence-rule.ts:210-217 | the auto-increment content is the preview start plus the offset, written out and padded with `paddingCharactor \|\| "0"` to `length` |
| SequenceRule.AutoIncrementNeverTruncated | src/utils/sequence-rule.ts:210-217 | whatever the padding, the content ends with the whole number and is never cut to `length` |
| SequenceRule.AutoIncrementZeroPadded | src/utils/sequence-rule.ts:210-217 | with zero padding the content is all digits and reads back as start + offset, so one more offset reads one more; it is max(length, digits) wide |
| SequenceRule.UserInputHidden | src/utils/sequence-rule.ts:172-178 | not editable, a user input shows exactly `length` copies of "X" |
| SequenceRule.UserInputEditable | src/utils/sequence-rule.ts:172-175 | editable, it shows the typed value (or "") followed by "_" up to `length` |
| SequenceRule.YearWidth | src/utils/sequence-rule.ts:184-186 | when `length == 2` (loosely) the year shows at most its last two digits, exactly two from year 10 on; otherwise the full year, zero-padded to at least four digits |
| SequenceRule.DateWidths | src/utils/sequence-rule.ts:188-231 | the month, day of month and week show two digits, and the day of year three, each zero-padded and read back as the calendar's number; the day of week is its digit |
| SingleEditor.ParseFormFromSegment | src/single-editor.tsx:69-83 | the form always has a truthy type; a null segment gives the blank literal form, and so does a segment whose own type is falsy and whose settings name no `type` |
| SingleEditor.FormSettings | src/single-editor.tsx:63-65 | a field becomes a setting under its key, valued with the `${}` string of its value, exactly when it is not `type` or `note`, and every setting is such a field; no setting names `type` or `note` and all hold strings |
| SingleEditor.FormSettingsAppend | src/single-editor.tsx:63-65 | the settings of a concatenation of fields are those of the first part followed by those of the second, which fixes their order as the fields' order |
| SingleEditor.FormSettingsWithoutHeader | src/single-editor.tsx:63-65 | fields without `type` and `note` give one string setting each, at the same position |
| SingleEditor.ParseSegmentFromForm | src/single-editor.tsx:59-67 | lifts `type` and `note`; a field is among the settings, stringified, exactly when it is not `type` or `note`, and no setting is named either |
| SingleEditor.EncodeTypedFields | src/single-editor.tsx:59-67 | a form of `type` and then other fields encodes to that type, no note, and one stringified setting per field in order |
| SingleEditor.DefaultsSubmitted | src/single-editor.tsx:361-416 | what a type change submits: the kind's type, no note, and each default field after `type` as a string setting in order |
| SingleEditor.YearDefaultsSubmitted | src/single-editor.tsx:391-393 | the year's numeric default `length: 2` is submitted as the setting `length` = "2" |
| SingleEditor.SubmittedSegmentsAreTyped | src/single-editor.tsx:59-83 | a segment re-encoded from its decoded form always has a truthy type and never a `type` or `note` setting |
| SingleEditor.DecodePlain | src/single-editor.tsx:69-83 | a typed segment with distinct plain setting names decodes to `type`, `note`, then one field per setting, in order, with no defaults added |
| SingleEditor.EncodeLaidOut | src/single-editor.tsx:59-67 | a form laid out as `type`, `note` and string fields encodes to those settings, in order |
| SingleEditor.SegmentRoundTrip | src/single-editor.tsx:59-83 | encoding a decoded typed segment with distinct string settings gives the segment back |
| SingleEditor.FormRoundTrip | src/single-editor.tsx:59-83 | decoding an encoded form laid out that way gives the form back |
| SingleEditor.GetValidationResults | src/single-editor.tsx:40-57 | a form of a known kind is checked by that kind's validator, and any other form gives {} |
| SingleEditor.Validate | src/single-editor.tsx:40-57 | the five date kinds have no validator and give {} |
| SingleEditor.Defaults | src/single-editor.tsx:361-416 | a kind's defaults start with its `type` |
| SingleEditor.AutoIncrementDefaultFields | src/single-editor.tsx:367-376 | the auto-increment defaults are scope "plant", period "forever", length 1, padding "0" and start 1 |
| SingleEditor.DefaultsValidation | src/single-editor.tsx:361-416 | validating a kind's defaults reports: the literal's empty content, the parameterValue and userInput empty names, and nothing for every other kind |
| SingleEditor.ChecksumDefaultsPass | src/single-editor.tsx:377-384 | the checksum defaults pass |
| SingleEditor.LiteralDefaultsFail | src/single-editor.tsx:385-387 | the literal defaults fail on `content` only |
| SingleEditor.ParameterValueDefaultsFail | src/single-editor.tsx:388-390 | the parameterValue defaults fail on `parameterName` only |
| SingleEditor.UserInputDefaultsFail | src/single-editor.tsx:409-411 | the userInput defaults fail on `parameterName` only |
| SingleEditor.DateDefaultLengths | src/single-editor.tsx:394-408 | month, dayOfMonth and weekOfYear default to length 2, dayOfYear to 3 and dayOfWeek to 1 |
| SingleEditor.DateDefaultsMatchPreview | src/single-editor.tsx:394-408 | those default lengths are the widths the date contents have |
| SingleEditor.DateDefaultsCarryLength | src/single-editor.tsx:394-408 | the date kinds' defaults carry a `length` their form interface does not declare |
| SingleEditor.NoteEdit | src/single-editor.tsx:121-130 | a note over 30 UTF-16 code units is dropped; otherwise the segment is resubmitted with the note, its type kept, and its settings exactly those the unedited form encodes to |
| SingleEditor.FormSettingsSetNote | src/single-editor.tsx:125-129 | writing the `note` field leaves the encoded settings unchanged |
| SingleEditor.AstralNoteRejected | src/single-editor.tsx:121-124 | sixteen characters outside the Basic Multilingual Plane are 32 code units and the note is dropped |
| SingleEditor.SingleCodeRuleEditor.constructor | src/single-editor.tsx:97-103 | the editor starts with no failures |
| SingleEditor.SingleCodeRuleEditor.OnConfirm | src/single-editor.tsx:347-359 | stores the decoded form's failures and submits the re-encoded form exactly when there are none |
| SingleEditor.SingleCodeRuleEditor.OnChangeType | src/single-editor.tsx:361-416 | clears the failures and submits the kind's defaults, dropping the old form |
| Editor.GetFormsFromSegments | src/editor.tsx:66-68 | one form per segment, in order, each the segment's `{type}` merged with its settings |
| Editor.DecodeLaidOut | src/editor.tsx:66-68 | with distinct setting names other than `type`, a form is `type` then one field per setting in order; the note is dropped |
| Editor.EncodedSettings | src/editor.tsx:381-383 | a field becomes a setting under its key, valued with the `${}` string of its value, exactly when it is not `type` (so a `note` field is kept), and every setting is such a field; all hold strings |
| Editor.EncodeForm | src/editor.tsx:378-384 | the segment keeps the form's type, has no note, and holds a field as a stringified setting exactly when the field is not `type` |
| Editor.EncodedSettingsAppend | src/editor.tsx:381-383 | the settings of a concatenation of fields are those of the first part followed by those of the second, which fixes their order |
| Editor.EncodedSettingsWithoutType | src/editor.tsx:381-383 | fields without `type` give one string setting each, at the same position |
| Editor.EncodeTypedForm | src/editor.tsx:378-384 | a form of `type` and then other fields saves that type and one stringified setting per field, in order |
| Editor.EditorDefaultsSaved | src/editor.tsx:419-452 | confirming a form a type change installed saves the kind's type and each default field after `type` as a string setting, in order |
| Editor.EncodeForms | src/editor.tsx:378-385 | one segment per form, in order |
| Editor.EncodedSettingsOfPairs | src/editor.tsx:381-383 | string-valued fields encode to the settings they came from |
| Editor.EditorRoundTrip | src/editor.tsx:378-384 | saving a decoded segment with distinct string settings gives back its type and settings, with its note dropped |
| Editor.EditorListRoundTrip | src/editor.tsx:378-385 | saving the forms the editor starts with gives back every segment, in order, without its note |
| Editor.ValidateKind | src/editor.tsx:355-372 | the kinds without a case give {} |
| Editor.ValidateForm | src/editor.tsx:355-372 | a form of a known kind is checked by that kind's case, and any other form gives {} |
| Editor.GetValidationResults | src/editor.tsx:355-372 | one failure map per form, in order |
| Editor.EditorValidationAgrees | src/editor.tsx:355-372 | every form is validated as the single-segment editor validates it, except that userInput forms always pass |
| Editor.BlankLiteralBlocksConfirm | src/editor.tsx:122-131 | a form left blank after the add button blocks confirmation |
| Editor.RemoveAt | src/editor.tsx:94 | `splice(at, 1)` shortens the list by one when `at` is an index, and changes nothing otherwise |
| Editor.InsertAt | src/editor.tsx:403 | `splice(at, 0, x)` lengthens the list by one |
| Editor.Moved | src/editor.tsx:399-417 | a move keeps the length |
| Editor.ForwardMove | src/editor.tsx:400-407 | inserting after `to` and then removing at `from` is the move, when from < to |
| Editor.BackwardMove | src/editor.tsx:408-415 | removing at `from` and then inserting at `to` is the move, when from > to |
| Editor.MovedPlacement | src/editor.tsx:399-417 | the moved form lands at `to` and all the others keep their order |
| Editor.MovedIsPermutation | src/editor.tsx:399-417 | a move is a permutation |
| Editor.MovedInPlace | src/editor.tsx:399-417 | moving onto the same place changes nothing |
| Editor.MoveExamples | src/editor.tsx:399-417 | moving 2 to 4 in [A,B,C,D,E] gives [A,B,D,E,C], and moving 4 to 1 gives [A,E,B,C,D] |
| Editor.EditorDefaults | src/editor.tsx:419-452 | the form a type change installs starts with the kind's `type` |
| Editor.EditorDefaultsAgree | src/editor.tsx:419-452 | the five validated kinds get the single-segment editor's defaults, and every other kind gets only `{type}` |
| Editor.EditorDefaultsValidation | src/editor.tsx:419-452 | after a type change, the form fails confirmation exactly for literal and parameterValue |
| Editor.Submitted | src/editor.tsx:323-331 | an auto-increment submission always gets scope "plant" and its other fields as submitted; every other form is stored as submitted |
| Editor.CodeRuleEditor.constructor | src/editor.tsx:53-64 | starts with the decoded forms, focus 0, nothing modified and no failures |
| Editor.CodeRuleEditor.Click | src/editor.tsx:87-91 | focuses the clicked tile and changes nothing else |
| Editor.CodeRuleEditor.Remove | src/editor.tsx:92-102 | removes the form, lowers the focus by one exactly when it is at or after the removed index (with no clamp), and marks the editor modified |
| Editor.CodeRuleEditor.Insert | src/editor.tsx:122-131 | appends a blank literal, focuses it, and marks the editor modified; existing forms are unchanged |
| Editor.CodeRuleEditor.Move | src/editor.tsx:399-417 | for from != to, the list becomes the move, the focus goes to `to` and the editor is modified; from == to changes nothing at all |
| Editor.CodeRuleEditor.SubmitFocusedForm | src/editor.tsx:187-192 | only the focused form is replaced, with auto-increment forms given scope "plant", and the editor is modified |
| Editor.CodeRuleEditor.ChangeType | src/editor.tsx:419-458 | the focused form is replaced wholesale by the kind's defaults, and the editor is modified |
| Editor.CodeRuleEditor.Confirm | src/editor.tsx:374-397 | stores the per-form failures; submits the encoded forms and clears the modified flag exactly when all of them are empty; otherwise the flag is kept |
| CodeRuleView.Label | src/code-rule-view.tsx:42-54 | a segment other than a user input is captioned with its type's display name |
| CodeRuleView.Prompt | src/code-rule-view.tsx:44-47 | exactly user-input segments get a digit-count prompt |
| CodeRuleView.PromptOfLength | src/code-rule-view.tsx:46-47 | a user input's prompt is the digit count from its last `length` setting read as an integer, and "," when it has none |
| CodeRuleView.PromptOfIntegerLength | src/code-rule-view.tsx:46-47 | a last `length` setting denoting n, as a number or its decimal text, prompts with the decimal text of n |
| CodeRuleView.UserInputLabel | src/code-rule-view.tsx:44-54 | a user input's caption is its last non-empty `parameterName` setting, and without one it is the type name |
| CodeRuleView.LabelOfName | src/code-rule-view.tsx:44-54 | a user input is captioned by its parameter name when that is truthy, and by its type name otherwise |
| CodeRuleView.LabelIsTypeName | src/code-rule-view.tsx:54 | every other known kind's caption is `getCodeTypeName` of its type |
| CodeRuleView.Replaced | src/code-rule-view.tsx:92-100 | every `userInputValue` setting gets the value; every other setting, and the count and order, are unchanged |
| CodeRuleView.UserInputChange | src/code-rule-view.tsx:82-107 | an update is emitted exactly when there is a callback and the text is not longer than `length` in UTF-16 code units; the type and note are kept, and an existing `userInputValue` is replaced or a new one appended last |
| CodeRuleView.HasUserInputValue | src/code-rule-view.tsx:91 | `"userInputValue" in codeRuleMap` holds exactly when a setting has that name |
| CodeRuleView.LastNamedReplaced | src/code-rule-view.tsx:92-100 | replacing one name's values leaves the last setting of every other name as it was |
| CodeRuleView.ChangeReadsBack | src/code-rule-view.tsx:88-104 | after an accepted change, the segment's map reads the typed text, and every other key reads as before |
| CodeRuleView.LastNamedAfterChange | src/code-rule-view.tsx:91-103 | after a change, the last setting of each name is the typed value for `userInputValue` and is unchanged otherwise |
| CodeRuleView.ChangeRendersTyped | src/code-rule-view.tsx:82-107 | the editable content of the changed segment shows the typed text, padded with "_" |
| CodeRuleView.SecondChangeReplaces | src/code-rule-view.tsx:91-103 | a second change replaces the value the first one set, and the settings keep their count |
| SegmentPreview.RenderPreview | src/segment-preview.tsx:103-128 | a literal shows its content, the year always four digits, the day of year its own padding, the auto-increment its tile; unknown and userInput forms show the JSON fallback |
| SegmentPreview.PreviewAutoIncrement | src/segment-preview.tsx:172-174 | the auto-increment tile always ends in "1" |
| SegmentPreview.AutoIncrementPreviewShape | src/segment-preview.tsx:172-174 | with a length n and a one-character padding c, the tile is n - 1 copies of c and then "1" |
| SegmentPreview.AutoIncrementPreviewIgnoresStart | src/segment-preview.tsx:172-174 | editing `start` leaves the tile unchanged |
| SegmentPreview.YearPreviewIgnoresLength | src/segment-preview.tsx:146-148 | the year tile has four digits even when the form's length is 2 and the code shows two |
| SegmentPreview.PreviewDayOfYear | src/segment-preview.tsx:180-188 | the day-of-year tile pads "0" with the day number's digits used as the fill, so it is three wide and ends in "0" |
| SegmentPreview.DayOfYearPreviewExample | src/segment-preview.tsx:180-188 | day 45 shows as "450" on the tile, where the code shows "045" |
| SegmentPreview.DropHint | src/segment-preview.tsx:130-136 | a marker is drawn on the target tile exactly when the dragged tile is another one, on the left exactly when it comes from further right |
| SegmentPreview.DropHintMatchesMove | src/segment-preview.tsx:130-136 | the marker's side is where the move puts the dragged form, and no marker means the move changes nothing |
| TypesDropdown.Rank | src/types-dropdown.tsx:21-33 | each kind has a place in the select's fixed list |
| TypesDropdown.AllTypesRanked | src/types-dropdown.tsx:21-33 | the fixed list holds each kind at its own place |
| TypesDropdown.Without | src/types-dropdown.tsx:54 | the filter keeps exactly the listed kinds that are not excluded |
| TypesDropdown.WithoutKeepsOrder | src/types-dropdown.tsx:54 | the filter keeps the list's order |
| TypesDropdown.WithoutOne | src/types-dropdown.tsx:54 | excluding one kind from a list without repeats removes one entry if the kind is listed, and none otherwise |
| TypesDropdown.Offered | src/types-dropdown.tsx:53-55 | a kind is offered exactly when it is not excluded |
| TypesDropdown.OfferedInOrder | src/types-dropdown.tsx:53-55 | the options follow the fixed order, so no kind is offered twice |
| TypesDropdown.NothingExcluded | src/types-dropdown.tsx:53-55 | with no exclusions, all eleven kinds are offered in declared order |
| TypesDropdown.EditorOptions | src/editor.tsx:186 | the multi-segment editor's forms offer the other ten kinds and never userInput |

## Left out

- Last: an astral last character is kept whole. lodash `last` indexes UTF-16 code units and returns the character's low surrogate alone, which a Dafny string, made of Unicode scalar values, cannot hold.
- PaddingInput: keeps an astral last character whole, for the same reason as Last; lodash keeps a lone surrogate.
- PadStart and PadEnd: count one character per Unicode scalar value. lodash groups a combining mark, a variation selector or a zero-width-joiner sequence with the character before it, and those groupings are not modelled.
- The single editor's submit path for the auto-increment form, which sets `scope` to "plant" before resubmitting (src/single-editor.tsx:315-322), is not modelled. Only its confirmation and type change are; the multi-segment editor's equivalent is `Editor.Submitted`.
- `validationMethods.digital` is not modelled. It depends on `parseFloat` and `String` round-tripping floating-point numbers.
- Floating point is not modelled. Numbers are integers. `Number()` accepts only decimal integers, optionally signed and surrounded by white space, and every other string is NaN here. This leaves out decimals, exponents, hexadecimal and `Infinity`.
- decimal.js is modelled as exact integer arithmetic. Its conversion back to a float with `toNumber()` is not modelled, and its refusal of a non-numeric operand is the `None` result.
- The clock is not modelled. `dayjs()` and `moment()` are replaced by an injected calendar, and week numbering and the weekday convention are taken as given.
- The locale tables and `mesonUseZh`/`mesonUseEn` are not modelled. A message is the name of its `lang` entry, with any `{n}` argument kept alongside it. Display names are taken to exist for exactly the eleven kinds.
- The `JSON.stringify(form)` fallback is an opaque `Stringified(form)` result; its text is not modelled.
- JSX, styling, the antd widgets and the `LabeledField*` components are not modelled. Neither are the modal, the input and textarea items, or the example pages.
- The render-time choice between the parent's `validationInfo` and the single editor's own `failures` is not modelled.
- The drag mechanics are not modelled: `dataTransfer`, drag images, and the `movingPosition` and `droppingPosition` fields of the editor state. `DropHint` takes the marker values as inputs, and only the resulting move is a method.
- The month, dayOfYear and weekOfYear forms call `onSubmit({type})` right after `onChangeType`; in the host editors this can overwrite the defaults just installed. This is React event ordering and is not modelled. The year form's delegation of a type change is plain wiring and is not modelled either.
- `setState` is asynchronous and immer's `produce` copies on write; both are modelled as immediate updates.
- lodash `merge` is modelled for flat objects only. JavaScript's key ordering for integer-like keys is not modelled.
- Editor.CodeRuleEditor.Move: requires both indices to be those of existing forms. The source receives them from rendered tiles, and an index read from a foreign drag is not modelled.
- Editor.CodeRuleEditor.SubmitFocusedForm: requires the focused index to hold a form that is shown with an editing form. Only such a form's editing form can submit, so a focus of -1 after a removal never reaches it.
- Editor.CodeRuleEditor.ChangeType: requires the same as SubmitFocusedForm, for the same reason.
- AutoIncrementForm.ValidateAutoIncrementForm: the `start` message carries the bound as a number. The `${}` text of very large bounds, which switches to exponent notation, is not modelled.
- SequenceRule.RenderLiteral and SequenceRule.RenderParameterValue: these are the literal and `${name}` renderers. Each is a single expression with no contract of its own, and the length lemmas above use them.

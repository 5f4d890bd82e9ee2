# FormBuilder core, modelled in Dafny

FormBuilder renders data-entry forms from a declarative JSON schema. The
schema lists fields: text, textarea, time, date, radio, dropdown,
checkbox, file and button groups. Each field may carry validation rules:
mandatory, pattern, min/max length, must-be-true and an error-message
override. A schema may instead be split into steps that a wizard walks
through, ending in a review page. This project models the logic under
those screens and proves what it promises:

- `Validation`: the field validator. It runs the checks in a fixed order
  and reports the first failing one's message. It also builds the error
  map the forms keep.
- `DynamicForm`: the single-page form. It normalises the schema's field
  list and instructions, translates error codes and stores a change. On a
  change it recomputes the start/stop duration. It also validates a
  whole form and gates the SAVE_DRAFT, SUBMIT and NEXT actions on it. The
  form is a class whose `formData` and `errors` the methods update.
- `StepperFormUI`: the wizard, as a class over its state:
  - the active step index;
  - the data committed per step;
  - the live data of the current step;
  - the validation errors and the submitted flag.

  Next, Back, Submit, the debounced re-validation and the merge of the
  committed data are methods proved against specification functions.
- `TextField`: the as-you-type rewriting of full names, phone numbers
  and dates.
- `ReviewPage`: the per-step sections of the review page and the text
  each value is shown as.
- `JsValue`, `Records`, `FormTypes`, `FormJson`, `Wrappers`: JavaScript
  values, truthiness and `String(...)`, insertion-ordered records
  (`{ ...prev, [k]: v }`), the schema types, and the built-in KYC schema.

Regular-expression matching is a parameter `matches(pattern, text)` of
type `Matcher`. Translation is the identity on the default text.

## Model

| member | source | states |
|---|---|---|
| Validation.ValidateField | src/components/Form/utils/validation.ts:3-71 | no contract of its own: the validator as written, mandatory, time, pattern, min, max, must-be-true in turn; ValidateFieldIsFirstFailure, FirstFailureSpec and ValidIffNoCheckFails state what it returns |
| Validation.ValidateFieldIsFirstFailure | src/components/Form/utils/validation.ts:3-71 | the validator returns the message of the first check, in source order, that rejects the value, and "" when none does |
| Validation.RuleChecksAreChain | src/components/Form/utils/validation.ts:40-70 | once the mandatory and time checks pass, the validator is the ordered chain of the pattern, min-length, max-length and must-be-true checks |
| Validation.FirstFailureSpec | src/components/Form/utils/validation.ts:3-71 | a check chain reports "" exactly when no check fails, and otherwise the message of the earliest failing check, with no failing check before it |
| Validation.ValidIffNoCheckFails | src/components/Form/utils/validation.ts:3-71 | a value is valid exactly when none of the checks rejects it |
| Validation.FirstFailingCheckWins | src/components/Form/utils/validation.ts:3-71 | when check i is the first to fail, the result is check i's message whatever later checks say |
| Validation.Message | src/components/Form/utils/validation.ts:5-68 | every check reports a non-empty message |
| Validation.MandatoryMissing | src/components/Form/utils/validation.ts:5-14 | a mandatory field holding undefined, null, "" or false fails with "This field is required" or the field's override |
| Validation.OptionalEmptyPasses | src/components/Form/utils/validation.ts:5-68 | an optional field left empty passes every check except must-be-true |
| Validation.TimeChecks | src/components/Form/utils/validation.ts:17-37 | on a time field, mandatory or not, a truthy value that is not a string reports "Invalid time". One not shaped HH:MM reports "Invalid time format". One with hours over 23 or minutes over 59 reports "Invalid time". A valid clock time with no rules passes |
| Validation.PatternCheck | src/components/Form/utils/validation.ts:40-45 | a truthy value the pattern rejects fails with "Invalid format" or the override; a value the pattern accepts goes on to the length checks |
| Validation.LengthMessages | src/components/Form/utils/validation.ts:48-63 | a non-empty string that passes the time and pattern checks and is too short or too long reports "Minimum N characters required" / "Maximum N characters allowed", ignoring the field's error message |
| Validation.ZeroBoundDisabled | src/components/Form/utils/validation.ts:48-63 | a minimum of 0, or a maximum of 0, is falsy and that check never fails, whatever the other bound |
| Validation.MustBeTrueCheck | src/components/Form/utils/validation.ts:66-68 | once earlier checks pass, must-be-true accepts exactly the value `true` and otherwise reports "This must be checked" or the override |
| Validation.ErrorsOf | src/components/Form/DynamicForm.tsx:299-316 | no contract of its own: the error map of a field list, later fields overwriting earlier ones; ErrorsOfSnoc, ErrorsOfKeys, ErrorsOfValues and ErrorsOfEmpty state its keys and messages |
| Validation.ErrorsOfSnoc | src/components/Form/DynamicForm.tsx:299-316 | validating one more field adds its id with its message when it fails and changes nothing otherwise |
| Validation.ErrorsOfKeys | src/components/Form/DynamicForm.tsx:299-316 | the error map's keys are exactly the ids of failing fields |
| Validation.ErrorsOfValues | src/components/Form/DynamicForm.tsx:299-316 | each entry holds the non-empty message of the last failing field with that id |
| Validation.ErrorsOfEmpty | src/components/Form/DynamicForm.tsx:299-316 | the error map is empty exactly when every field validates |
| FormJson.FullNameTooShort | src/data/formJson.ts:34-47 | "Jo" in the full-name field reports "Minimum 3 characters required" |
| FormJson.FullNameEmpty | src/data/formJson.ts:34-47 | an empty full name reports the field's own message through the mandatory check |
| FormJson.FullNameRejected | src/data/formJson.ts:34-47 | a name the pattern rejects reports the field's own message |
| FormJson.MinimumThreeText | src/data/formJson.ts:34-47 | the full name's minimum-length message reads "Minimum 3 characters required" |
| FormJson.StartTimeOutOfRange | src/data/formJson.ts:75-81 | "25:00" and "12:60" are invalid start times |
| FormJson.StartTimeExamples | src/data/formJson.ts:75-81 | "12" has an invalid format, the number 123 is an invalid time, and "23:59" is valid |
| FormJson.AgreeTermsExamples | src/data/formJson.ts:111-121 | the terms box accepts only `true` and otherwise reports "You must agree before submitting" |
| FormTypes.FieldEntries | src/components/Form/DynamicForm.tsx:109-111 | the filter never lengthens the list, and a field is kept iff it occurs as a field object among the entries |
| FormTypes.FieldObjects | src/components/Form/DynamicForm.tsx:109-111 | the normalised fields are exactly the field objects of an array; a non-array gives none |
| FormTypes.FieldEntriesOfObjects | src/components/Form/DynamicForm.tsx:109-111 | a list of field objects is kept whole and in order |
| FormTypes.FieldEntriesAppend | src/components/Form/DynamicForm.tsx:109-111 | the filter keeps order: it distributes over concatenation |
| Records.PutSpec | src/components/StepperFormUI.tsx:128-133 | assigning a key keeps keys distinct, stores the value, leaves every other key and position alone, and appends only a new key |
| JsValue.NatToString | src/components/Form/DynamicForm.tsx:152-154 | a rendered count is a non-empty digit string with no leading zero |
| JsValue.NatToStringRoundTrip | src/components/Form/DynamicForm.tsx:152-154 | reading a rendered count back gives the count |
| JsValue.Before | src/components/Form/DynamicForm.tsx:76-78 | the text before the first separator is a separator-free prefix that stops at the separator |
| JsValue.BeforeAfterRoundTrip | src/components/Form/DynamicForm.tsx:76-78 | the text before and after the first separator, rejoined with it, is the original |
| JsValue.BeforeIsPrefix | src/components/Form/DynamicForm.tsx:76-78 | a separator-free prefix is passed over by the search for the separator |
| JsValue.SplitOn | src/components/Form/fields/TextField.tsx:48 | splitting gives at least one piece, the first is the text before the separator, and no piece holds it |
| JsValue.SplitJoinRoundTrip | src/components/Form/fields/TextField.tsx:48 | joining the pieces of a split with the separator gives the string back |
| DynamicForm.NormalizeFields | src/components/Form/DynamicForm.tsx:106-111 | the form's fields are the field objects of `fields`, or of the first step's when `fields` is missing; a non-array gives none |
| DynamicForm.ActiveSchema | src/components/Form/DynamicForm.tsx:62 | no contract of its own: the given schema, else the built-in one; DefaultSchemaFields states what the built-in one yields |
| DynamicForm.RawFieldList | src/components/Form/DynamicForm.tsx:106-108 | no contract of its own: the schema's field list, else its first step's; NormalizeFields and FieldsFallBackToFirstStep state the result |
| DynamicForm.DefaultSchemaFields | src/components/Form/DynamicForm.tsx:62-111 | without a schema the form shows the built-in KYC form's ten fields and four instructions, in order |
| DynamicForm.FieldsFallBackToFirstStep | src/components/Form/DynamicForm.tsx:106-108 | a schema without `fields` uses its first step's field list |
| DynamicForm.NormalizeInstructions | src/components/Form/DynamicForm.tsx:100-104 | no contract of its own: an array kept, one instruction wrapped, none otherwise; InstructionsShown and DefaultSchemaFields state its result |
| DynamicForm.InstructionsShown | src/components/Form/DynamicForm.tsx:100-104 | an instruction is shown iff it is the single configured instruction or an element of the configured array; a non-array gives at most one, a missing value none; normalising again is the identity |
| DynamicForm.TranslateError | src/components/Form/DynamicForm.tsx:71-98 | an empty message stays empty, and a message without '|' is returned unchanged |
| DynamicForm.ParseCode | src/components/Form/DynamicForm.tsx:76-78 | a code `key\|param…` splits back into its key and its parameter |
| DynamicForm.TranslateParamCode | src/components/Form/DynamicForm.tsx:71-98 | a known key with a parameter gives that key's text with the parameter filled in; an unknown key gives the key itself |
| DynamicForm.DurationText | src/components/Form/DynamicForm.tsx:141-155 | requires both times in HH:MM shape, no other contract; DurationOfClockTimes, DayDurationExample and OvernightDurationExample state the text |
| DynamicForm.DurationOfClockTimes | src/components/Form/DynamicForm.tsx:142-155 | for two valid times the duration reads "<h>h <m>m" with h ≤ 23, m ≤ 59, and 60h+m equal to stop minus start modulo a day |
| DynamicForm.DayDurationExample | src/components/Form/DynamicForm.tsx:142-155 | 09:00 to 17:30 gives "8h 30m" |
| DynamicForm.OvernightDurationExample | src/components/Form/DynamicForm.tsx:142-155 | 22:00 to 06:00 wraps past midnight to "8h 0m" |
| DynamicForm.Validatable | src/components/Form/DynamicForm.tsx:301-304 | validation looks at exactly the fields that are not button groups |
| DynamicForm.ValidatableSnoc | src/components/Form/DynamicForm.tsx:301-304 | the skipped button groups keep the other fields in order |
| DynamicForm.ButtonGroupsNeverFlagged | src/components/Form/DynamicForm.tsx:301-304 | an id carried only by button groups never appears in the error map |
| DynamicForm.Form.constructor | src/components/Form/DynamicForm.tsx:60-111 | a new form holds the normalised fields and instructions, the initial data or {}, and the given errors or {} |
| DynamicForm.Form.HandleChange | src/components/Form/DynamicForm.tsx:133-160 | the changed key holds the new value and the other keys are kept, except the duration. When start or stop changes and both are set, the duration is recomputed; otherwise it is untouched, present exactly when it was before (unless it is the changed key). The field's error is cleared |
| DynamicForm.Form.RunValidation | src/components/Form/DynamicForm.tsx:299-316 | the errors become the error map of the non-button-group fields, and the result is true exactly when that map is non-empty |
| DynamicForm.Form.HandleAction | src/components/Form/DynamicForm.tsx:319-341 | SAVE_DRAFT, SUBMIT and NEXT are blocked exactly when some field fails. Other actions leave the errors alone. An unblocked action goes to `onAction` when one is supplied. Otherwise a draft is saved, a submit starts, or nothing happens |
| StepperFormUI.ValidSteps | src/components/StepperFormUI.tsx:20-21 | the valid steps are exactly the non-null steps with a non-empty id, in order |
| StepperFormUI.ValidStepsAppend | src/components/StepperFormUI.tsx:20-21 | the filter keeps the configured order |
| StepperFormUI.GetValidSteps | src/components/StepperFormUI.tsx:20-21 | a missing or falsy list gives no steps; a truthy non-array throws; otherwise the valid steps, each with an id |
| StepperFormUI.SafeStepIndex | src/components/StepperFormUI.tsx:35 | the index is clamped to the last step, and is 0 with no steps |
| StepperFormUI.Aggregate | src/components/StepperFormUI.tsx:84-90 | no contract of its own: the merge of the committed steps in order; AggregateKeys, AggregateLastWins and FirstCommitAgrees state it, and AggregatedData computes it by a loop |
| StepperFormUI.AggregateKeys | src/components/StepperFormUI.tsx:84-90 | the merged data holds exactly the keys of the committed steps |
| StepperFormUI.AggregateLastWins | src/components/StepperFormUI.tsx:84-90 | a key takes its value from the last committed step holding it |
| StepperFormUI.FirstCommitAgrees | src/components/StepperFormUI.tsx:155-171 | on a step's first commit, the data handleSubmit logs (pre-commit merge) equals the data the success screen shows (post-commit merge) |
| StepperFormUI.Filled | src/components/StepperFormUI.tsx:66-72 | the debounced check looks at exactly the step's fields whose value is set |
| StepperFormUI.FilledSnoc | src/components/StepperFormUI.tsx:66-72 | the set fields keep their order |
| StepperFormUI.FilledErrors | src/components/StepperFormUI.tsx:65-74 | the debounced loop builds exactly the error map of the step's set fields |
| StepperFormUI.BlankNeverFlagged | src/components/StepperFormUI.tsx:65-74 | the debounced check never flags a field that is still empty |
| StepperFormUI.Stepper.ActiveStep | src/components/StepperFormUI.tsx:35-36 | the active step is one of the steps, and exists whenever there are steps |
| StepperFormUI.Stepper.constructor | src/components/StepperFormUI.tsx:25-33 | the wizard starts on step 0 with no committed data, no live data, no errors and not submitted |
| StepperFormUI.Stepper.ValidateCurrentStep | src/components/StepperFormUI.tsx:103-121 | a step without fields passes and keeps its errors. Otherwise the errors become the step's error map, which is empty exactly when the result is true. The result is true exactly when every field of the step validates |
| StepperFormUI.Stepper.Next | src/components/StepperFormUI.tsx:123-140 | (NextEffect) a failing step keeps the index, committed and live data. A passing step commits its live data under its id and moves one step on when not last, clearing the live data and the errors. When the index stays, the errors are the step's validation result (unchanged for a step without fields), empty when the step passed |
| StepperFormUI.Stepper.Back | src/components/StepperFormUI.tsx:142-148 | from any step but the first, move back one step and clear live data and errors; committed data is kept |
| StepperFormUI.Stepper.Submit | src/components/StepperFormUI.tsx:150-164 | (SubmitEffect) index and live data stay. A passing active step is committed and marked submitted, and the reported data is the pre-commit merge overlaid with the live data; otherwise nothing is reported or committed. The errors are the step's validation result (unchanged without an active step or fields), empty when data is reported |
| StepperFormUI.Stepper.Commit | src/components/StepperFormUI.tsx:128-133 | the committed data gains or replaces the step's entry |
| StepperFormUI.Stepper.AggregatedData | src/components/StepperFormUI.tsx:84-90 | the merge loop computes the merge of every committed step, holding exactly their keys |
| StepperFormUI.Stepper.DebouncedValidate | src/components/StepperFormUI.tsx:53-76 | with no live data or no fields the errors are kept. Otherwise they become the error map of the step's set fields |
| StepperFormUI.Stepper.SetFormDataRef | src/components/StepperFormUI.tsx:254 | the live data becomes what the step form reports |
| StepperFormUI.Stepper.AcceptTerms | src/components/StepperFormUI.tsx:237 | the live data records `termsAccepted` and keeps everything else |
| StepperFormUI.Stepper.PressPrimary | src/components/StepperFormUI.tsx:166-277 | on the last step the primary button has exactly Submit's effect; elsewhere it has exactly Next's effect and reports nothing; so the wizard only becomes submitted from the last step |
| TextField.KeepChars | src/components/Form/fields/TextField.tsx:32-42 | the result holds only accepted characters, is a subsequence of the input, keeps every accepted character as often as the input has it, never lengthens, and leaves an all-accepted string alone |
| TextField.KeepCharsUnique | src/components/Form/fields/TextField.tsx:32-42 | KeepChars's contract pins its result down: any subsequence of the input made of accepted characters that keeps every accepted character is the filtered string |
| TextField.KeepCharsAppend | src/components/Form/fields/TextField.tsx:32-42 | filtering distributes over concatenation |
| TextField.SanitizeFullName | src/components/Form/fields/TextField.tsx:32-35 | the full name is the subsequence of the input's letters and spaces: only letters and spaces, every one of them kept as often as typed, in order; an already clean name is unchanged |
| TextField.SanitizeFullNameIdempotent | src/components/Form/fields/TextField.tsx:32-35 | sanitising twice equals sanitising once |
| TextField.FullNameExample | src/components/__test__/TextField.test.tsx:57-71 | "John123@ Doe!" becomes "John Doe" |
| TextField.Digits | src/components/Form/fields/TextField.tsx:39-42 | the phone filter is the subsequence of the input's digits: only digits, every one of them kept as often as typed, in order; an all-digit string is unchanged |
| TextField.SanitizePhone | src/components/Form/fields/TextField.tsx:39-42 | the phone number is the first ten digits of the input, or all of them when there are fewer |
| TextField.SanitizePhoneIdempotent | src/components/Form/fields/TextField.tsx:39-42 | sanitising twice equals sanitising once |
| TextField.PhoneExample | src/components/__test__/TextField.test.tsx:73-87 | "12345abc67890" becomes "1234567890" |
| TextField.LimitYear | src/components/Form/fields/TextField.tsx:46-54 | no contract of its own: the date rewrite; LimitYearCutsYear, LimitYearSpec and LimitYearIdempotent state its result |
| TextField.LimitYearCutsYear | src/components/Form/fields/TextField.tsx:46-54 | after the rewrite the text before the first "-" has at most four characters |
| TextField.LimitYearSpec | src/components/Form/fields/TextField.tsx:46-54 | after the rewrite the year has at most four characters. A year of four or fewer leaves the value alone. A long year in YYYYY-MM-DD is cut to four and keeps month and day |
| TextField.LimitYearIdempotent | src/components/Form/fields/TextField.tsx:46-54 | rewriting twice equals rewriting once |
| TextField.HandleValueChange | src/components/Form/fields/TextField.tsx:30-58 | fullName is name-sanitised and phone is digit-limited. A date value has its year limited. Everything else passes through |
| TextField.HandleValueChangeIdempotent | src/components/Form/fields/TextField.tsx:30-58 | feeding the rewritten value back changes nothing |
| ReviewPage.NonReviewSteps | src/components/ReviewPage.tsx:34 | the listed steps are exactly the non-null steps other than "review", in order |
| ReviewPage.ReviewSteps | src/components/ReviewPage.tsx:34 | a missing or falsy list gives no steps; a truthy non-array throws |
| ReviewPage.StepEntries | src/components/ReviewPage.tsx:38 | a truthy non-array field list throws |
| ReviewPage.StepData | src/components/ReviewPage.tsx:38-48 | a step record fails only with a TypeError |
| ReviewPage.StepDataSpec | src/components/ReviewPage.tsx:38-48 | a step's record is built exactly when no entry is null. Its keys are distinct, and each key's value is a set value of the data |
| ReviewPage.Sections | src/components/ReviewPage.tsx:26-61 | the page fails only with a TypeError |
| ReviewPage.ReviewSectionsOf | src/components/ReviewPage.tsx:26-61 | no contract of its own: the review sections of the schema's steps; SectionsSpec, SectionShownIffValueSet, NoReviewSection and SectionsErrSticks state them, and ReviewSections computes them by a loop |
| ReviewPage.SectionsSpec | src/components/ReviewPage.tsx:26-61 | every section comes from a listed step, under its name and id, with a non-empty record |
| ReviewPage.SectionShownIffValueSet | src/components/ReviewPage.tsx:50-56 | one more step adds a section exactly when its record is non-empty |
| ReviewPage.NoReviewSection | src/components/ReviewPage.tsx:34 | the review step itself never forms a section |
| ReviewPage.ReviewSections | src/components/ReviewPage.tsx:26-61 | the step-by-step loop computes the page's sections |
| ReviewPage.CollectStepData | src/components/ReviewPage.tsx:38-48 | the field-by-field loop computes the step's record |
| ReviewPage.StepDataErrSticks | src/components/ReviewPage.tsx:38-48 | once an entry throws, the step's record is an error whatever follows |
| ReviewPage.SectionsErrSticks | src/components/ReviewPage.tsx:26-61 | once a step throws, the page is an error whatever follows |
| ReviewPage.FindOption | src/components/ReviewPage.tsx:82 | the found option is the first whose value equals the value; none is found exactly when no option carries it |
| ReviewPage.FormatValue | src/components/ReviewPage.tsx:64-99 | no contract of its own: the display text of a value; ArraysJoinedFirst, FileNamesJoined, NamedFileText, ChoiceShowsLabel, ChoiceFallsBackToString, SingleFileText, CheckboxYesNo and OtherTypesShowString state it case by case |
| ReviewPage.ArraysJoinedFirst | src/components/ReviewPage.tsx:65-79 | an array of strings is joined with ", " whatever the field type other than file |
| ReviewPage.FileNamesJoined | src/components/ReviewPage.tsx:65-79 | an array of named files shows the names joined with ", " |
| ReviewPage.NamedFileText | src/components/ReviewPage.tsx:68-75 | a file object with a non-empty name shows that name |
| ReviewPage.ChoiceShowsLabel | src/components/ReviewPage.tsx:81-84 | a radio or dropdown value shows its option's label |
| ReviewPage.ChoiceFallsBackToString | src/components/ReviewPage.tsx:81-84 | a value no option carries shows as its string |
| ReviewPage.SingleFileText | src/components/ReviewPage.tsx:86-91 | a single file shows its name. Without one it shows "File uploaded" when the value is truthy and "No file" otherwise |
| ReviewPage.CheckboxYesNo | src/components/ReviewPage.tsx:93-95 | a checkbox shows "Yes" exactly when its value is truthy and "No" otherwise |
| ReviewPage.OtherTypesShowString | src/components/ReviewPage.tsx:98 | every other field, and a value with no field, shows `String(value)` |

## Left out

- React rendering, MUI components, dialogs and the effects that sync props into state are not modelled. DynamicForm.tsx:114-130 is one such effect. The effect at StepperFormUI.tsx:48-50 clears only the validation errors when the step index changes; it is folded into Next and Back, which change the index. The live data is reset by handleNext and handleBack themselves, not by that effect.
- The 500 ms `setTimeout` debounce is not modelled. DebouncedValidate is the body the timer eventually runs.
- DynamicForm's `handleSubmit` (DynamicForm.tsx:344-366) is not modelled. It runs the same validation as RunValidation and stops on an error. Otherwise it logs the data, waits on a simulated call, shows a success alert, may redirect the browser to the schema's redirect URL, and opens an error dialog if anything throws. All of that is I/O.
- ValidateField: min/max lengths count characters of a `seq<char>`, not JavaScript's UTF-16 code units. A string with characters outside the Basic Multilingual Plane is longer in JavaScript ("😀😀" has `length` 4 there and 2 here), so a length bound near such a string can pass or fail differently.
- Translation is not modelled: `t` returns its default text, and labels stay untranslated.
- Regular-expression matching is a parameter: the `Matcher` stands for `new RegExp(p).test(s)`. An invalid pattern, which would throw, is not modelled.
- Numbers are integers. NaN, infinities and fractions are not modelled, nor `Number()` on text.
- DynamicForm.Form.HandleChange: requires that a start/stop change, with both times set, has both as exactly two-digit HH:MM strings. Other text is not modelled: neither text the source computes normally, such as "9:05" (9·60+5 minutes) or "09:00:00" (only the first two pieces are read), nor text that gives NaN. Non-string values, on which `.split` throws a TypeError, are not modelled either.
- JavaScript's ordering of integer-like keys in objects is not modelled. Records keep plain insertion order.
- The wizard's steps are a constructor parameter: any list of valid steps, as GetValidSteps yields from a schema. The built-in form has no steps, so on it the list is empty. The TypeError that a truthy non-array step list throws is the `Err` of GetValidSteps, not a state of the wizard.
- ReviewPage reads its steps from a parameter standing for the global `formJson.steps`.
- FileField, SuccessScreen and the pass-through field components are not modelled. The schema's `placeholder`, `buttons` and `formMeta` attributes are not modelled either, since the core never reads them.
- TextField.HandleValueChange: takes an `isDate` flag in place of the component's `type` prop or `field.type` being "date".
- `LengthOf` reads an object's `length` only when it is a number and otherwise reports none. JavaScript reads any `length` property and the comparison then coerces it (a string "3" compares as 3); the model does not follow that coercion.
- The examples in the test files that do not match the validator are not modelled: the validator's behaviour as written is what the model proves.

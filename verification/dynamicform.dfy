/** The single-form orchestrator: normalises the schema's field and
    instruction lists, turns parameterised error codes into messages, keeps
    the value map and error map of one form, derives the duration between
    a start and a stop time, and gates actions on validation. */
module DynamicForm {
  import opened Wrappers
  import opened JsValue
  import opened FormTypes
  import opened Validation
  import FormJson

  // ---------------------------------------------------------------------
  // Schema normalisation.

  /** `schema ?? formJson`. */
  function ActiveSchema(schema: Option<Schema>): Schema {
    schema.GetOr(FormJson.Schema)
  }

  /** `activeSchema?.fields ?? activeSchema?.steps?.[0]?.fields`. */
  function RawFieldList(s: Schema): RawArray<RawField> {
    if !s.fields.Absent? then s.fields
    else if s.steps.Items? && |s.steps.items| > 0 && s.steps.items[0].StepObject? then s.steps.items[0].step.fields
    else Absent
  }

  /** The fields the form renders: the field objects of the schema's own
      list, or of the first step's list when the schema has none, in order;
      a list that is not an array gives no fields. */
  function NormalizeFields(s: Schema): (fs: seq<Field>)
    ensures s.fields.Items? ==> fs == FieldEntries(s.fields.items)
    ensures s.fields.NonArray? ==> fs == []
    ensures forall f :: f in fs <==> RawFieldList(s).Items? && FieldObject(f) in RawFieldList(s).items
  {
    FieldObjects(RawFieldList(s))
  }

  /** Without a schema the form shows the built-in KYC form's ten fields and
      four instructions. */
  lemma DefaultSchemaFields()
    ensures NormalizeFields(ActiveSchema(None)) == FormJson.Fields
    ensures NormalizeInstructions(ActiveSchema(None).instructions) == FormJson.Instructions
  {
    FieldEntriesOfObjects(FormJson.Fields);
    assert ActiveSchema(None).instructions == InstructionArray(FormJson.Instructions);
  }

  /** Without a field list of its own, the schema uses its first step's. */
  lemma FieldsFallBackToFirstStep(s: Schema, step: FormStep, rest: seq<RawStep>)
    requires s.fields.Absent? && s.steps == Items([StepObject(step)] + rest)
    ensures NormalizeFields(s) == FieldObjects(step.fields)
  {
  }

  /** `Array.isArray(i) ? i : i ? [i] : []`. */
  function NormalizeInstructions(r: RawInstructions): seq<Instruction> {
    match r
    case InstructionArray(l) => l
    case OneInstruction(i) => [i]
    case NoInstructions => []
  }

  /** The form shows exactly the configured instructions: an instruction is
      listed iff it is the single one configured or an element of the
      configured array; only an array can give more than one; and
      normalising the normalised list again changes nothing. */
  lemma InstructionsShown(r: RawInstructions)
    ensures forall i :: i in NormalizeInstructions(r) <==>
      r == OneInstruction(i) || (r.InstructionArray? && i in r.list)
    ensures !r.InstructionArray? ==> |NormalizeInstructions(r)| <= 1
    ensures NormalizeInstructions(InstructionArray(NormalizeInstructions(r))) == NormalizeInstructions(r)
  {
  }

  // ---------------------------------------------------------------------
  // Error-code translation ("key|param1,param2").

  /** The five keys that carry a parameter, and their default texts. */
  function ParamMessage(key: string, param: string): Option<string> {
    if key == "validation.minLength" then Some("Minimum " + param + " characters required")
    else if key == "validation.maxLength" then Some("Maximum " + param + " characters allowed")
    else if key == "validation.maxFilesExceeded" then Some("Maximum " + param + " files allowed")
    else if key == "validation.fileSizeExceeded" then Some("File size exceeds " + param + "MB limit")
    else if key == "validation.fileTypeNotAllowed" then Some("File type not allowed. Allowed types: " + param)
    else None
  }

  /** `translateError`, with the translator returning its default value: a
      code holding `|` is split into the key before the first `|` and the
      first comma-separated parameter after it; one of the five known keys
      gives its parameterised text, anything else translates to itself. */
  function TranslateError(msg: string): (r: string)
    ensures msg == "" ==> r == ""
    ensures '|' !in msg ==> r == msg
  {
    if msg == "" then ""
    else if '|' in msg then
      var key := Before(msg, '|');
      var param := Before(Before(After(msg, '|'), '|'), ',');
      var text := ParamMessage(key, param);
      if text.Some? then text.value else msg
    else msg
  }

  /** The code `key|param<more>` splits back into `key` and `param`, whatever
      further parameters follow. */
  lemma {:induction false} ParseCode(key: string, param: string, more: string)
    requires '|' !in key && '|' !in param && ',' !in param
    requires more == [] || more[0] == ',' || more[0] == '|'
    ensures '|' in key + "|" + param + more
    ensures Before(key + "|" + param + more, '|') == key
    ensures Before(Before(After(key + "|" + param + more, '|'), '|'), ',') == param
  {
    var msg := key + "|" + param + more;
    assert msg == key + ("|" + param + more);
    assert msg[|key|] == '|';
    BeforeIsPrefix(key, "|" + param + more, '|');
    assert After(msg, '|') == param + more;
    BeforeIsPrefix(param, more, '|');
    var rest := Before(more, '|');
    if more != [] && more[0] == ',' {
      assert rest[0] == ',';
      BeforeIsPrefix(param, rest, ',');
    } else {
      assert rest == [];
      assert param + rest == param;
      BeforeIsPrefix(param, [], ',');
      assert param + [] == param;
    }
  }

  /** Building a code from a key and a parameter and translating it gives the
      key's text with that parameter when the key is one of the five, and the
      code itself otherwise. */
  lemma TranslateParamCode(key: string, param: string, more: string)
    requires '|' !in key && '|' !in param && ',' !in param
    requires more == [] || more[0] == ',' || more[0] == '|'
    ensures ParamMessage(key, param).Some? ==>
      TranslateError(key + "|" + param + more) == ParamMessage(key, param).value
    ensures ParamMessage(key, param).None? ==>
      TranslateError(key + "|" + param + more) == key + "|" + param + more
  {
    ParseCode(key, param, more);
  }

  // ---------------------------------------------------------------------
  // Duration between a start and a stop time.

  const MinutesPerDay := 1440

  function TotalMinutes(s: string): nat
    requires IsTimeShape(s)
  {
    HoursOf(s) * 60 + MinutesOf(s)
  }

  /** JavaScript's `%`: the remainder takes the sign of the dividend. */
  function JsRemainder(a: int, b: int): int
    requires b > 0
  {
    if a >= 0 then a % b else -((-a) % b)
  }

  /** The `calculatedTime` text for two HH:MM strings, computed as the
      handler does: the stop-minus-start difference, one day added when it is
      negative, then `Math.floor(diff / 60)` hours and `diff % 60` minutes
      (Dafny's `/` by a positive divisor is floor division). */
  function DurationText(start: string, stop: string): string
    requires IsTimeShape(start) && IsTimeShape(stop)
  {
    var diff0 := TotalMinutes(stop) - TotalMinutes(start);
    var diff := if diff0 < 0 then diff0 + MinutesPerDay else diff0;
    IntToString(diff / 60) + "h " + IntToString(JsRemainder(diff, 60)) + "m"
  }

  /** For two times of day the text is "<h>h <m>m" with h in 0..23 and m in
      0..59, and h hours m minutes is the time from start to stop modulo a
      day. */
  lemma DurationOfClockTimes(start: string, stop: string)
    requires IsClockTime(start) && IsClockTime(stop)
    ensures exists h: nat, m: nat :: (h <= 23 && m <= 59
      && DurationText(start, stop) == NatToString(h) + "h " + NatToString(m) + "m"
      && (60 * h + m - (TotalMinutes(stop) - TotalMinutes(start))) % MinutesPerDay == 0)
  {
    var diff0 := TotalMinutes(stop) - TotalMinutes(start);
    var diff := if diff0 < 0 then diff0 + MinutesPerDay else diff0;
    assert 0 <= diff < MinutesPerDay;
    var h: nat, m: nat := diff / 60, diff % 60;
    assert 60 * h + m == diff;
    assert DurationText(start, stop) == NatToString(h) + "h " + NatToString(m) + "m";
  }

  /** 09:00 to 17:30 is "8h 30m". */
  lemma DayDurationExample()
    ensures DurationText("09:00", "17:30") == "8h 30m"
  {
    assert TotalMinutes("09:00") == 540 && TotalMinutes("17:30") == 1050;
    assert NatToString(30) == "30" by { assert NatToString(3) == "3"; }
  }

  /** 22:00 to 06:00 crosses midnight and is "8h 0m". */
  lemma OvernightDurationExample()
    ensures DurationText("22:00", "06:00") == "8h 0m"
  {
    assert TotalMinutes("22:00") == 1320 && TotalMinutes("06:00") == 360;
  }

  // ---------------------------------------------------------------------
  // The form's state and handlers.

  /** What `handleAction` ends in. */
  datatype ActionOutcome =
    | Blocked                                            // validation failed
    | Delegated(action: string, data: map<string, Value>) // passed to the parent's onAction
    | DraftSaved(data: map<string, Value>)               // logged as a draft
    | SubmitStarted                                      // the asynchronous submission begins
    | NoEffect

  /** The actions validated before they go ahead. */
  predicate IsGatedAction(action: string) {
    action == "SAVE_DRAFT" || action == "SUBMIT" || action == "NEXT"
  }

  /** The fields `runValidation` looks at: all but button groups, in order. */
  function Validatable(fs: seq<Field>): (r: seq<Field>)
    ensures |r| <= |fs|
    ensures forall f :: f in r <==> f in fs && f.ftype != ButtonGroup
  {
    if fs == [] then []
    else
      var init := Validatable(fs[..|fs| - 1]);
      assert fs == fs[..|fs| - 1] + [fs[|fs| - 1]];
      if fs[|fs| - 1].ftype != ButtonGroup then init + [fs[|fs| - 1]] else init
  }

  /** Appending a field extends the validatable fields by it unless it is a
      button group. */
  lemma ValidatableSnoc(fs: seq<Field>, f: Field)
    ensures Validatable(fs + [f]) == if f.ftype != ButtonGroup then Validatable(fs) + [f] else Validatable(fs)
  {
    assert (fs + [f])[..|fs|] == fs;
  }

  /** One step of `runValidation`'s loop: a button group adds nothing, any
      other field adds its failure, if any. */
  lemma ValidatableErrorsStep(fs: seq<Field>, i: nat, data: map<string, Value>, matches: Matcher)
    requires i < |fs|
    ensures var before := ErrorsOf(Validatable(fs[..i]), data, matches);
      var e := ValidateField(fs[i], Get(data, fs[i].id), matches);
      ErrorsOf(Validatable(fs[..i + 1]), data, matches) ==
        if fs[i].ftype != ButtonGroup && e != "" then before[fs[i].id := e] else before
  {
    ValidatableSnoc(fs[..i], fs[i]);
    assert fs[..i + 1] == fs[..i] + [fs[i]];
    ErrorsOfSnoc(Validatable(fs[..i]), fs[i], data, matches);
  }

  /** Whether a change to `id` leaves start and stop times the duration code
      can read: when it recomputes the duration, both are HH:MM strings. */
  predicate DurationInputsReadable(id: string, data: map<string, Value>) {
    var start := Get(data, "startTime");
    var stop := Get(data, "stopTime");
    (id == "startTime" || id == "stopTime") && Truthy(start) && Truthy(stop) ==>
      start.Str? && IsTimeShape(start.s) && stop.Str? && IsTimeShape(stop.s)
  }

  class Form {
    const fields: seq<Field>
    const instructions: seq<Instruction>
    /** Whether a parent supplied `onAction` (the stepper flow). */
    const hasOnAction: bool
    const matches: Matcher
    var formData: map<string, Value>
    var errors: map<string, string>

    /** Mounting the component with `activeSchema`, the result of
      `ActiveSchema` on the `schema` prop. */
    constructor (active: Schema, initialData: Option<map<string, Value>>,
                 validationErrors: Option<map<string, string>>, hasOnAction: bool, matches: Matcher)
      ensures fields == NormalizeFields(active)
      ensures instructions == NormalizeInstructions(active.instructions)
      ensures formData == initialData.GetOr(map[]) && errors == validationErrors.GetOr(map[])
      ensures this.hasOnAction == hasOnAction && this.matches == matches
    {
      fields := NormalizeFields(active);
      instructions := NormalizeInstructions(active.instructions);
      this.hasOnAction := hasOnAction;
      this.matches := matches;
      formData := initialData.GetOr(map[]);
      errors := validationErrors.GetOr(map[]);
    }

    /** `handleChange(id, value)`: store the value, recompute the duration
      when a start or stop time changed and both are set, and blank the
      changed field's error. */
    method HandleChange(id: string, value: Value)
      requires DurationInputsReadable(id, formData[id := value])
      modifies this`formData, this`errors
      ensures id in formData && formData[id] == value
      ensures forall k :: k != id && k != "calculatedTime" ==>
        (k in formData <==> k in old(formData)) && (k in formData ==> formData[k] == old(formData)[k])
      ensures var start := Get(formData, "startTime");
              var stop := Get(formData, "stopTime");
              if (id == "startTime" || id == "stopTime") && Truthy(start) && Truthy(stop)
              then Get(formData, "calculatedTime") == Str(DurationText(start.s, stop.s))
              else (id == "calculatedTime" ||
                    (("calculatedTime" in formData <==> "calculatedTime" in old(formData))
                     && Get(formData, "calculatedTime") == Get(old(formData), "calculatedTime")))
      ensures "calculatedTime" in formData ==> "calculatedTime" in old(formData) || id == "calculatedTime" || id == "startTime" || id == "stopTime"
      ensures errors == old(errors)[id := ""]
    {
      var newData := formData[id := value];
      if id == "startTime" || id == "stopTime" {
        var start := Get(newData, "startTime");
        var stop := Get(newData, "stopTime");
        if Truthy(start) && Truthy(stop) {
          newData := newData["calculatedTime" := Str(DurationText(start.s, stop.s))];
        }
      }
      formData := newData;
      errors := errors[id := ""];
    }

    /** `runValidation()`: validate every field that is not a button group,
      record the failing ones, and report whether any failed. */
    method RunValidation() returns (hasError: bool)
      modifies this`errors
      ensures errors == ErrorsOf(Validatable(fields), formData, matches)
      ensures hasError <==> errors != map[]
    {
      var newErrors: map<string, string> := map[];
      hasError := false;
      var i := 0;
      while i < |fields|
        invariant 0 <= i <= |fields|
        invariant newErrors == ErrorsOf(Validatable(fields[..i]), formData, matches)
        invariant hasError <==> newErrors != map[]
      {
        var field := fields[i];
        ValidatableErrorsStep(fields, i, formData, matches);
        if field.ftype != ButtonGroup {
          var error := ValidateField(field, Get(formData, field.id), matches);
          if error != "" {
            hasError := true;
            newErrors := newErrors[field.id := error];
            assert field.id in newErrors;
          }
        }
        i := i + 1;
      }
      assert fields[..i] == fields;
      errors := newErrors;
    }

    /** `handleAction(action)`: SAVE_DRAFT, SUBMIT and NEXT go ahead only when
      every non-button field validates; other actions are never validated.
      An action that goes ahead is delegated to the parent when there is one. */
    method HandleAction(action: string) returns (outcome: ActionOutcome)
      modifies this`errors
      ensures IsGatedAction(action) ==> errors == ErrorsOf(Validatable(fields), formData, matches)
      ensures !IsGatedAction(action) ==> errors == old(errors)
      ensures outcome == Blocked <==>
        IsGatedAction(action) && exists f :: f in fields && f.ftype != ButtonGroup && FieldFails(f, formData, matches)
      ensures outcome != Blocked && hasOnAction ==> outcome == Delegated(action, formData)
      ensures outcome != Blocked && !hasOnAction ==>
        outcome == if action == "SAVE_DRAFT" then DraftSaved(formData)
                   else if action == "SUBMIT" then SubmitStarted
                   else NoEffect
    {
      if IsGatedAction(action) {
        var hasError := RunValidation();
        ErrorsOfEmpty(Validatable(fields), formData, matches);
        if hasError {
          return Blocked;
        }
      }
      if hasOnAction {
        return Delegated(action, formData);
      }
      if action == "SAVE_DRAFT" {
        return DraftSaved(formData);
      }
      if action == "SUBMIT" {
        return SubmitStarted;
      }
      return NoEffect;
    }
  }

  /** Button groups are never validated: they never appear in the error map
      of `runValidation`. */
  lemma ButtonGroupsNeverFlagged(fs: seq<Field>, data: map<string, Value>, matches: Matcher, k: string)
    requires forall f :: f in fs && f.id == k ==> f.ftype == ButtonGroup
    ensures k !in ErrorsOf(Validatable(fs), data, matches)
  {
    ErrorsOfKeys(Validatable(fs), data, matches, k);
  }
}

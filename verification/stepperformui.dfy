/** The multi-step wizard: the valid steps of the configuration, the index
    of the active step, the data committed per step, the live data of the
    current step, the error map shown above the form, and whether the
    wizard has been submitted. */
module StepperFormUI {
  import opened Wrappers
  import opened JsValue
  import opened FormTypes
  import opened Records
  import opened Validation

  // ---------------------------------------------------------------------
  // Pure helpers.

  /** The non-null steps with a non-empty `stepId`, in order. */
  function ValidSteps(raw: seq<RawStep>): (steps: seq<FormStep>)
    ensures |steps| <= |raw|
    ensures forall s :: s in steps <==> StepObject(s) in raw && s.stepId != ""
  {
    if raw == [] then []
    else
      var rest := ValidSteps(raw[1..]);
      assert raw == [raw[0]] + raw[1..];
      if raw[0].StepObject? && raw[0].step.stepId != "" then [raw[0].step] + rest else rest
  }

  /** The filter keeps the configured order: it distributes over `+`. */
  lemma {:induction false} ValidStepsAppend(a: seq<RawStep>, b: seq<RawStep>)
    ensures ValidSteps(a + b) == ValidSteps(a) + ValidSteps(b)
  {
    if a == [] {
      assert a + b == b;
    } else {
      assert (a + b)[0] == a[0];
      assert (a + b)[1..] == a[1..] + b;
      ValidStepsAppend(a[1..], b);
    }
  }

  /** `getValidSteps()`: `(steps || []).filter(...)`. A missing or falsy
      step list gives no steps; a truthy value that is not an array has no
      `filter` and throws. */
  function GetValidSteps(raw: RawArray<RawStep>): (r: Result<seq<FormStep>>)
    ensures r.Err? <==> raw == NonArray(true)
    ensures r.Ok? ==> forall s :: s in r.value ==> s.stepId != ""
    ensures raw.Items? ==> r == Ok(ValidSteps(raw.items))
    ensures raw.Absent? || raw == NonArray(false) ==> r == Ok([])
  {
    match raw
    case Absent => Ok([])
    case NonArray(truthy) => if truthy then Err("TypeError: steps.filter is not a function") else Ok([])
    case Items(items) => Ok(ValidSteps(items))
  }

  /** `safeStepIndex`: the active index clamped to the last step, 0 when
      there are no steps. */
  function SafeStepIndex(len: nat, index: int): (r: int)
    ensures len == 0 ==> r == 0
    ensures len > 0 && index >= 0 ==> 0 <= r < len
    ensures 0 <= index < len ==> r == index
    ensures len > 0 && index >= len ==> r == len - 1
  {
    if len == 0 then 0 else if index < len - 1 then index else len - 1
  }

  /** `aggregatedData`: the committed step maps merged in insertion order,
      each overriding the keys of the ones before it. */
  function Aggregate(byStep: Entries<map<string, Value>>): map<string, Value> {
    if byStep == [] then map[]
    else Aggregate(byStep[..|byStep| - 1]) + byStep[|byStep| - 1].1
  }

  /** Every merged key comes from some committed step, and every key of a
      committed step is merged. */
  lemma {:induction false} AggregateKeys(byStep: Entries<map<string, Value>>, k: string)
    ensures k in Aggregate(byStep) <==> exists i :: 0 <= i < |byStep| && k in byStep[i].1
  {
    if byStep != [] {
      var init := byStep[..|byStep| - 1];
      AggregateKeys(init, k);
      assert forall i :: 0 <= i < |init| ==> init[i] == byStep[i];
    }
  }

  /** A key takes its value from the last committed step that holds it. */
  lemma {:induction false} AggregateLastWins(byStep: Entries<map<string, Value>>, i: int, k: string)
    requires 0 <= i < |byStep| && k in byStep[i].1
    requires forall j :: i < j < |byStep| ==> k !in byStep[j].1
    ensures k in Aggregate(byStep) && Aggregate(byStep)[k] == byStep[i].1[k]
  {
    var n := |byStep|;
    var init := byStep[..n - 1];
    if i < n - 1 {
      assert init[i] == byStep[i];
      forall j | i < j < |init| ensures k !in init[j].1 {
        assert init[j] == byStep[j];
      }
      AggregateLastWins(init, i, k);
    }
  }

  /** On the first commit of a step, the data Submit reports (the merge
      taken before the commit, overlaid with the live data) is the data the
      success screen shows (the merge after it, overlaid likewise). */
  lemma {:induction false} FirstCommitAgrees(byStep: Entries<map<string, Value>>, id: string, live: map<string, Value>)
    requires !HasKey(byStep, id)
    ensures Aggregate(Put(byStep, id, live)) + live == Aggregate(byStep) + live
  {
    var e := byStep + [(id, live)];
    assert e[..|e| - 1] == byStep;
    assert Aggregate(e) == Aggregate(byStep) + live;
  }

  /** The fields of `fs` whose value in `data` is set (not undefined, null
      or ""), in order. */
  function Filled(fs: seq<Field>, data: map<string, Value>): (r: seq<Field>)
    ensures |r| <= |fs|
    ensures forall f :: f in r <==> f in fs && !IsBlank(Get(data, f.id))
  {
    if fs == [] then []
    else
      var init := Filled(fs[..|fs| - 1], data);
      var f := fs[|fs| - 1];
      assert fs == fs[..|fs| - 1] + [f];
      if !IsBlank(Get(data, f.id)) then init + [f] else init
  }

  lemma FilledSnoc(fs: seq<Field>, f: Field, data: map<string, Value>)
    ensures Filled(fs + [f], data) == if !IsBlank(Get(data, f.id)) then Filled(fs, data) + [f] else Filled(fs, data)
  {
    assert (fs + [f])[..|fs|] == fs;
  }

  /** The debounced check never flags a field that is still empty, however
      mandatory it is. */
  lemma BlankNeverFlagged(fs: seq<Field>, data: map<string, Value>, matches: Matcher, k: string)
    requires IsBlank(Get(data, k))
    ensures k !in ErrorsOf(Filled(fs, data), data, matches)
  {
    ErrorsOfKeys(Filled(fs, data), data, matches, k);
  }

  // ---------------------------------------------------------------------
  // The wizard.

  /** The debounced loop: validate, in order, the fields of `fields` whose
      value in `data` is set, and collect their failures. */
  method FilledErrors(fields: seq<Field>, data: map<string, Value>, matches: Matcher) returns (newErrors: map<string, string>)
    ensures newErrors == ErrorsOf(Filled(fields, data), data, matches)
  {
    newErrors := map[];
    var i := 0;
    while i < |fields|
      invariant 0 <= i <= |fields|
      invariant newErrors == ErrorsOf(Filled(fields[..i], data), data, matches)
    {
      var field := fields[i];
      FilledErrorsStep(fields, i, data, matches);
      var fieldValue := Get(data, field.id);
      if !IsBlank(fieldValue) {
        var error := ValidateField(field, fieldValue, matches);
        if error != "" {
          newErrors := newErrors[field.id := error];
        }
      }
      i := i + 1;
    }
    assert fields[..i] == fields;
  }

  /** One step of the debounced loop: a set field adds its failure, if any,
      and a blank one adds nothing. */
  lemma FilledErrorsStep(fields: seq<Field>, i: nat, data: map<string, Value>, matches: Matcher)
    requires i < |fields|
    ensures var before := ErrorsOf(Filled(fields[..i], data), data, matches);
      var v := Get(data, fields[i].id);
      ErrorsOf(Filled(fields[..i + 1], data), data, matches) ==
        if !IsBlank(v) && ValidateField(fields[i], v, matches) != "" then before[fields[i].id := ValidateField(fields[i], v, matches)]
        else before
  {
    FilledSnoc(fields[..i], fields[i], data);
    assert fields[..i + 1] == fields[..i] + [fields[i]];
    ErrorsOfSnoc(Filled(fields[..i], data), fields[i], data, matches);
  }

  class Stepper {
    const steps: seq<FormStep>
    const matches: Matcher
    var activeStepIndex: int
    /** `formDataByStep`: step id to that step's committed data. */
    var formDataByStep: Entries<map<string, Value>>
    /** `formDataRef`: the live data of the current step. */
    var formDataRef: map<string, Value>
    var validationErrors: map<string, string>
    var isSubmitted: bool

    /** The index stays within the steps, every step has an id, and the
      committed data is keyed by distinct step ids. */
    ghost predicate Valid()
      reads this`activeStepIndex, this`formDataByStep
    {
      && 0 <= activeStepIndex
      && (|steps| == 0 ==> activeStepIndex == 0)
      && (|steps| > 0 ==> activeStepIndex < |steps|)
      && (forall s :: s in steps ==> s.stepId != "")
      && DistinctKeys(formDataByStep)
      && (forall i :: 0 <= i < |formDataByStep| ==> IsStepId(formDataByStep[i].0))
    }

    ghost predicate IsStepId(id: string)
    {
      exists s :: s in steps && s.stepId == id
    }

    function SafeIndex(): int
      reads this`activeStepIndex
    {
      SafeStepIndex(|steps|, activeStepIndex)
    }

    /** `steps[safeStepIndex] ?? null`. */
    function ActiveStep(): (r: Option<FormStep>)
      reads this`activeStepIndex
      ensures r.Some? ==> r.value in steps
      ensures |steps| > 0 && activeStepIndex >= 0 ==> r.Some?
    {
      var i := SafeIndex();
      if 0 <= i < |steps| then Some(steps[i]) else None
    }

    /** `stepFields`: the field objects of the active step, in order. */
    function StepFields(): seq<Field>
      reads this`activeStepIndex
    {
      if ActiveStep().Some? then FieldObjects(ActiveStep().value.fields) else []
    }

    /** Every field of the current step validates on the live data. */
    predicate StepPasses()
      reads this`activeStepIndex, this`formDataRef
    {
      forall f :: f in StepFields() ==> !FieldFails(f, formDataRef, matches)
    }

    function IsLastStep(): bool
      reads this`activeStepIndex
    {
      SafeIndex() == |steps| - 1
    }

    /** The data shown on the success screen: all committed steps overlaid
      with the live data. */
    function FinalData(): map<string, Value>
      reads this`formDataByStep, this`formDataRef
    {
      Aggregate(formDataByStep) + formDataRef
    }

    /** Mounting the wizard on the steps `getValidSteps` returned. */
    constructor (validSteps: seq<FormStep>, matches: Matcher)
      requires forall s :: s in validSteps ==> s.stepId != ""
      ensures Valid()
      ensures steps == validSteps && this.matches == matches
      ensures activeStepIndex == 0 && formDataByStep == [] && formDataRef == map[]
      ensures validationErrors == map[] && !isSubmitted
    {
      steps := validSteps;
      this.matches := matches;
      activeStepIndex := 0;
      formDataByStep := [];
      formDataRef := map[];
      validationErrors := map[];
      isSubmitted := false;
    }

    /** `validateCurrentStep()`: true for a step without fields (errors left
      as they were); otherwise every field, button groups included, is
      validated, the failing ones become the error map, and the result says
      whether none failed. */
    method ValidateCurrentStep() returns (ok: bool)
      modifies this`validationErrors
      ensures StepFields() == [] ==> ok && validationErrors == old(validationErrors)
      ensures StepFields() != [] ==> validationErrors == ErrorsOf(StepFields(), formDataRef, matches)
      ensures StepFields() != [] ==> (ok <==> validationErrors == map[])
      ensures ok <==> StepPasses()
    {
      var fields := StepFields();
      if |fields| == 0 {
        return true;
      }
      var newErrors: map<string, string> := map[];
      var hasError := false;
      var i := 0;
      while i < |fields|
        invariant 0 <= i <= |fields|
        invariant newErrors == ErrorsOf(fields[..i], formDataRef, matches)
        invariant hasError <==> newErrors != map[]
      {
        var field := fields[i];
        ErrorsOfPrefixStep(fields, i, formDataRef, matches);
        var error := ValidateField(field, Get(formDataRef, field.id), matches);
        if error != "" {
          hasError := true;
          newErrors := newErrors[field.id := error];
          assert field.id in newErrors;
        }
        i := i + 1;
      }
      assert fields[..i] == fields;
      ErrorsOfEmpty(fields, formDataRef, matches);
      validationErrors := newErrors;
      return !hasError;
    }

    /** What `handleNext()` does to the wizard. A failing step keeps the
      index, the committed data and the live data. A passing step commits
      its live data under its id and, unless it is the last, moves one step
      on with empty live data. When the index moves the error map is clean;
      when it stays the error map is the step's validation result (left
      alone for a step without fields), which is clean when the step
      passed. */
    twostate predicate NextEffect()
      reads this
    {
      && isSubmitted == old(isSubmitted)
      && (!old(StepPasses()) ==>
        && activeStepIndex == old(activeStepIndex)
        && formDataByStep == old(formDataByStep)
        && formDataRef == old(formDataRef))
      && (old(StepPasses()) && old(ActiveStep()).Some? ==>
        formDataByStep == Put(old(formDataByStep), old(ActiveStep()).value.stepId, old(formDataRef)))
      && (old(StepPasses()) && old(ActiveStep()).None? ==> formDataByStep == old(formDataByStep))
      && (old(StepPasses()) && old(activeStepIndex) < |steps| - 1 ==>
        && activeStepIndex == old(activeStepIndex) + 1
        && formDataRef == map[])
      && (old(activeStepIndex) >= |steps| - 1 ==>
        && activeStepIndex == old(activeStepIndex)
        && formDataRef == old(formDataRef))
      && (activeStepIndex != old(activeStepIndex) ==> validationErrors == map[])
      && (activeStepIndex == old(activeStepIndex) && old(StepFields()) != [] ==>
        validationErrors == ErrorsOf(old(StepFields()), old(formDataRef), matches))
      && (activeStepIndex == old(activeStepIndex) && old(StepFields()) == [] ==>
        validationErrors == old(validationErrors))
      && (old(StepPasses()) && old(StepFields()) != [] ==> validationErrors == map[])
    }

    /** `handleNext()`: validate the step, commit it when it passes and move
      on unless it is the last. */
    method Next()
      requires Valid()
      modifies this
      ensures Valid()
      ensures NextEffect()
    {
      var ok := ValidateCurrentStep();
      if !ok {
        return;
      }
      var active := ActiveStep();
      if active.Some? && active.value.stepId != "" {
        Commit(active.value.stepId);
      }
      if activeStepIndex < |steps| - 1 {
        activeStepIndex := if activeStepIndex + 1 < |steps| - 1 then activeStepIndex + 1 else |steps| - 1;
        validationErrors := map[];
        formDataRef := map[];
      }
    }

    /** `handleBack()`: from any step but the first, move one step back with
      a clean error map and empty live data; nothing is validated and no
      committed data changes. */
    method Back()
      requires Valid()
      modifies this
      ensures Valid()
      ensures formDataByStep == old(formDataByStep) && isSubmitted == old(isSubmitted)
      ensures old(SafeIndex()) > 0 ==>
        && activeStepIndex == old(activeStepIndex) - 1
        && validationErrors == map[]
        && formDataRef == map[]
      ensures old(SafeIndex()) <= 0 ==>
        && activeStepIndex == old(activeStepIndex)
        && validationErrors == old(validationErrors)
        && formDataRef == old(formDataRef)
    {
      if SafeIndex() > 0 {
        var clamped := if activeStepIndex < |steps| - 1 then activeStepIndex else |steps| - 1;
        activeStepIndex := if clamped - 1 < 0 then 0 else clamped - 1;
        validationErrors := map[];
        formDataRef := map[];
      }
    }

    /** What `handleSubmit()` does to the wizard. The index and the live
      data stay. With an active step that validates, its live data is
      committed, the wizard is marked submitted and the data reported is the
      merge of the steps committed before the call overlaid with the live
      data; otherwise nothing is reported or committed. The error map is the
      step's validation result (left alone without an active step or for a
      step without fields), clean when data is reported. */
    twostate predicate SubmitEffect(new finalData: Option<map<string, Value>>)
      reads this
    {
      && activeStepIndex == old(activeStepIndex) && formDataRef == old(formDataRef)
      && (finalData.Some? <==> old(ActiveStep()).Some? && old(StepPasses()))
      && (isSubmitted <==> old(isSubmitted) || finalData.Some?)
      && (finalData.Some? ==>
        && finalData.value == Aggregate(old(formDataByStep)) + old(formDataRef)
        && formDataByStep == Put(old(formDataByStep), old(ActiveStep()).value.stepId, old(formDataRef)))
      && (finalData.None? ==> formDataByStep == old(formDataByStep))
      && (old(StepFields()) == [] ==> validationErrors == old(validationErrors))
      && (old(StepFields()) != [] ==>
        validationErrors == ErrorsOf(old(StepFields()), old(formDataRef), matches))
      && (finalData.Some? && old(StepFields()) != [] ==> validationErrors == map[])
    }

    /** `handleSubmit()`: with an active step that validates, commit its live
      data, mark the wizard submitted and report the merged data. */
    method Submit() returns (finalData: Option<map<string, Value>>)
      requires Valid()
      modifies this
      ensures Valid()
      ensures SubmitEffect(finalData)
    {
      var active := ActiveStep();
      if active.None? {
        return None;
      }
      var ok := ValidateCurrentStep();
      if !ok {
        return None;
      }
      var aggregated := AggregatedData();
      if active.value.stepId != "" {
        Commit(active.value.stepId);
      }
      finalData := Some(aggregated + formDataRef);
      isSubmitted := true;
    }

    /** `{ ...prev, [id]: formDataRef }` on the committed data. */
    method Commit(id: string)
      requires Valid() && IsStepId(id)
      modifies this`formDataByStep
      ensures Valid()
      ensures formDataByStep == Put(old(formDataByStep), id, formDataRef)
    {
      PutSpec(formDataByStep, id, formDataRef);
      ghost var before := formDataByStep;
      formDataByStep := Put(formDataByStep, id, formDataRef);
      forall i | 0 <= i < |formDataByStep| ensures IsStepId(formDataByStep[i].0) {
        if i < |before| && before[i].0 != id {
          assert formDataByStep[i] == before[i];
        } else {
          assert formDataByStep[i].0 == id by {
            if !HasKey(before, id) {
              assert formDataByStep == before + [(id, formDataRef)];
            }
          }
        }
      }
    }

    /** `aggregatedData`: `Object.assign` of every committed step's data, in
      insertion order. */
    method AggregatedData() returns (merged: map<string, Value>)
      ensures merged == Aggregate(formDataByStep)
      ensures forall k :: k in merged <==> exists i :: 0 <= i < |formDataByStep| && k in formDataByStep[i].1
    {
      merged := map[];
      var i := 0;
      while i < |formDataByStep|
        invariant 0 <= i <= |formDataByStep|
        invariant merged == Aggregate(formDataByStep[..i])
      {
        assert formDataByStep[..i + 1][..i] == formDataByStep[..i];
        merged := merged + formDataByStep[i].1;
        i := i + 1;
      }
      assert formDataByStep[..i] == formDataByStep;
      forall k ensures k in merged <==> exists i :: 0 <= i < |formDataByStep| && k in formDataByStep[i].1 {
        AggregateKeys(formDataByStep, k);
      }
    }

    /** The debounced callback body: with live data and step fields, validate
      only the fields whose value is set and show their failures; otherwise
      leave the error map alone. */
    method DebouncedValidate()
      modifies this`validationErrors
      ensures |formDataRef| == 0 || StepFields() == [] ==> validationErrors == old(validationErrors)
      ensures |formDataRef| > 0 && StepFields() != [] ==>
        validationErrors == ErrorsOf(Filled(StepFields(), formDataRef), formDataRef, matches)
    {
      if |formDataRef| == 0 {
        return;
      }
      var fields := StepFields();
      if |fields| == 0 {
        return;
      }
      validationErrors := FilledErrors(fields, formDataRef, matches);
    }

    /** `onFormDataChange`: the step form reports its data. */
    method SetFormDataRef(data: map<string, Value>)
      modifies this`formDataRef
      ensures formDataRef == data
    {
      formDataRef := data;
    }

    /** The review page's terms checkbox records `termsAccepted` in the live
      data and leaves every other key as it was. */
    method AcceptTerms(checked: bool)
      modifies this`formDataRef
      ensures formDataRef == old(formDataRef)["termsAccepted" := Bool(checked)]
    {
      formDataRef := formDataRef["termsAccepted" := Bool(checked)];
    }

    /** The primary button: Submit on the last step, Next elsewhere. The
      wizard can only become submitted from the last step. */
    method PressPrimary() returns (finalData: Option<map<string, Value>>)
      requires Valid()
      modifies this
      ensures Valid()
      ensures old(IsLastStep()) ==> SubmitEffect(finalData)
      ensures !old(IsLastStep()) ==> NextEffect() && finalData.None?
      ensures finalData.Some? ==> old(IsLastStep())
      ensures isSubmitted ==> old(isSubmitted) || old(IsLastStep())
    {
      if IsLastStep() {
        finalData := Submit();
      } else {
        Next();
        finalData := None;
      }
    }
  }
}

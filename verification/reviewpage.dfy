/** The review step: the entered values grouped by step, and the text each
    value is shown as. */
module ReviewPage {
  import opened Wrappers
  import opened JsValue
  import opened FormTypes
  import opened Records

  const TypeError := "TypeError"

  /** One listed value: the field's label, the value, and the field it
      belongs to (None for a configured entry that is not a field object). */
  datatype ReviewItem = ReviewItem(labelText: Option<string>, value: Value, field: Option<Field>)

  /** One step's block on the review page. */
  datatype Section = Section(stepName: string, stepId: string, data: Entries<ReviewItem>)

  // ---------------------------------------------------------------------
  // Which steps and which values are listed.

  /** The steps that are not null and not the review step itself, in order. */
  function NonReviewSteps(raw: seq<RawStep>): (steps: seq<FormStep>)
    ensures |steps| <= |raw|
    ensures forall s :: s in steps <==> StepObject(s) in raw && s.stepId != "review"
  {
    if raw == [] then []
    else
      var rest := NonReviewSteps(raw[1..]);
      assert raw == [raw[0]] + raw[1..];
      if raw[0].StepObject? && raw[0].step.stepId != "review" then [raw[0].step] + rest else rest
  }

  /** `(steps || []).filter(...)`: a truthy value that is not an array
      throws. */
  function ReviewSteps(raw: RawArray<RawStep>): (r: Result<seq<FormStep>>)
    ensures r.Err? <==> raw == NonArray(true)
    ensures raw.Items? ==> r == Ok(NonReviewSteps(raw.items))
    ensures raw.Absent? || raw == NonArray(false) ==> r == Ok([])
  {
    match raw
    case Absent => Ok([])
    case NonArray(truthy) => if truthy then Err(TypeError) else Ok([])
    case Items(items) => Ok(NonReviewSteps(items))
  }

  /** `step.fields || []`, iterated with `forEach`: a truthy value that is not
      an array throws. */
  function StepEntries(step: FormStep): (r: Result<seq<RawField>>)
    ensures r.Err? <==> step.fields == NonArray(true)
  {
    match step.fields
    case Absent => Ok([])
    case NonArray(truthy) => if truthy then Err(TypeError) else Ok([])
    case Items(items) => Ok(items)
  }

  /** The key `field.id` reads: an entry that is not a field object has no
      `id`, which becomes the key "undefined". Null entries throw instead. */
  function KeyOf(e: RawField): string
    requires !e.NullishField?
  {
    if e.FieldObject? then e.field.id else "undefined"
  }

  function ItemOf(e: RawField, data: map<string, Value>): ReviewItem
    requires !e.NullishField?
  {
    if e.FieldObject? then ReviewItem(e.field.labelText, Get(data, e.field.id), Some(e.field))
    else ReviewItem(None, Get(data, "undefined"), None)
  }

  /** The `stepData` record one step's entries build, in order. */
  function StepData(entries: seq<RawField>, data: map<string, Value>): (r: Result<Entries<ReviewItem>>)
    ensures r.Err? ==> r == Err(TypeError)
  {
    if entries == [] then Ok([])
    else
      var init := StepData(entries[..|entries| - 1], data);
      var e := entries[|entries| - 1];
      if init.Err? then init
      else if e.NullishField? then Err(TypeError)
      else if IsBlank(Get(data, KeyOf(e))) then init
      else Ok(Put(init.value, KeyOf(e), ItemOf(e, data)))
  }

  /** A step's record is built unless an entry is null; its keys are distinct
      and are exactly the keys of the entries whose value is set; each item
      holds the set value under its key. */
  lemma {:induction false} StepDataSpec(entries: seq<RawField>, data: map<string, Value>)
    ensures StepData(entries, data).Ok? <==> NullishField !in entries
    ensures StepData(entries, data).Ok? ==>
      var items := StepData(entries, data).value;
      && DistinctKeys(items)
      && (forall i :: 0 <= i < |items| ==> items[i].1.value == Get(data, items[i].0) && !IsBlank(items[i].1.value))
      && (forall k :: HasKey(items, k) <==> (exists e :: e in entries && !e.NullishField? && KeyOf(e) == k) && !IsBlank(Get(data, k)))
  {
    if entries != [] {
      var init := entries[..|entries| - 1];
      var e := entries[|entries| - 1];
      assert entries == init + [e];
      StepDataSpec(init, data);
      var r := StepData(init, data);
      if r.Ok? && !e.NullishField? && !IsBlank(Get(data, KeyOf(e))) {
        var k0 := KeyOf(e);
        var items := Put(r.value, k0, ItemOf(e, data));
        PutSpec(r.value, k0, ItemOf(e, data));
        forall i | 0 <= i < |items|
          ensures items[i].1.value == Get(data, items[i].0) && !IsBlank(items[i].1.value)
        {
          if i < |r.value| && r.value[i].0 != k0 {
            assert items[i] == r.value[i];
          } else if i < |r.value| {
            assert items[i] == (k0, ItemOf(e, data));
          } else {
            assert items == r.value + [(k0, ItemOf(e, data))];
          }
        }
        forall k ensures HasKey(items, k) <==> HasKey(r.value, k) || k == k0 {
          if k != k0 {
            assert Lookup(items, k) == Lookup(r.value, k);
          } else {
            assert Lookup(items, k0) == Some(ItemOf(e, data));
          }
        }
      }
    }
  }

  /** The sections the page shows: one per listed step that has at least one
      set value, in step order. */
  function Sections(steps: seq<FormStep>, data: map<string, Value>): (r: Result<seq<Section>>)
    ensures r.Err? ==> r == Err(TypeError)
  {
    if steps == [] then Ok([])
    else
      var init := Sections(steps[..|steps| - 1], data);
      var step := steps[|steps| - 1];
      if init.Err? then init
      else
        var entries := StepEntries(step);
        if entries.Err? then Err(TypeError)
        else
          var stepData := StepData(entries.value, data);
          if stepData.Err? then Err(TypeError)
          else if |stepData.value| > 0 then Ok(init.value + [Section(step.stepName, step.stepId, stepData.value)])
          else init
  }

  /** Every section comes from a listed step, under that step's name and id,
      and holds that step's non-empty record. */
  lemma {:induction false} SectionsSpec(steps: seq<FormStep>, data: map<string, Value>)
    ensures Sections(steps, data).Ok? ==>
      var sections := Sections(steps, data).value;
      && |sections| <= |steps|
      && forall s :: s in sections ==>
        exists step :: step in steps && s.stepId == step.stepId && s.stepName == step.stepName
          && StepEntries(step).Ok? && StepData(StepEntries(step).value, data) == Ok(s.data) && |s.data| > 0
  {
    if steps != [] {
      var init := steps[..|steps| - 1];
      SectionsSpec(init, data);
      assert forall st :: st in init ==> st in steps;
    }
  }

  /** One more step adds its section exactly when its record is non-empty;
      the sections before it stay as they were. */
  lemma {:induction false} SectionShownIffValueSet(steps: seq<FormStep>, data: map<string, Value>, step: FormStep)
    requires Sections(steps + [step], data).Ok?
    ensures StepEntries(step).Ok? && StepData(StepEntries(step).value, data).Ok?
    ensures var items := StepData(StepEntries(step).value, data).value;
      Sections(steps + [step], data).value ==
        Sections(steps, data).value + (if |items| > 0 then [Section(step.stepName, step.stepId, items)] else [])
  {
    assert (steps + [step])[..|steps|] == steps;
  }

  /** `reviewSections`: the review steps, and for each one the set values of
      its fields collected into a record, kept when non-empty. */
  function ReviewSectionsOf(raw: RawArray<RawStep>, data: map<string, Value>): Result<seq<Section>> {
    var steps := ReviewSteps(raw);
    if steps.Err? then Err(TypeError) else Sections(steps.value, data)
  }

  /** The review step itself never forms a section. */
  lemma NoReviewSection(raw: RawArray<RawStep>, data: map<string, Value>)
    requires ReviewSectionsOf(raw, data).Ok?
    ensures forall s :: s in ReviewSectionsOf(raw, data).value ==> s.stepId != "review"
  {
    SectionsSpec(ReviewSteps(raw).value, data);
  }

  /** `reviewSections`, computed as the page does, step by step and field by
      field. */
  method ReviewSections(raw: RawArray<RawStep>, data: map<string, Value>) returns (r: Result<seq<Section>>)
    ensures r == ReviewSectionsOf(raw, data)
  {
    var stepsResult := ReviewSteps(raw);
    if stepsResult.Err? {
      return Err(TypeError);
    }
    var steps := stepsResult.value;
    var sections: seq<Section> := [];
    var s := 0;
    while s < |steps|
      invariant 0 <= s <= |steps|
      invariant Sections(steps[..s], data) == Ok(sections)
    {
      var step := steps[s];
      SectionsStep(steps, s, data);
      var entriesResult := StepEntries(step);
      if entriesResult.Err? {
        SectionsErrSticks(steps, s + 1, data);
        return Err(TypeError);
      }
      var stepDataResult := CollectStepData(entriesResult.value, data);
      if stepDataResult.Err? {
        SectionsErrSticks(steps, s + 1, data);
        return Err(TypeError);
      }
      var stepData := stepDataResult.value;
      if |stepData| > 0 {
        sections := sections + [Section(step.stepName, step.stepId, stepData)];
      }
      s := s + 1;
    }
    assert steps[..s] == steps;
    return Ok(sections);
  }

  /** One step of the page's loop over the steps. */
  lemma SectionsStep(steps: seq<FormStep>, s: nat, data: map<string, Value>)
    requires s < |steps| && Sections(steps[..s], data).Ok?
    ensures var step := steps[s];
      var entries := StepEntries(step);
      Sections(steps[..s + 1], data) ==
        if entries.Err? then Err(TypeError)
        else
          var stepData := StepData(entries.value, data);
          if stepData.Err? then Err(TypeError)
          else if |stepData.value| > 0 then Ok(Sections(steps[..s], data).value + [Section(step.stepName, step.stepId, stepData.value)])
          else Sections(steps[..s], data)
  {
    assert steps[..s + 1][..s] == steps[..s];
  }

  /** One step's `forEach`: the set values of its entries collected into a
      record, or the TypeError a null entry raises. */
  method CollectStepData(entries: seq<RawField>, data: map<string, Value>) returns (r: Result<Entries<ReviewItem>>)
    ensures r == StepData(entries, data)
  {
    var stepData: Entries<ReviewItem> := [];
    var i := 0;
    while i < |entries|
      invariant 0 <= i <= |entries|
      invariant StepData(entries[..i], data) == Ok(stepData)
    {
      var e := entries[i];
      assert entries[..i + 1] == entries[..i] + [e];
      assert (entries[..i] + [e])[..i] == entries[..i];
      if e.NullishField? {
        StepDataErrSticks(entries, i + 1, data);
        return Err(TypeError);
      }
      var key := KeyOf(e);
      if !IsBlank(Get(data, key)) {
        stepData := Put(stepData, key, ItemOf(e, data));
      }
      i := i + 1;
    }
    assert entries[..i] == entries;
    return Ok(stepData);
  }

  /** Once an entry has thrown, the step's record is an error whatever
      follows. */
  lemma {:induction false} StepDataErrSticks(entries: seq<RawField>, n: nat, data: map<string, Value>)
    requires n <= |entries| && StepData(entries[..n], data).Err?
    ensures StepData(entries, data).Err?
    decreases |entries|
  {
    if n < |entries| {
      var init := entries[..|entries| - 1];
      assert init[..n] == entries[..n];
      StepDataErrSticks(init, n, data);
    } else {
      assert entries[..n] == entries;
    }
  }

  /** Once a step has thrown, the whole page is an error whatever follows. */
  lemma {:induction false} SectionsErrSticks(steps: seq<FormStep>, n: nat, data: map<string, Value>)
    requires n <= |steps| && Sections(steps[..n], data).Err?
    ensures Sections(steps, data).Err?
    decreases |steps|
  {
    if n < |steps| {
      var init := steps[..|steps| - 1];
      assert init[..n] == steps[..n];
      SectionsErrSticks(init, n, data);
    } else {
      assert steps[..n] == steps;
    }
  }

  // ---------------------------------------------------------------------
  // How a value is shown.

  /** `options.find(opt => opt.value === value)`: the first option whose value
      is the string `v`. */
  function FindOption(options: seq<FieldOption>, v: Value): (r: Option<FieldOption>)
    ensures r.Some? ==> r.value in options && v == Str(r.value.value)
    ensures r.None? ==> forall o :: o in options ==> v != Str(o.value)
    ensures r.Some? ==> exists i :: (0 <= i < |options| && options[i] == r.value
      && forall j :: 0 <= j < i ==> v != Str(options[j].value))
  {
    if options == [] then None
    else if v == Str(options[0].value) then Some(options[0])
    else
      var rest := FindOption(options[1..], v);
      assert rest.Some? ==> exists i :: (0 <= i < |options[1..]| && options[1..][i] == rest.value
        && forall j :: 0 <= j < i ==> v != Str(options[1..][j].value));
      rest
  }

  /** A file entry of an array: its `name` when it is an object with a
      truthy name, otherwise `String(file)`. */
  function FileEntryText(file: Value): string {
    if file.Obj? && Truthy(NameOf(file)) then JsString(NameOf(file)) else JsString(file)
  }

  /** `value.map(file => ...)` on an array of files. */
  function FileTexts(items: seq<Value>): seq<string> {
    seq(|items|, i requires 0 <= i < |items| => FileEntryText(items[i]))
  }

  /** The texts `join` puts between its separators. */
  function ElementTexts(items: seq<Value>): seq<string> {
    seq(|items|, i requires 0 <= i < |items| => ElementString(items[i]))
  }

  function TypeOf(field: Option<Field>): Option<FieldType> {
    if field.Some? then Some(field.value.ftype) else None
  }

  /** `formatValue(value, field)`. Arrays are handled first, whatever the
      field type: file names (or the entries' strings) joined with ", " for a
      file field, the array's `join(", ")` otherwise. Then radio and
      dropdown show the matching option's label, a file its name or whether
      one is present, checkboxes Yes or No, and anything else `String(value)`. */
  function FormatValue(v: Value, field: Option<Field>): string {
    var t := TypeOf(field);
    if v.Arr? then
      if t == Some(File) then JoinWith(FileTexts(v.items), ", ")
      else JoinWith(ElementTexts(v.items), ", ")
    else if t == Some(Radio) || t == Some(Dropdown) then
      var options := if field.value.options.Some? then field.value.options.value else [];
      var option := FindOption(options, v);
      if option.Some? then option.value.labelText else JsString(v)
    else if t == Some(File) then
      if v.Obj? && Truthy(NameOf(v)) then JsString(NameOf(v))
      else if Truthy(v) then "File uploaded" else "No file"
    else if t == Some(Checkbox) || t == Some(CheckboxGroup) then
      if Truthy(v) then "Yes" else "No"
    else JsString(v)
  }

  /** The array value holding the strings `strs`. */
  function StrValues(strs: seq<string>): seq<Value> {
    seq(|strs|, i requires 0 <= i < |strs| => Str(strs[i]))
  }

  /** The array value holding one file object per name. */
  function NamedFiles(names: seq<string>): seq<Value> {
    seq(|names|, i requires 0 <= i < |names| => Obj(map["name" := Str(names[i])]))
  }

  /** An array is joined with ", " whatever the field type, a checkbox's
      included: an array of strings shows as those strings joined. */
  lemma ArraysJoinedFirst(strs: seq<string>, field: Option<Field>)
    requires TypeOf(field) != Some(File)
    ensures FormatValue(Arr(StrValues(strs)), field) == JoinWith(strs, ", ")
  {
    var texts := ElementTexts(StrValues(strs));
    forall i | 0 <= i < |strs| ensures texts[i] == strs[i] {
      assert StrValues(strs)[i] == Str(strs[i]);
      assert JsString(Str(strs[i])) == strs[i];
    }
    assert texts == strs;
  }

  /** An array of named files shows their names joined with ", ". */
  lemma FileNamesJoined(names: seq<string>, field: Field)
    requires field.ftype == File
    requires forall i :: 0 <= i < |names| ==> names[i] != ""
    ensures FormatValue(Arr(NamedFiles(names)), Some(field)) == JoinWith(names, ", ")
  {
    var texts := FileTexts(NamedFiles(names));
    forall i | 0 <= i < |names| ensures texts[i] == names[i] {
      NamedFileText(names[i]);
    }
    assert texts == names;
  }

  /** A file object with a non-empty name shows that name. */
  lemma NamedFileText(name: string)
    requires name != ""
    ensures FileEntryText(Obj(map["name" := Str(name)])) == name
  {
    assert NameOf(Obj(map["name" := Str(name)])) == Str(name);
  }

  /** For a radio or dropdown whose option values are distinct, every
      option's value is shown as that option's label. */
  lemma ChoiceShowsLabel(field: Field, o: FieldOption)
    requires field.ftype == Radio || field.ftype == Dropdown
    requires field.options.Some? && o in field.options.value
    requires forall i, j :: 0 <= i < j < |field.options.value| ==> field.options.value[i].value != field.options.value[j].value
    ensures FormatValue(Str(o.value), Some(field)) == o.labelText
  {
    var options := field.options.value;
    var r := FindOption(options, Str(o.value));
    assert r.Some?;
    var i :| 0 <= i < |options| && options[i] == r.value && forall j :: 0 <= j < i ==> Str(o.value) != Str(options[j].value);
    var k :| 0 <= k < |options| && options[k] == o;
    if k != i {
      assert false;
    }
  }

  /** A value no option carries is shown as its string. */
  lemma ChoiceFallsBackToString(field: Field, v: Value)
    requires field.ftype == Radio || field.ftype == Dropdown
    requires !v.Arr?
    requires field.options.None? || forall o :: o in field.options.value ==> v != Str(o.value)
    ensures FormatValue(v, Some(field)) == JsString(v)
  {
  }

  /** A single file shows its name, else "File uploaded" when something is
      set, else "No file". */
  lemma SingleFileText(v: Value, field: Field)
    requires field.ftype == File && !v.Arr?
    ensures v.Obj? && Truthy(NameOf(v)) ==> FormatValue(v, Some(field)) == JsString(NameOf(v))
    ensures !(v.Obj? && Truthy(NameOf(v))) ==>
      (FormatValue(v, Some(field)) == "File uploaded" <==> Truthy(v))
    ensures !(v.Obj? && Truthy(NameOf(v))) ==>
      (FormatValue(v, Some(field)) == "No file" <==> !Truthy(v))
  {
  }

  /** A checkbox or checkbox group shows "Yes" exactly when its value is
      truthy and "No" otherwise. */
  lemma CheckboxYesNo(v: Value, field: Field)
    requires (field.ftype == Checkbox || field.ftype == CheckboxGroup) && !v.Arr?
    ensures FormatValue(v, Some(field)) == "Yes" <==> Truthy(v)
    ensures FormatValue(v, Some(field)) == "No" <==> !Truthy(v)
  {
  }

  /** Every other field, and an entry that is not a field, shows `String(value)`. */
  lemma OtherTypesShowString(v: Value, field: Option<Field>)
    requires !v.Arr?
    requires TypeOf(field) !in {Some(Radio), Some(Dropdown), Some(File), Some(Checkbox), Some(CheckboxGroup)}
    ensures FormatValue(v, field) == JsString(v)
  {
  }
}

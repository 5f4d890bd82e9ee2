/** The declarative schema shapes of the form: fields, validation rules,
    steps, instructions, and the raw forms in which configuration arrives
    (arrays that may be missing, non-arrays, or hold null entries). */
module FormTypes {
  import opened Wrappers

  /** The field kinds the code branches on. `CheckboxGroup` is not a declared
      field type, but the review page compares against "checkbox-group". */
  datatype FieldType =
    | Text | Dropdown | Checkbox | File | ButtonGroup | Time | Radio | Textarea | Date
    | CheckboxGroup

  /** Every attribute is optional; `None` is an absent attribute. */
  datatype ValidationRule = ValidationRule(
    minLength: Option<int>,
    maxLength: Option<int>,
    regex: Option<string>,
    mustBeTrue: Option<bool>,
    minDate: Option<string>,
    maxDate: Option<string>,
    errorMessage: Option<string>)

  const NoRule := ValidationRule(None, None, None, None, None, None, None)

  datatype FieldOption = FieldOption(labelText: string, value: string)

  datatype FileConfig = FileConfig(
    allowedTypes: seq<string>,
    maxSizeMB: int,
    multiple: Option<bool>,
    maxFiles: Option<int>)

  /** One form element. A missing `mandatory` is `false`. */
  datatype Field = Field(
    id: string,
    ftype: FieldType,
    labelText: Option<string>,
    mandatory: bool,
    options: Option<seq<FieldOption>>,
    validation: Option<ValidationRule>,
    fileConfig: Option<FileConfig>)

  /** A configuration property that should hold an array: missing (`undefined`
      or `null`), present but not an array (only its truthiness matters to
      the code), or an array. */
  datatype RawArray<T> = Absent | NonArray(truthy: bool) | Items(items: seq<T>)

  /** One entry of a configured field list: `null`/`undefined`, a value that is
      not an object carrying an `id` (a string, a number, an array, an object
      without `id`), or a field object. */
  datatype RawField = NullishField | OtherEntry | FieldObject(field: Field)

  /** A step. A missing `stepId` or `stepName` is "" (the code only tests their
      truthiness or compares them with "review"). */
  datatype FormStep = FormStep(stepId: string, stepName: string, fields: RawArray<RawField>)

  /** One entry of the configured step list. A primitive entry behaves as a
      step with no id and no fields, `StepObject(FormStep("", "", Absent))`. */
  datatype RawStep = NullishStep | StepObject(step: FormStep)

  datatype InstructionType = TextInstruction | ImageInstruction | VideoInstruction | LinkInstruction

  datatype Instruction = Instruction(
    kind: InstructionType,
    value: string,
    labelText: Option<string>,
    altText: Option<string>)

  /** `schema.instructions`: falsy, one instruction, or an array of them. */
  datatype RawInstructions = NoInstructions | OneInstruction(instruction: Instruction) | InstructionArray(list: seq<Instruction>)

  /** The parts of a form schema the core reads. */
  datatype Schema = Schema(
    instructions: RawInstructions,
    fields: RawArray<RawField>,
    steps: RawArray<RawStep>)

  /** `(Array.isArray(raw) ? raw : []).filter(f => !!f && typeof f === "object" && "id" in f)`:
      the field objects of a raw list, in order. */
  function FieldObjects(raw: RawArray<RawField>): (fs: seq<Field>)
    ensures raw.Items? ==> |fs| <= |raw.items|
    ensures forall f :: f in fs <==> raw.Items? && FieldObject(f) in raw.items
  {
    if raw.Items? then FieldEntries(raw.items) else []
  }

  /** The field objects among `entries`, in order. */
  function FieldEntries(entries: seq<RawField>): (fs: seq<Field>)
    ensures |fs| <= |entries|
    ensures forall f :: f in fs <==> FieldObject(f) in entries
  {
    if entries == [] then []
    else
      var rest := FieldEntries(entries[1..]);
      assert entries == [entries[0]] + entries[1..];
      if entries[0].FieldObject? then [entries[0].field] + rest else rest
  }

  /** The raw list holding exactly the field objects `fs`. */
  function AsEntries(fs: seq<Field>): (entries: seq<RawField>)
    ensures |entries| == |fs|
  {
    if fs == [] then [] else [FieldObject(fs[0])] + AsEntries(fs[1..])
  }

  /** A list made only of field objects is kept whole and in order. */
  lemma {:induction false} FieldEntriesOfObjects(fs: seq<Field>)
    ensures FieldEntries(AsEntries(fs)) == fs
  {
    if fs != [] {
      FieldEntriesOfObjects(fs[1..]);
      assert AsEntries(fs)[1..] == AsEntries(fs[1..]);
    }
  }

  /** Filtering distributes over concatenation: order is kept and entries
      from `a` come before entries from `b`. */
  lemma {:induction false} FieldEntriesAppend(a: seq<RawField>, b: seq<RawField>)
    ensures FieldEntries(a + b) == FieldEntries(a) + FieldEntries(b)
  {
    if a == [] {
      assert a + b == b;
    } else {
      assert (a + b)[0] == a[0];
      assert (a + b)[1..] == a[1..] + b;
      FieldEntriesAppend(a[1..], b);
    }
  }
}

/** The field validator: one field and its current value give an error
    message, "" meaning valid. Checks run in a fixed order (mandatory, HH:MM
    time, pattern, minimum length, maximum length, must-be-true) and the first
    failing one decides the message. Also the error map built by running the
    validator over a list of fields, shared by the single-form and the
    stepper flows. */
module Validation {
  import opened Wrappers
  import opened JsValue
  import opened FormTypes

  /** The regular-expression engine: whether a pattern accepts a string. */
  type Matcher = (string, string) -> bool

  /** `field.validation?.x` reads `undefined` when there is no rule set. */
  function RuleOf(f: Field): ValidationRule {
    f.validation.GetOr(NoRule)
  }

  /** `field.validation?.errorMessage || fallback`. */
  function Override(f: Field, fallback: string): string {
    var msg := RuleOf(f).errorMessage;
    if msg.Some? && msg.value != "" then msg.value else fallback
  }

  /** The values the mandatory check rejects: undefined, null, "" and false. */
  predicate IsMissing(v: Value) {
    v == Undefined || v == Null || v == Str("") || v == Bool(false)
  }

  /** `/^(\d{2}):(\d{2})$/`. */
  predicate IsTimeShape(s: string) {
    |s| == 5 && IsDigit(s[0]) && IsDigit(s[1]) && s[2] == ':' && IsDigit(s[3]) && IsDigit(s[4])
  }

  function HoursOf(s: string): nat
    requires IsTimeShape(s)
  {
    DigitValue(s[0]) * 10 + DigitValue(s[1])
  }

  function MinutesOf(s: string): nat
    requires IsTimeShape(s)
  {
    DigitValue(s[3]) * 10 + DigitValue(s[4])
  }

  /** A real time of day: hours 0..23 and minutes 0..59. */
  predicate IsClockTime(s: string) {
    IsTimeShape(s) && HoursOf(s) <= 23 && MinutesOf(s) <= 59
  }

  /** A numeric rule attribute used as a guard: present and not 0. */
  predicate IsSetBound(b: Option<int>) {
    b.Some? && b.value != 0
  }

  predicate IsSetPattern(p: Option<string>) {
    p.Some? && p.value != ""
  }

  function MinLengthMessage(n: int): string {
    "Minimum " + IntToString(n) + " characters required"
  }

  function MaxLengthMessage(n: int): string {
    "Maximum " + IntToString(n) + " characters allowed"
  }

  /** `validateField(field, value)`, check by check as the source runs them. */
  function ValidateField(f: Field, v: Value, matches: Matcher): string {
    if f.mandatory && IsMissing(v) then
      Override(f, "This field is required")
    else if f.ftype == Time && Truthy(v) && !v.Str? then
      Override(f, "Invalid time")
    else if f.ftype == Time && Truthy(v) && !IsTimeShape(v.s) then
      Override(f, "Invalid time format")
    else if f.ftype == Time && Truthy(v) && !IsClockTime(v.s) then
      Override(f, "Invalid time")
    else RuleChecks(f, v, matches)
  }

  /** The checks driven by the field's validation rule, in the order the
      validator runs them once the mandatory and time checks have passed. */
  function RuleChecks(f: Field, v: Value, matches: Matcher): string {
    var rule := RuleOf(f);
    if IsSetPattern(rule.regex) && Truthy(v) && !matches(rule.regex.value, JsString(v)) then
      Override(f, "Invalid format")
    else if IsSetBound(rule.minLength) && Truthy(v) && LengthOf(v).Some? && LengthOf(v).value < rule.minLength.value then
      MinLengthMessage(rule.minLength.value)
    else if IsSetBound(rule.maxLength) && Truthy(v) && LengthOf(v).Some? && LengthOf(v).value > rule.maxLength.value then
      MaxLengthMessage(rule.maxLength.value)
    else if rule.mustBeTrue == Some(true) && v != Bool(true) then
      Override(f, "This must be checked")
    else
      ""
  }

  // ---------------------------------------------------------------------
  // The checks one by one, each judged on its own, and the ordered chain.

  datatype Check = Mandatory | TimeNotString | TimeFormat | TimeRange | Pattern | MinLength | MaxLength | MustBeTrue

  const CheckOrder: seq<Check> := [Mandatory, TimeNotString, TimeFormat, TimeRange, Pattern, MinLength, MaxLength, MustBeTrue]

  /** Whether check `c` rejects value `v` of field `f`, regardless of the
      other checks. */
  predicate Fails(c: Check, f: Field, v: Value, matches: Matcher) {
    var rule := RuleOf(f);
    var timed := f.ftype == Time && Truthy(v);
    match c
    case Mandatory => f.mandatory && IsMissing(v)
    case TimeNotString => timed && !v.Str?
    case TimeFormat => timed && v.Str? && !IsTimeShape(v.s)
    case TimeRange => timed && v.Str? && IsTimeShape(v.s) && !IsClockTime(v.s)
    case Pattern => IsSetPattern(rule.regex) && Truthy(v) && !matches(rule.regex.value, JsString(v))
    case MinLength => IsSetBound(rule.minLength) && Truthy(v) && LengthOf(v).Some? && LengthOf(v).value < rule.minLength.value
    case MaxLength => IsSetBound(rule.maxLength) && Truthy(v) && LengthOf(v).Some? && LengthOf(v).value > rule.maxLength.value
    case MustBeTrue => rule.mustBeTrue == Some(true) && v != Bool(true)
  }

  /** The message check `c` reports. Only the length checks ignore the
      field's `errorMessage`. */
  function Message(c: Check, f: Field): (msg: string)
    requires c != MinLength || RuleOf(f).minLength.Some?
    requires c != MaxLength || RuleOf(f).maxLength.Some?
    ensures msg != ""
  {
    match c
    case Mandatory => Override(f, "This field is required")
    case TimeNotString => Override(f, "Invalid time")
    case TimeFormat => Override(f, "Invalid time format")
    case TimeRange => Override(f, "Invalid time")
    case Pattern => Override(f, "Invalid format")
    case MinLength => MinLengthMessage(RuleOf(f).minLength.value)
    case MaxLength => MaxLengthMessage(RuleOf(f).maxLength.value)
    case MustBeTrue => Override(f, "This must be checked")
  }

  /** The message of the first failing check of `cs`, or "" when none fails. */
  function FirstFailure(cs: seq<Check>, f: Field, v: Value, matches: Matcher): string {
    if cs == [] then ""
    else if Fails(cs[0], f, v, matches) then Message(cs[0], f)
    else FirstFailure(cs[1..], f, v, matches)
  }

  /** The rule-driven checks are the chain of the last four checks. */
  lemma {:induction false} RuleChecksAreChain(f: Field, v: Value, matches: Matcher)
    ensures RuleChecks(f, v, matches) == FirstFailure(CheckOrder[4..], f, v, matches)
  {
    var c4 := [Pattern, MinLength, MaxLength, MustBeTrue];
    var c5 := [MinLength, MaxLength, MustBeTrue];
    var c6 := [MaxLength, MustBeTrue];
    var c7 := [MustBeTrue];
    assert CheckOrder[4..] == c4;
    assert c4[1..] == c5 && c5[1..] == c6 && c6[1..] == c7 && c7[1..] == [];
    if Fails(Pattern, f, v, matches) {
      assert FirstFailure(c4, f, v, matches) == Message(Pattern, f);
    } else if Fails(MinLength, f, v, matches) {
      assert FirstFailure(c4, f, v, matches) == FirstFailure(c5, f, v, matches) == Message(MinLength, f);
    } else if Fails(MaxLength, f, v, matches) {
      assert FirstFailure(c5, f, v, matches) == FirstFailure(c6, f, v, matches) == Message(MaxLength, f);
    } else {
      assert FirstFailure(c4, f, v, matches) == FirstFailure(c5, f, v, matches) == FirstFailure(c6, f, v, matches);
      assert FirstFailure(c6, f, v, matches) == FirstFailure(c7, f, v, matches);
      assert FirstFailure(c7, f, v, matches) == if Fails(MustBeTrue, f, v, matches) then Message(MustBeTrue, f) else "";
    }
  }

  /** The validator is the ordered chain: it reports the message of the first
      check in CheckOrder that fails. */
  lemma {:induction false} ValidateFieldIsFirstFailure(f: Field, v: Value, matches: Matcher)
    ensures ValidateField(f, v, matches) == FirstFailure(CheckOrder, f, v, matches)
  {
    var c0 := CheckOrder;
    var c1 := [TimeNotString, TimeFormat, TimeRange, Pattern, MinLength, MaxLength, MustBeTrue];
    var c2 := [TimeFormat, TimeRange, Pattern, MinLength, MaxLength, MustBeTrue];
    var c3 := [TimeRange, Pattern, MinLength, MaxLength, MustBeTrue];
    assert c0[1..] == c1 && c1[1..] == c2 && c2[1..] == c3 && c3[1..] == c0[4..];
    if Fails(Mandatory, f, v, matches) {
      assert FirstFailure(c0, f, v, matches) == Message(Mandatory, f);
    } else if Fails(TimeNotString, f, v, matches) {
      assert FirstFailure(c0, f, v, matches) == FirstFailure(c1, f, v, matches) == Message(TimeNotString, f);
    } else if Fails(TimeFormat, f, v, matches) {
      assert FirstFailure(c1, f, v, matches) == FirstFailure(c2, f, v, matches) == Message(TimeFormat, f);
    } else if Fails(TimeRange, f, v, matches) {
      assert FirstFailure(c2, f, v, matches) == FirstFailure(c3, f, v, matches) == Message(TimeRange, f);
    } else {
      assert FirstFailure(c0, f, v, matches) == FirstFailure(c1, f, v, matches) == FirstFailure(c2, f, v, matches);
      assert FirstFailure(c2, f, v, matches) == FirstFailure(c3, f, v, matches) == FirstFailure(c0[4..], f, v, matches);
      RuleChecksAreChain(f, v, matches);
    }
  }

  /** The result of a chain is "" exactly when none of its checks fails, and
      otherwise it is the message of a failing check preceded only by passing
      ones. */
  lemma {:induction false} FirstFailureSpec(cs: seq<Check>, f: Field, v: Value, matches: Matcher)
    ensures FirstFailure(cs, f, v, matches) == "" <==> forall i :: 0 <= i < |cs| ==> !Fails(cs[i], f, v, matches)
    ensures FirstFailure(cs, f, v, matches) != "" ==>
      exists i :: 0 <= i < |cs| && Fails(cs[i], f, v, matches)
        && FirstFailure(cs, f, v, matches) == Message(cs[i], f)
        && forall j :: 0 <= j < i ==> !Fails(cs[j], f, v, matches)
  {
    if cs != [] && !Fails(cs[0], f, v, matches) {
      FirstFailureSpec(cs[1..], f, v, matches);
      assert forall i :: 1 <= i < |cs| ==> cs[i] == cs[1..][i - 1];
      if FirstFailure(cs, f, v, matches) != "" {
        var k :| 0 <= k < |cs[1..]| && Fails(cs[1..][k], f, v, matches)
          && FirstFailure(cs[1..], f, v, matches) == Message(cs[1..][k], f)
          && forall j :: 0 <= j < k ==> !Fails(cs[1..][j], f, v, matches);
        assert Fails(cs[k + 1], f, v, matches);
      }
    }
  }

  /** A field is valid exactly when none of the six checks rejects it. */
  lemma ValidIffNoCheckFails(f: Field, v: Value, matches: Matcher)
    ensures ValidateField(f, v, matches) == "" <==> forall c :: c in CheckOrder ==> !Fails(c, f, v, matches)
  {
    ValidateFieldIsFirstFailure(f, v, matches);
    FirstFailureSpec(CheckOrder, f, v, matches);
  }

  /** The first failing check in order decides the message; later checks are
      not consulted. */
  lemma FirstFailingCheckWins(f: Field, v: Value, matches: Matcher, i: nat)
    requires i < |CheckOrder| && Fails(CheckOrder[i], f, v, matches)
    requires forall j :: 0 <= j < i ==> !Fails(CheckOrder[j], f, v, matches)
    ensures ValidateField(f, v, matches) == Message(CheckOrder[i], f)
  {
    ValidateFieldIsFirstFailure(f, v, matches);
    FirstFailureSpec(CheckOrder, f, v, matches);
    var k :| 0 <= k < |CheckOrder| && Fails(CheckOrder[k], f, v, matches)
      && FirstFailure(CheckOrder, f, v, matches) == Message(CheckOrder[k], f)
      && forall j :: 0 <= j < k ==> !Fails(CheckOrder[j], f, v, matches);
    assert k == i;
  }

  // ---------------------------------------------------------------------
  // Properties of single checks.

  /** A mandatory field with undefined, null, "" or false reports the
      override message or "This field is required". */
  lemma MandatoryMissing(f: Field, v: Value, matches: Matcher)
    requires f.mandatory && IsMissing(v)
    ensures ValidateField(f, v, matches) == Override(f, "This field is required")
    ensures ValidateField(f, v, matches) != ""
  {
  }

  /** An empty value of an optional field passes every check but
      must-be-true, which is not guarded by truthiness. */
  lemma OptionalEmptyPasses(f: Field, v: Value, matches: Matcher)
    requires !f.mandatory && (v == Undefined || v == Null || v == Str(""))
    ensures ValidateField(f, v, matches) ==
      if RuleOf(f).mustBeTrue == Some(true) then Override(f, "This must be checked") else ""
  {
  }

  /** Time fields: a truthy non-string, a string not shaped HH:MM, and an
      HH:MM string out of the clock's range each fail with their message;
      a real time of day passes the time checks. */
  lemma TimeChecks(f: Field, v: Value, matches: Matcher)
    requires f.ftype == Time && Truthy(v)
    ensures !v.Str? ==> ValidateField(f, v, matches) == Override(f, "Invalid time")
    ensures v.Str? && !IsTimeShape(v.s) ==> ValidateField(f, v, matches) == Override(f, "Invalid time format")
    ensures v.Str? && IsTimeShape(v.s) && !IsClockTime(v.s) ==> ValidateField(f, v, matches) == Override(f, "Invalid time")
    ensures v.Str? && IsClockTime(v.s) && RuleOf(f) == NoRule ==> ValidateField(f, v, matches) == ""
  {
  }

  /** A truthy value the pattern rejects fails with the override or
      "Invalid format"; one it accepts gets past the pattern check. */
  lemma PatternCheck(f: Field, v: Value, matches: Matcher)
    requires !Fails(Mandatory, f, v, matches) && f.ftype != Time
    requires IsSetPattern(RuleOf(f).regex) && Truthy(v)
    ensures !matches(RuleOf(f).regex.value, JsString(v)) ==>
      ValidateField(f, v, matches) == Override(f, "Invalid format")
    ensures matches(RuleOf(f).regex.value, JsString(v)) ==>
      !Fails(Pattern, f, v, matches)
  {
  }

  /** Once a non-empty string gets past the time and pattern checks, length
      failures report "Minimum N characters required" or "Maximum N
      characters allowed", whatever `errorMessage` says. */
  lemma LengthMessages(f: Field, s: string, matches: Matcher)
    requires s != ""
    requires !Fails(TimeFormat, f, Str(s), matches) && !Fails(TimeRange, f, Str(s), matches)
    requires !Fails(Pattern, f, Str(s), matches)
    ensures IsSetBound(RuleOf(f).minLength) && |s| < RuleOf(f).minLength.value ==>
      ValidateField(f, Str(s), matches) == MinLengthMessage(RuleOf(f).minLength.value)
    ensures (IsSetBound(RuleOf(f).maxLength) && |s| > RuleOf(f).maxLength.value
             && !(IsSetBound(RuleOf(f).minLength) && |s| < RuleOf(f).minLength.value)) ==>
      ValidateField(f, Str(s), matches) == MaxLengthMessage(RuleOf(f).maxLength.value)
  {
  }

  /** A length bound of 0 is falsy and switches its own check off. */
  lemma ZeroBoundDisabled(f: Field, v: Value, matches: Matcher)
    ensures RuleOf(f).minLength == Some(0) ==> !Fails(MinLength, f, v, matches)
    ensures RuleOf(f).maxLength == Some(0) ==> !Fails(MaxLength, f, v, matches)
  {
  }

  /** Must-be-true rejects every value but `true`, even an empty value of an
      optional field, and accepts `true` once the earlier checks pass. */
  lemma MustBeTrueCheck(f: Field, v: Value, matches: Matcher)
    requires RuleOf(f).mustBeTrue == Some(true)
    requires forall j :: 0 <= j < 7 ==> !Fails(CheckOrder[j], f, v, matches)
    ensures ValidateField(f, v, matches) == "" <==> v == Bool(true)
    ensures v != Bool(true) ==> ValidateField(f, v, matches) == Override(f, "This must be checked")
  {
    if v != Bool(true) {
      FirstFailingCheckWins(f, v, matches, 7);
    } else {
      ValidIffNoCheckFails(f, v, matches);
      assert forall c :: c in CheckOrder ==> c == CheckOrder[7] || exists j :: 0 <= j < 7 && CheckOrder[j] == c;
    }
  }

  // ---------------------------------------------------------------------
  // Running the validator over a field list.

  /** The error map built by
      `fields.forEach(f => { const e = validateField(f, data[f.id]); if (e) errs[f.id] = e; })`:
      a left fold, so a later field with the same id overwrites. */
  function ErrorsOf(fs: seq<Field>, data: map<string, Value>, matches: Matcher): map<string, string> {
    if fs == [] then map[]
    else
      var errs := ErrorsOf(fs[..|fs| - 1], data, matches);
      var f := fs[|fs| - 1];
      var e := ValidateField(f, Get(data, f.id), matches);
      if e != "" then errs[f.id := e] else errs
  }

  /** Validating one more field adds its error, if any, to the map. */
  lemma ErrorsOfSnoc(fs: seq<Field>, f: Field, data: map<string, Value>, matches: Matcher)
    ensures ErrorsOf(fs + [f], data, matches) ==
      var e := ValidateField(f, Get(data, f.id), matches);
      if e != "" then ErrorsOf(fs, data, matches)[f.id := e] else ErrorsOf(fs, data, matches)
  {
    assert (fs + [f])[..|fs|] == fs;
  }

  /** One step of a loop over `fs`: the prefix map gains the next field's
      failure, if any. */
  lemma ErrorsOfPrefixStep(fs: seq<Field>, i: nat, data: map<string, Value>, matches: Matcher)
    requires i < |fs|
    ensures var e := ValidateField(fs[i], Get(data, fs[i].id), matches);
      ErrorsOf(fs[..i + 1], data, matches) ==
        if e != "" then ErrorsOf(fs[..i], data, matches)[fs[i].id := e] else ErrorsOf(fs[..i], data, matches)
  {
    assert fs[..i + 1][..i] == fs[..i];
  }

  /** Whether field `f` fails on the current data. */
  predicate FieldFails(f: Field, data: map<string, Value>, matches: Matcher) {
    ValidateField(f, Get(data, f.id), matches) != ""
  }

  /** The error map holds exactly the ids of failing fields. */
  lemma {:induction false} ErrorsOfKeys(fs: seq<Field>, data: map<string, Value>, matches: Matcher, k: string)
    ensures k in ErrorsOf(fs, data, matches) <==>
      exists i :: 0 <= i < |fs| && fs[i].id == k && FieldFails(fs[i], data, matches)
  {
    if fs != [] {
      var init := fs[..|fs| - 1];
      ErrorsOfKeys(init, data, matches, k);
      assert forall i :: 0 <= i < |init| ==> fs[i] == init[i];
      if k in ErrorsOf(fs, data, matches) && !(fs[|fs| - 1].id == k && FieldFails(fs[|fs| - 1], data, matches)) {
        assert k in ErrorsOf(init, data, matches);
      }
    }
  }

  /** Each entry of the error map is the non-empty message of the last
      failing field with that id. */
  lemma ErrorsOfValues(fs: seq<Field>, data: map<string, Value>, matches: Matcher, k: string)
    requires k in ErrorsOf(fs, data, matches)
    ensures exists i :: (0 <= i < |fs| && fs[i].id == k
      && ErrorsOf(fs, data, matches)[k] == ValidateField(fs[i], Get(data, k), matches)
      && ErrorsOf(fs, data, matches)[k] != ""
      && forall j :: i < j < |fs| && fs[j].id == k ==> !FieldFails(fs[j], data, matches))
  {
    var i := LastFailing(fs, data, matches, k);
  }

  /** The position of the field whose message the error map holds for `k`. */
  lemma {:induction false} LastFailing(fs: seq<Field>, data: map<string, Value>, matches: Matcher, k: string) returns (i: nat)
    requires k in ErrorsOf(fs, data, matches)
    ensures i < |fs| && fs[i].id == k
    ensures ErrorsOf(fs, data, matches)[k] == ValidateField(fs[i], Get(data, k), matches)
    ensures ErrorsOf(fs, data, matches)[k] != ""
    ensures forall j :: i < j < |fs| && fs[j].id == k ==> !FieldFails(fs[j], data, matches)
  {
    var n := |fs| - 1;
    var init := fs[..n];
    var f := fs[n];
    if f.id == k && FieldFails(f, data, matches) {
      i := n;
    } else {
      assert k in ErrorsOf(init, data, matches);
      i := LastFailing(init, data, matches, k);
      assert ErrorsOf(fs, data, matches)[k] == ErrorsOf(init, data, matches)[k];
      assert fs[i] == init[i];
      assert forall j :: i < j < n ==> fs[j] == init[j];
    }
  }

  /** The error map is empty exactly when every field validates. */
  lemma ErrorsOfEmpty(fs: seq<Field>, data: map<string, Value>, matches: Matcher)
    ensures ErrorsOf(fs, data, matches) == map[] <==>
      forall i :: 0 <= i < |fs| ==> !FieldFails(fs[i], data, matches)
  {
    if ErrorsOf(fs, data, matches) != map[] {
      var k :| k in ErrorsOf(fs, data, matches);
      ErrorsOfKeys(fs, data, matches, k);
    }
    if exists i :: 0 <= i < |fs| && FieldFails(fs[i], data, matches) {
      var i :| 0 <= i < |fs| && FieldFails(fs[i], data, matches);
      ErrorsOfKeys(fs, data, matches, fs[i].id);
    }
  }
}

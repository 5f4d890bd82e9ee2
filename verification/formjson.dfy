/** The built-in KYC schema, the single-page form used when no schema is
    supplied, with a few checks of the validator against its fields. */
module FormJson {
  import opened Wrappers
  import opened JsValue
  import opened FormTypes
  import opened Validation

  const NamePattern := "^[a-zA-Z ]+$"

  const FullName := Field("fullName", Text, Some("Full Name"), true, None,
    Some(ValidationRule(Some(3), Some(50), Some(NamePattern), None, None, None,
      Some("Name should contain only alphabets and spaces"))), None)

  const Email := Field("email", Text, Some("Email Address"), true, None,
    Some(ValidationRule(None, None, Some("^[^@\\s]+@[^@\\s]+\\.[^@\\s]+$"), None, None, None,
      Some("Enter a valid email address"))), None)

  const Gender := Field("gender", Dropdown, Some("Gender"), true,
    Some([FieldOption("Male", "M"), FieldOption("Female", "F"), FieldOption("Other", "O")]),
    Some(NoRule.(errorMessage := Some("Please select a gender"))), None)

  const StartTime := Field("startTime", Time, Some("Start Time"), true, None, None, None)

  const StopTime := Field("stopTime", Time, Some("Stop Time"), true, None, None, None)

  const CalculatedTime := Field("calculatedTime", Text, Some("Calculated Duration"), false, None, None, None)

  const TestResult := Field("testResult", Radio, Some("Test Result"), true,
    Some([FieldOption("Pass", "pass"), FieldOption("Fail", "fail")]),
    Some(NoRule.(errorMessage := Some("Please select a test result"))), None)

  const AgreeTerms := Field("agreeTerms", Checkbox, Some("I agree to the Terms & Conditions"), true, None,
    Some(NoRule.(mustBeTrue := Some(true), errorMessage := Some("You must agree before submitting"))), None)

  const IdentityProof := Field("identityProof", File, Some("Upload ID Proof"), true, None,
    Some(NoRule.(errorMessage := Some("Upload a valid ID proof (PDF/JPG/PNG, max 5MB)"))),
    Some(FileConfig(["pdf", "jpg", "png"], 5, None, None)))

  const ActionButtons := Field("actionButtons", ButtonGroup, None, false, None, None, None)

  const Fields: seq<Field> :=
    [FullName, Email, Gender, StartTime, StopTime, CalculatedTime, TestResult, AgreeTerms, IdentityProof, ActionButtons]

  const Instructions: seq<Instruction> := [
    Instruction(TextInstruction, "Please complete the KYC form. All mandatory fields must be filled.", None, None),
    Instruction(ImageInstruction, "https://example.com/images/kyc-info.png", None, Some("KYC Information")),
    Instruction(VideoInstruction, "https://example.com/videos/kyc-guide.mp4", None, None),
    Instruction(LinkInstruction, "https://example.com/kyc-guidelines", Some("View KYC Guidelines"), None)]

  const Schema := FormTypes.Schema(
    InstructionArray(Instructions),
    Items(AsEntries(Fields)),
    Absent)

  /** A two-letter name is too short; the length message ignores the
      field's own error message. */
  lemma FullNameTooShort(matches: Matcher)
    requires matches(NamePattern, "Jo")
    ensures ValidateField(FullName, Str("Jo"), matches) == "Minimum 3 characters required"
  {
    assert ValidateField(FullName, Str("Jo"), matches) == MinLengthMessage(3);
    MinimumThreeText();
  }

  /** The minimum-length message for the full name's bound. */
  lemma MinimumThreeText()
    ensures MinLengthMessage(3) == "Minimum 3 characters required"
  {
    assert IntToString(3) == "3";
  }

  /** An empty name fails the mandatory check, whose message is overridden by
      the field's error message. */
  lemma FullNameEmpty(matches: Matcher)
    ensures ValidateField(FullName, Str(""), matches) == "Name should contain only alphabets and spaces"
  {
  }

  /** A name the pattern rejects reports the field's error message. */
  lemma FullNameRejected(matches: Matcher)
    requires !matches(NamePattern, "John123")
    ensures ValidateField(FullName, Str("John123"), matches) == "Name should contain only alphabets and spaces"
  {
  }

  /** Start times out of range: "25:00" and "12:60" are invalid. */
  lemma StartTimeOutOfRange(matches: Matcher)
    ensures ValidateField(StartTime, Str("25:00"), matches) == "Invalid time"
    ensures ValidateField(StartTime, Str("12:60"), matches) == "Invalid time"
  {
    assert !IsClockTime("25:00") by { assert HoursOf("25:00") == 25; }
    assert !IsClockTime("12:60") by { assert MinutesOf("12:60") == 60; }
  }

  /** Start times: "12" is not HH:MM, a number is not a time, and "23:59" is
      valid. */
  lemma StartTimeExamples(matches: Matcher)
    ensures ValidateField(StartTime, Str("12"), matches) == "Invalid time format"
    ensures ValidateField(StartTime, Num(123), matches) == "Invalid time"
    ensures ValidateField(StartTime, Str("23:59"), matches) == ""
  {
    assert IsClockTime("23:59") by { assert HoursOf("23:59") == 23 && MinutesOf("23:59") == 59; }
  }

  /** The terms box must be ticked. */
  lemma AgreeTermsExamples(matches: Matcher)
    ensures ValidateField(AgreeTerms, Bool(false), matches) == "You must agree before submitting"
    ensures ValidateField(AgreeTerms, Str("yes"), matches) == "You must agree before submitting"
    ensures ValidateField(AgreeTerms, Bool(true), matches) == ""
  {
  }
}

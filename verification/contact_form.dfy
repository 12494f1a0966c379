/** The portfolio's multi-step contact form: the per-field rule table, the
    ordered checks of `validateField`, step validation that reports on every
    field, the next/previous step handlers, the step indicators, and the
    all-steps check on submission. */
module ContactForm {
  import opened Wrappers
  import opened Seqs
  import opened Text

  /** The hand-written counterparts of the rule table's regular expressions. */
  datatype Pattern = LettersAndSpaces | EmailAddress | PhoneCharacters

  /** A rule: `minLength` 0 stands for an absent minimum. */
  datatype Rule = Rule(required: bool, minLength: nat, pattern: Option<Pattern>, message: string)

  const FIRST_NAME_MESSAGE: string := "Please enter a valid first name (letters only, minimum 2 characters)"
  const LAST_NAME_MESSAGE: string := "Please enter a valid last name (letters only, minimum 2 characters)"
  const EMAIL_MESSAGE: string := "Please enter a valid email address"
  const PHONE_MESSAGE: string := "Please enter a valid phone number"
  const PROJECT_TYPE_MESSAGE: string := "Please select a project type"
  const BUDGET_MESSAGE: string := "Please select a budget range"
  const DESCRIPTION_MESSAGE: string := "Please provide a project description (minimum 10 characters)"

  /** The `name` attribute of a form control: the seven names the rule table
      knows, and any other (the company field, for one). */
  datatype FieldName =
    | FirstName | LastName | Email | Phone | ProjectType | Budget | Message
    | OtherName(name: string)
  {
    /** The attribute value as the page spells it. */
    function Attribute(): string {
      match this
      case FirstName => "firstName"
      case LastName => "lastName"
      case Email => "email"
      case Phone => "phone"
      case ProjectType => "projectType"
      case Budget => "budget"
      case Message => "message"
      case OtherName(name) => name
    }
  }

  /** Classifies an attribute value; a known spelling never ends up as
      `OtherName`. */
  function ParseName(attribute: string): (f: FieldName)
    ensures f.Attribute() == attribute
    ensures f.OtherName? ==>
              attribute !in {"firstName", "lastName", "email", "phone", "projectType", "budget", "message"}
  {
    match attribute
    case "firstName" => FirstName
    case "lastName" => LastName
    case "email" => Email
    case "phone" => Phone
    case "projectType" => ProjectType
    case "budget" => Budget
    case "message" => Message
    case _ => OtherName(attribute)
  }

  /** `validationRules[name]`. */
  function RuleFor(f: FieldName): (r: Option<Rule>)
    ensures r.None? <==> f.OtherName?
    ensures r.Some? ==> (r.value.required <==> f != Phone)
  {
    match f
    case FirstName => Some(Rule(true, 2, Some(LettersAndSpaces), FIRST_NAME_MESSAGE))
    case LastName => Some(Rule(true, 2, Some(LettersAndSpaces), LAST_NAME_MESSAGE))
    case Email => Some(Rule(true, 0, Some(EmailAddress), EMAIL_MESSAGE))
    case Phone => Some(Rule(false, 0, Some(PhoneCharacters), PHONE_MESSAGE))
    case ProjectType => Some(Rule(true, 0, None, PROJECT_TYPE_MESSAGE))
    case Budget => Some(Rule(true, 0, None, BUDGET_MESSAGE))
    case Message => Some(Rule(true, 10, None, DESCRIPTION_MESSAGE))
    case OtherName(_) => None
  }

  predicate IsAsciiLetter(c: char) {
    'a' <= c <= 'z' || 'A' <= c <= 'Z'
  }

  predicate IsDigit(c: char) {
    '0' <= c <= '9'
  }

  /** `/^[a-zA-Z\s]+$/`. */
  predicate IsLettersAndSpaces(s: string) {
    |s| > 0 && forall i :: 0 <= i < |s| ==> IsAsciiLetter(s[i]) || IsSpace(s[i])
  }

  /** `/^[\d\s\-\+\(\)]+$/`. */
  predicate IsPhoneCharacters(s: string) {
    |s| > 0 && forall i :: 0 <= i < |s| ==>
      IsDigit(s[i]) || IsSpace(s[i]) || s[i] == '-' || s[i] == '+' || s[i] == '(' || s[i] == ')'
  }

  /** Neither white space nor `@`: the class `[^\s@]`. */
  predicate IsAddressChar(c: char) {
    c != '@' && !IsSpace(c)
  }

  /** `/^[^\s@]+@[^\s@]+\.[^\s@]+$/` with the `@` at `at` and the chosen dot
      at `dot`: every other character is an address character, and the three
      parts are non-empty. */
  predicate AddressSplitsAt(s: string, at: int, dot: int) {
    0 < at && at + 1 < dot && dot + 1 < |s| && s[at] == '@' && s[dot] == '.' &&
    forall i :: 0 <= i < |s| && i != at ==> IsAddressChar(s[i])
  }

  predicate IsEmailAddress(s: string) {
    exists at, dot | 0 <= at < |s| && 0 <= dot < |s| :: AddressSplitsAt(s, at, dot)
  }

  /** The contact form's address shape is stricter than a bare `@`: one `@`,
      a dot after it with text on both sides, and no white space. */
  lemma EmailAddressExamples()
    ensures IsEmailAddress("jo@site.io")
    ensures !IsEmailAddress("jo@site")
    ensures !IsEmailAddress("jo@@site.io")
  {
    assert AddressSplitsAt("jo@site.io", 2, 7);
    var s := "jo@@site.io";
    assert forall at, dot | 0 <= at < |s| && 0 <= dot < |s| :: !AddressSplitsAt(s, at, dot) by {
      forall at, dot | 0 <= at < |s| && 0 <= dot < |s|
        ensures !AddressSplitsAt(s, at, dot)
      {
        if at != 2 {
          assert !IsAddressChar(s[2]);
        } else {
          assert !IsAddressChar(s[3]);
        }
      }
    }
    var t := "jo@site";
    assert forall k | 0 <= k < |t| :: t[k] != '.';
  }

  predicate Matches(p: Pattern, s: string) {
    match p
    case LettersAndSpaces => IsLettersAndSpaces(s)
    case EmailAddress => IsEmailAddress(s)
    case PhoneCharacters => IsPhoneCharacters(s)
  }

  /** What `validateField` does to a field: nothing (no rule), shows the
      rule's message, clears the error of an empty optional field, or clears
      it and marks the field as valid. */
  datatype Verdict = NoRule | Error(message: string) | Cleared | Success {
    predicate Passes() { !Error? }
  }

  /** The values a rule accepts, stated without the order of the checks: an
      empty value exactly when the field is optional, otherwise one long
      enough that matches the pattern. */
  predicate Acceptable(rule: Rule, value: string) {
    if value == "" then !rule.required
    else |value| >= rule.minLength && (rule.pattern.None? || Matches(rule.pattern.value, value))
  }

  /** `validateField`: the value is trimmed, then required, empty optional,
      minimum length and pattern are checked in that order. */
  function ValidateField(name: FieldName, raw: string): (r: Verdict)
    ensures RuleFor(name).None? <==> r == NoRule
    ensures RuleFor(name).Some? ==> (r.Passes() <==> Acceptable(RuleFor(name).value, Trim(raw)))
    ensures r.Error? ==> r.message == RuleFor(name).value.message
    ensures r == Cleared <==> RuleFor(name).Some? && !RuleFor(name).value.required && Trim(raw) == ""
  {
    match RuleFor(name)
    case None => NoRule
    case Some(rule) =>
      var value := Trim(raw);
      if rule.required && value == "" then Error(rule.message)
      else if !rule.required && value == "" then Cleared
      else if rule.minLength > 0 && |value| < rule.minLength then Error(rule.message)
      else if rule.pattern.Some? && !Matches(rule.pattern.value, value) then Error(rule.message)
      else Success
  }

  /** Surrounding white space never changes a verdict. */
  lemma TrimmedBeforeChecks(name: FieldName, raw: string)
    ensures ValidateField(name, raw) == ValidateField(name, Trim(raw))
  {
    TrimIdempotent(raw);
  }

  /** A required field left blank always fails with its message; the optional
      phone field left blank always passes. */
  lemma BlankFields(name: FieldName, raw: string)
    requires AllSpace(raw)
    ensures RuleFor(name).Some? && name != Phone ==> ValidateField(name, raw) == Error(RuleFor(name).value.message)
    ensures ValidateField(Phone, raw) == Cleared
  {
    TrimEmptyIffAllSpace(raw);
  }

  /** A two-letter name with surrounding blanks is accepted. */
  lemma ShortNameAccepted()
    ensures ValidateField(FirstName, " Jo ") == Success
  {
    var raw := " Jo ";
    assert raw[1..] == "Jo ";
    TrimStartFixed("Jo ");
    assert TrimStart(raw) == "Jo ";
    assert "Jo "[..2] == "Jo";
    TrimEndFixed("Jo");
    assert Trim(raw) == "Jo";
    assert IsLettersAndSpaces("Jo");
    assert Acceptable(RuleFor(FirstName).value, "Jo");
  }

  /** One letter is too short, and a digit is not a letter. */
  lemma BadNamesRefused()
    ensures ValidateField(FirstName, "J") == Error(FIRST_NAME_MESSAGE)
    ensures ValidateField(FirstName, "J0") == Error(FIRST_NAME_MESSAGE)
  {
    TrimStartFixed("J");
    TrimEndFixed("J");
    TrimStartFixed("J0");
    TrimEndFixed("J0");
    assert !IsLettersAndSpaces("J0") by {
      assert !IsAsciiLetter("J0"[1]) && !IsSpace("J0"[1]);
    }
  }

  /** Leaving a field validates it only when its raw value is non-empty. */
  function OnBlur(name: FieldName, raw: string): (r: Option<Verdict>)
    ensures r.None? <==> raw == ""
    ensures r.Some? ==> r.value == ValidateField(name, raw)
  {
    if raw != "" then Some(ValidateField(name, raw)) else None
  }

  /** Typing re-validates a field only while it shows an error. */
  function OnInput(name: FieldName, raw: string, showsError: bool): (r: Option<Verdict>)
    ensures r.None? <==> !showsError
    ensures r.Some? ==> r.value == ValidateField(name, raw)
  {
    if showsError then Some(ValidateField(name, raw)) else None
  }

  /** The blur check looks at the untrimmed value but validation trims it: a
      required field holding only blanks is flagged on leaving it, while an
      untouched empty one is not. */
  lemma BlurOnBlanks(name: FieldName, raw: string)
    requires RuleFor(name).Some? && name != Phone
    requires raw != "" && AllSpace(raw)
    ensures OnBlur(name, raw) == Some(Error(RuleFor(name).value.message))
    ensures OnBlur(name, "") == None
  {
    BlankFields(name, raw);
  }

  /** A field of the current step as the page holds it. */
  datatype FieldInput = FieldInput(name: FieldName, value: string)

  /** Every field of the step passes. */
  predicate StepValid(fields: seq<FieldInput>)
    decreases |fields|
  {
    |fields| == 0 || (ValidateField(fields[0].name, fields[0].value).Passes() && StepValid(fields[1..]))
  }

  /** A step is valid exactly when each of its fields passes. */
  lemma {:induction false} StepValidIffAllPass(fields: seq<FieldInput>)
    ensures StepValid(fields) <==> forall i :: 0 <= i < |fields| ==> ValidateField(fields[i].name, fields[i].value).Passes()
    decreases |fields|
  {
    if |fields| > 0 {
      StepValidIffAllPass(fields[1..]);
      assert forall i :: 1 <= i < |fields| ==> fields[i] == fields[1..][i - 1];
    }
  }

  /** The verdict of every field of a step, in page order. */
  function Verdicts(fields: seq<FieldInput>): (verdicts: seq<Verdict>)
    ensures |verdicts| == |fields|
    ensures forall i :: 0 <= i < |fields| ==> verdicts[i] == ValidateField(fields[i].name, fields[i].value)
  {
    seq(|fields|, i requires 0 <= i < |fields| => ValidateField(fields[i].name, fields[i].value))
  }

  /** The `isValid` flag of `validateStep`: cleared by any failing verdict,
      never short-circuiting. */
  method AllPass(verdicts: seq<Verdict>) returns (isValid: bool)
    ensures isValid <==> forall i :: 0 <= i < |verdicts| ==> verdicts[i].Passes()
  {
    isValid := true;
    var k := 0;
    while k < |verdicts|
      invariant 0 <= k <= |verdicts|
      invariant isValid <==> forall i :: 0 <= i < k ==> verdicts[i].Passes()
    {
      if !verdicts[k].Passes() {
        isValid := false;
      }
      k := k + 1;
    }
  }

  /** `validateStep` over the step's required inputs, selects and text areas:
      every field is validated, so every failing field shows its message, and
      the step is valid exactly when all of them pass. */
  method ValidateStep(fields: seq<FieldInput>) returns (isValid: bool, verdicts: seq<Verdict>)
    ensures |verdicts| == |fields|
    ensures forall i :: 0 <= i < |fields| ==> verdicts[i] == ValidateField(fields[i].name, fields[i].value)
    ensures isValid <==> forall i :: 0 <= i < |verdicts| ==> verdicts[i].Passes()
    ensures isValid <==> StepValid(fields)
  {
    verdicts := Verdicts(fields);
    isValid := AllPass(verdicts);
    StepValidIffAllPass(fields);
  }

  /** The next button: moves on only from a valid step that is not the last. */
  function NextStep(current: nat, stepCount: nat, stepValid: bool): (r: nat)
    requires current < stepCount
    ensures r < stepCount
    ensures r == current + 1 <==> stepValid && current < stepCount - 1
    ensures r != current + 1 ==> r == current
  {
    if stepValid && current < stepCount - 1 then current + 1 else current
  }

  /** The previous button: moves back from any step but the first. */
  function PrevStep(current: nat): (r: nat)
    ensures current > 0 ==> r == current - 1
    ensures current == 0 ==> r == 0
  {
    if current > 0 then current - 1 else current
  }

  /** One button press on the form. */
  datatype StepEvent = NextPressed(stepValid: bool) | PrevPressed

  function Press(current: nat, stepCount: nat, e: StepEvent): (r: nat)
    requires current < stepCount
    ensures r < stepCount
  {
    match e
    case NextPressed(stepValid) => NextStep(current, stepCount, stepValid)
    case PrevPressed => PrevStep(current)
  }

  /** The step shown after a sequence of presses. */
  function Run(current: nat, stepCount: nat, events: seq<StepEvent>): (r: nat)
    requires current < stepCount
    decreases |events|
  {
    if |events| == 0 then current else Run(Press(current, stepCount, events[0]), stepCount, events[1..])
  }

  /** No sequence of presses leaves the range of steps, and each press moves
      at most one step. */
  lemma {:induction false} RunStaysInRange(current: nat, stepCount: nat, events: seq<StepEvent>)
    requires current < stepCount
    ensures Run(current, stepCount, events) < stepCount
    ensures Run(current, stepCount, events) <= current + |events|
    ensures Run(current, stepCount, events) + |events| >= current
    decreases |events|
  {
    if |events| > 0 {
      RunStaysInRange(Press(current, stepCount, events[0]), stepCount, events[1..]);
    }
  }

  /** Only valid steps are ever left forwards: reaching a later step needs a
      press of next on a valid step. */
  lemma NextOnInvalidStepStays(current: nat, stepCount: nat)
    requires current < stepCount
    ensures NextStep(current, stepCount, false) == current
    ensures current + 1 < stepCount ==> PrevStep(NextStep(current, stepCount, true)) == current
  {
  }

  /** The state of one step indicator. */
  datatype Mark = Completed | Active | Pending

  /** `updateProgress`'s indicator classes. */
  function StepMarks(current: nat, indicatorCount: nat): (m: seq<Mark>)
    ensures |m| == indicatorCount
    ensures forall i :: 0 <= i < |m| ==> (m[i] == Completed <==> i < current)
    ensures forall i :: 0 <= i < |m| ==> (m[i] == Active <==> i == current)
  {
    seq(indicatorCount, i => if i < current then Completed else if i == current then Active else Pending)
  }

  function IsCompleted(m: Mark): bool { m == Completed }

  /** As many indicators are completed as there are steps before the current
      one. */
  lemma {:induction false} CompletedCount(current: nat, indicatorCount: nat)
    ensures Count(IsCompleted, StepMarks(current, indicatorCount)) ==
            if current < indicatorCount then current else indicatorCount
    decreases indicatorCount
  {
    if indicatorCount > 0 {
      var m := StepMarks(current, indicatorCount);
      var shorter := StepMarks(current, indicatorCount - 1);
      assert m == shorter + [m[indicatorCount - 1]];
      FilterAppend(IsCompleted, shorter, m[indicatorCount - 1]);
      CompletedCount(current, indicatorCount - 1);
    }
  }

  /** The submit handler. `stepResults[i]` is what `validateStep(i)` returned
      (see `ValidateStep`); every step is validated, and a failing step is
      shown unless it is already the current one, so the step left on screen is
      the last failing one. After a valid submission the form is reset to the
      first step. */
  method SubmitForm(stepResults: seq<bool>, current: nat) returns (isFormValid: bool, shown: nat)
    requires current < |stepResults|
    ensures isFormValid <==> forall s :: 0 <= s < |stepResults| ==> stepResults[s]
    ensures isFormValid ==> shown == 0
    ensures !isFormValid ==>
              shown < |stepResults| && !stepResults[shown] &&
              forall s :: shown < s < |stepResults| ==> stepResults[s]
  {
    isFormValid := true;
    shown := current;
    var index := 0;
    while index < |stepResults|
      invariant 0 <= index <= |stepResults|
      invariant shown < |stepResults|
      invariant isFormValid <==> forall s :: 0 <= s < index ==> stepResults[s]
      invariant !isFormValid ==>
                  shown < index && !stepResults[shown] && forall s :: shown < s < index ==> stepResults[s]
    {
      if !stepResults[index] {
        isFormValid := false;
        if shown != index {
          shown := index;
        }
      }
      index := index + 1;
    }
    if isFormValid {
      shown := 0;
    }
  }

  /** When every step validates, every required control of every step passed
      its rule. The optional phone control is not among them. */
  lemma FormValidMeansEveryFieldPasses(steps: seq<seq<FieldInput>>)
    requires forall s :: 0 <= s < |steps| ==> StepValid(steps[s])
    ensures forall s, i :: 0 <= s < |steps| && 0 <= i < |steps[s]| ==>
              ValidateField(steps[s][i].name, steps[s][i].value).Passes()
  {
    forall s | 0 <= s < |steps|
      ensures forall i :: 0 <= i < |steps[s]| ==> ValidateField(steps[s][i].name, steps[s][i].value).Passes()
    {
      StepValidIffAllPass(steps[s]);
    }
  }

  /** The card a valid submission adds to the testimonials. */
  datatype SubmissionCard = SubmissionCard(name: string, body: string, company: string)

  const THANKS: string := "Thank you for your interest!"
  const DEFAULT_COMPANY: string := "Client"

  /** `submissionData`: the two names joined by a space, the description or a
      thank-you line, the company or "Client". The values are the raw,
      untrimmed inputs. */
  function Submission(firstName: string, lastName: string, message: string, company: Option<string>)
    : (c: SubmissionCard)
    ensures c.name == firstName + " " + lastName
    ensures message != "" ==> c.body == message
    ensures message == "" ==> c.body == THANKS
    ensures c.company == if company.Some? && company.value != "" then company.value else DEFAULT_COMPANY
  {
    SubmissionCard(firstName + " " + lastName,
                   if message != "" then message else THANKS,
                   if company.Some? && company.value != "" then company.value else DEFAULT_COMPANY)
  }

  /** A description that passed validation is never replaced by the thank-you
      line. */
  lemma ValidDescriptionIsKept(firstName: string, lastName: string, message: string, company: Option<string>)
    requires ValidateField(Message, message).Passes()
    ensures Submission(firstName, lastName, message, company).body == message
  {
  }
}

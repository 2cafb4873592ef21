/**
 The contact form: `validateField` as an update of one field's error state,
 and `validateForm` over all the form's fields, with the warning toast it
 raises through `notify`.
 */
module ContactForm {
  import opened Options
  import opened JsText
  import opened FieldPatterns
  import opened FieldValidation
  import opened ErrorPresenter

  /** A form control: what validation reads, and its error state on the page. */
  datatype Field = Field(input: FieldInput, view: FieldView)

  /** The toast types the script passes to `notify` (`info` is its default). */
  datatype Severity = Info | Success | Warning

  /** A toast appended to the notification container. */
  datatype Notification = Notification(text: string, severity: Severity)

  const CorrectErrorsText := "Пожалуйста, исправьте ошибки в форме"

  /** The boolean `validateField` returns, with the field as it leaves it. */
  datatype Checked = Checked(valid: bool, field: Field)

  /**
   `validateField`: the error state is cleared first, then, if the decision
   produced a message, the message is shown and the result is false.
   */
  function ValidateField(m: Matchers, f: Field): (c: Checked)
    ensures c.valid <==> Decide(m, f.input) == None
    ensures c.field.input == f.input
  {
    var cleared := ClearError(f.view);
    match Decide(m, f.input)
    case Some(e) => Checked(false, f.(view := ShowError(cleared, e)))
    case None => Checked(true, f.(view := cleared))
  }

  /**
   What `validateField` leaves on the page: on failure the field is marked
   invalid and shows the decided message; on success it looks as if no error
   had been shown, because the error is cleared before anything else.
   */
  lemma ValidateFieldOutcome(m: Matchers, f: Field)
    requires Tidy(f.view)
    ensures var c := ValidateField(m, f);
            && (!c.valid ==> c.field.view.invalid && Displays(c.field.view, Decide(m, f.input).value))
            && (c.valid ==> Clean(c.field.view))
            && Tidy(c.field.view)
  {
    var cleared := ClearError(f.view);
    assert Clean(cleared);
  }

  /** `validateField` as written, with the error-slot operations of the script. */
  function ValidateFieldAsWritten(m: Matchers, f: Field): (c: Checked)
    ensures c.valid <==> Decide(m, f.input) == None
    ensures c.field.input == f.input
    ensures c.valid ==> c.field.view == ClearErrorAsWritten(f.view)
    ensures !c.valid ==> c.field.view.invalid && Displays(c.field.view, Decide(m, f.input).value)
  {
    var cleared := ClearErrorAsWritten(f.view);
    match Decide(m, f.input)
    case Some(e) => Checked(false, f.(view := ShowErrorAsWritten(cleared, e)))
    case None => Checked(true, f.(view := cleared))
  }

  /**
   Counterexample: a required field with no pattern role and no
   `aria-describedby` is left empty and validated twice, then filled in; the
   script's `validateField` returns true and still shows the required message.
   */
  lemma ValidFieldKeepsStaleMessageAsWritten(m: Matchers, empty: FieldInput, value: string)
    requires empty.required && empty.kind != "checkbox" && AllTrimmable(empty.value)
    requires RoleOf(empty.id, empty.kind) == NoRole && !AllTrimmable(value)
    ensures var f0 := Field(empty, FieldView(false, NotDescribed, []));
            var f1 := ValidateFieldAsWritten(m, f0).field;
            var f2 := ValidateFieldAsWritten(m, f1).field;
            var c3 := ValidateFieldAsWritten(m, f2.(input := empty.(value := value)));
            c3.valid && !c3.field.view.invalid && Displays(c3.field.view, Required)
  {
    var filled := empty.(value := value);
    RequiredEmptyGetsRequired(m, m, empty);
    NoRoleNoCheck(m, filled);
    var f0 := Field(empty, FieldView(false, NotDescribed, []));
    var c1 := ValidateFieldAsWritten(m, f0);
    assert c1.field.view.parentFeedback == [Feedback(Some(Required), true)];
    var c2 := ValidateFieldAsWritten(m, c1.field);
    assert c2.field.view.parentFeedback == [Hidden, Feedback(Some(Required), true)];
    var c3 := ValidateFieldAsWritten(m, c2.field.(input := filled));
    assert c3.field.view.parentFeedback == [Hidden, Feedback(Some(Required), true)];
    assert Slots(c3.field.view)[1] == Feedback(Some(Required), true);
  }

  /**
   The loop of `validateForm`: `validate` is applied to every field in turn,
   none skipped after a failure, and `valid` records whether all passed.
   */
  method ValidateEach(validate: Field -> Checked, fields: seq<Field>) returns (valid: bool, fields': seq<Field>)
    ensures |fields'| == |fields|
    ensures forall k | 0 <= k < |fields| :: fields'[k] == validate(fields[k]).field
    ensures valid <==> forall k | 0 <= k < |fields| :: validate(fields[k]).valid
  {
    valid := true;
    fields' := [];
    var i := 0;
    while i < |fields|
      invariant 0 <= i <= |fields|
      invariant |fields'| == i
      invariant forall k | 0 <= k < i :: fields'[k] == validate(fields[k]).field
      invariant valid <==> forall k | 0 <= k < i :: validate(fields[k]).valid
    {
      var c := validate(fields[i]);
      if !c.valid {
        valid := false;
      }
      fields' := fields' + [c.field];
      i := i + 1;
    }
  }

  /**
   `validateForm`: every field is validated, none skipped after a failure;
   the form is valid when all of them are; and one warning toast is raised
   when some field failed, none when all passed.
   */
  method ValidateForm(m: Matchers, fields: seq<Field>, toasts: seq<Notification>)
    returns (valid: bool, fields': seq<Field>, toasts': seq<Notification>)
    ensures |fields'| == |fields|
    ensures forall k | 0 <= k < |fields| :: fields'[k] == ValidateField(m, fields[k]).field
    ensures valid <==> forall k | 0 <= k < |fields| :: Decide(m, fields[k].input) == None
    ensures toasts' == if valid then toasts else toasts + [Notification(CorrectErrorsText, Warning)]
  {
    valid, fields' := ValidateEach(f => ValidateField(m, f), fields);
    AllFieldsValidIffNoVerdict(m, fields);
    toasts' := toasts;
    if !valid {
      toasts' := toasts' + [Notification(CorrectErrorsText, Warning)];
    }
  }

  /** Every field validates exactly when no field has a verdict. */
  lemma AllFieldsValidIffNoVerdict(m: Matchers, fields: seq<Field>)
    ensures (forall k | 0 <= k < |fields| :: ValidateField(m, fields[k]).valid)
        <==> (forall k | 0 <= k < |fields| :: Decide(m, fields[k].input) == None)
  {
  }

  /**
   After `validateForm`, each field that started tidy either shows its own
   error or looks as if it had never shown one.
   */
  lemma FormLeavesEachFieldSettled(m: Matchers, fields: seq<Field>, fields': seq<Field>)
    requires |fields'| == |fields|
    requires forall k | 0 <= k < |fields| :: fields'[k] == ValidateField(m, fields[k]).field
    requires forall k | 0 <= k < |fields| :: Tidy(fields[k].view)
    ensures forall k | 0 <= k < |fields| ::
      match Decide(m, fields[k].input)
      case None => Clean(fields'[k].view)
      case Some(e) => fields'[k].view.invalid && Displays(fields'[k].view, e)
  {
    forall k | 0 <= k < |fields|
      ensures match Decide(m, fields[k].input)
        case None => Clean(fields'[k].view)
        case Some(e) => fields'[k].view.invalid && Displays(fields'[k].view, e)
    {
      ValidateFieldOutcome(m, fields[k]);
    }
  }
}

/**
 * The client-side expense form: its four text fields, the map of per-field
 * error messages, and the submissions it hands to its `onSubmit` callback.
 * Unlike the server, the form runs all three checks and reports every
 * failing field at once.
 */
module Form {
  import opened Wrappers
  import opened Text
  import opened Money
  import opened Records
  import opened Validation

  /** The fields that can carry an error. */
  datatype Field = AmountField | CategoryField | DateField

  const AmountError: string := "Amount must be a positive number"
  const CategoryError: string := "Category is required"
  const DateError: string := "Date is required"

  function ErrorFor(f: Field): string
  {
    match f
    case AmountField => AmountError
    case CategoryField => CategoryError
    case DateField => DateError
  }

  /**
   * One call of `onSubmit`, from the field values at submit time: it passes
   * the amount and date as typed and the category and description trimmed.
   */
  datatype Submission = Submission(amount: string, typedCategory: string, typedDescription: string, date: string)
  {
    function Category(): string
    {
      Trim(typedCategory)
    }

    function Description(): string
    {
      Trim(typedDescription)
    }
  }

  /**
   * The amount check: `!amount || isNaN(parseFloat(amount)) ||
   * parseFloat(amount) <= 0` fails exactly when the text has no positive
   * paise value (the empty text does not parse).
   */
  predicate AmountOk(amount: string)
  {
    ToPaise(Some(amount)).Some?
  }

  /** The category check: `!category.trim()` fails exactly on text that is all white space. */
  predicate CategoryBlank(category: string)
  {
    AllSpace(category)
  }

  /** Text is blank exactly when trimming leaves nothing. */
  lemma CategoryBlankIsEmptyTrim(category: string)
    ensures CategoryBlank(category) <==> Trim(category) == ""
  {
  }

  /** The form lets a submission through: all three checks pass. */
  predicate FormAccepts(amount: string, category: string, date: string)
  {
    AmountOk(amount) && !CategoryBlank(category) && date != ""
  }

  /**
   * The errors `validateForm` collects. Each check adds its own entry
   * independently of the others, so the map is empty exactly when the
   * form accepts.
   */
  function FormErrors(amount: string, category: string, date: string): (errors: map<Field, string>)
    ensures AmountField in errors <==> !AmountOk(amount)
    ensures CategoryField in errors <==> CategoryBlank(category)
    ensures DateField in errors <==> date == ""
    ensures forall f :: f in errors ==> errors[f] == ErrorFor(f)
    ensures errors == map[] <==> FormAccepts(amount, category, date)
  {
    var withAmount: map<Field, string> := if AmountOk(amount) then map[] else map[AmountField := AmountError];
    var withCategory := if !CategoryBlank(category) then withAmount else withAmount[CategoryField := CategoryError];
    var errors := if date != "" then withCategory else withCategory[DateField := DateError];
    assert errors == map[] ==> AmountField !in errors && CategoryField !in errors && DateField !in errors;
    errors
  }

  /**
   * The per-field `onChange` rule: a field whose error is set (present and
   * not empty) gets its entry replaced by the empty text; nothing else in
   * the map changes.
   */
  function ClearError(errors: map<Field, string>, f: Field): (r: map<Field, string>)
    ensures r.Keys == errors.Keys
    ensures forall g :: g in errors && g != f ==> r[g] == errors[g]
    ensures f in errors ==> r[f] == ""
  {
    if f in errors && errors[f] != "" then errors[f := ""] else errors
  }

  /** The form is cleared after a submission only when the `error` prop is null or empty. */
  predicate Clears(submitted: bool, error: Option<string>)
  {
    submitted && (error.None? || error.value == "")
  }

  /** The form component's state. */
  class ExpenseForm {
    var amount: string
    var category: string
    var description: string
    var date: string
    var fieldErrors: map<Field, string>
    /** The calls made to `onSubmit`, oldest first. */
    var submissions: seq<Submission>

    /** All four fields are empty. */
    predicate Blank()
      reads this
    {
      amount == "" && category == "" && description == "" && date == ""
    }

    constructor ()
      ensures Blank() && fieldErrors == map[] && submissions == []
    {
      amount := "";
      category := "";
      description := "";
      date := "";
      fieldErrors := map[];
      submissions := [];
    }

    /** `validateForm`: build the error map check by check, store it, report whether it is empty. */
    method ValidateForm() returns (ok: bool)
      modifies this`fieldErrors
      ensures fieldErrors == FormErrors(amount, category, date)
      ensures ok <==> FormAccepts(amount, category, date)
    {
      var errors: map<Field, string> := map[];
      if !AmountOk(amount) {
        errors := errors[AmountField := AmountError];
      }
      if CategoryBlank(category) {
        errors := errors[CategoryField := CategoryError];
      }
      if date == "" {
        errors := errors[DateField := DateError];
      }
      assert errors == FormErrors(amount, category, date);
      fieldErrors := errors;
      ok := |errors| == 0;
    }

    /**
     * `handleSubmit`. `error` is the `error` prop the handler was created
     * with; the form is cleared after a submission only when it is null or
     * empty.
     */
    method HandleSubmit(error: Option<string>) returns (submitted: bool)
      modifies this
      ensures submitted <==> FormAccepts(old(amount), old(category), old(date))
      ensures !submitted ==> submissions == old(submissions)
      ensures submitted ==> submissions == old(submissions) + [Submission(old(amount), old(category), old(description), old(date))]
      ensures Clears(submitted, error) ==> Blank() && fieldErrors == map[]
      ensures !Clears(submitted, error) ==>
                && amount == old(amount) && category == old(category)
                && description == old(description) && date == old(date)
                && fieldErrors == FormErrors(amount, category, date)
    {
      submitted := ValidateForm();
      if !submitted {
        return;
      }
      submissions := submissions + [Submission(amount, category, description, date)];
      if error.None? || error.value == "" {
        amount := "";
        category := "";
        description := "";
        date := "";
        fieldErrors := map[];
      }
    }

    method ChangeAmount(value: string)
      modifies this`amount, this`fieldErrors
      ensures amount == value && fieldErrors == ClearError(old(fieldErrors), AmountField)
    {
      amount := value;
      if AmountField in fieldErrors && fieldErrors[AmountField] != "" {
        fieldErrors := fieldErrors[AmountField := ""];
      }
    }

    method ChangeCategory(value: string)
      modifies this`category, this`fieldErrors
      ensures category == value && fieldErrors == ClearError(old(fieldErrors), CategoryField)
    {
      category := value;
      if CategoryField in fieldErrors && fieldErrors[CategoryField] != "" {
        fieldErrors := fieldErrors[CategoryField := ""];
      }
    }

    /** The description has no check, so editing it leaves the errors alone. */
    method ChangeDescription(value: string)
      modifies this`description
      ensures description == value
    {
      description := value;
    }

    method ChangeDate(value: string)
      modifies this`date, this`fieldErrors
      ensures date == value && fieldErrors == ClearError(old(fieldErrors), DateField)
    {
      date := value;
      if DateField in fieldErrors && fieldErrors[DateField] != "" {
        fieldErrors := fieldErrors[DateField := ""];
      }
    }
  }

  /** Submitting the empty form reports all three errors. */
  lemma EmptyFormReportsAll()
    ensures FormErrors("", "", "")
            == map[AmountField := AmountError, CategoryField := CategoryError, DateField := DateError]
  {
  }

  /**
   * A submission the form lets through, with an ISO date and a description
   * of at most 500 characters once trimmed, passes the server's checks, and
   * the server stores what the form sent: the category as sent (it is
   * already trimmed) and the description, or null when it is empty.
   */
  lemma FormSubmissionPassesServer(key: string, s: Submission)
    requires key != "" && FormAccepts(s.amount, s.typedCategory, s.date) && ValidDate(s.date)
    requires |s.Description()| <= MaxDescriptionLength
    ensures var body := PostBody(Some(s.amount), Some(s.Category()), Some(s.Description()), Some(s.date));
            && Validate(Some(key), body).Ok?
            && Validate(Some(key), body).value.category == s.Category()
            && Validate(Some(key), body).value.description
               == (if s.Description() == "" then None else Some(s.Description()))
  {
  }

  /**
   * The form's date check is weaker than the server's: any non-empty text
   * passes the form, while the server refuses a date it cannot read.
   */
  lemma FormPassesUnreadableDate(key: string, s: Submission)
    requires key != "" && FormAccepts(s.amount, s.typedCategory, s.date) && !ValidDate(s.date)
    ensures Validate(Some(key), PostBody(Some(s.amount), Some(s.Category()), Some(s.Description()), Some(s.date)))
            == Err(DateMessage)
  {
  }
}

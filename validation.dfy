/**
 * The POST input checks of the expense handler, in their fixed order: the
 * idempotency key, then amount, category, date and description. The first
 * check that fails decides the 400 message.
 */
module Validation {
  import opened Wrappers
  import opened Text
  import opened Money
  import opened Records

  const MissingKeyMessage: string := "Missing Idempotency-Key header"
  const AmountMessage: string := "Amount must be a positive number"
  const CategoryMessage: string := "Category is required"
  const DateMessage: string := "Valid date is required"
  const DescriptionMessage: string := "Description too long (max 500 characters)"
  const MaxDescriptionLength: nat := 500

  /** The JSON body of a POST; an absent or null field is None. */
  datatype PostBody = PostBody(
    amount: Option<string>,
    category: Option<string>,
    description: Option<string>,
    date: Option<string>)

  /** The input once it has passed every check, in the form the store receives it. */
  datatype Normalized = Normalized(
    key: string,
    amountPaise: nat,
    category: string,
    description: Option<string>,
    date: string)

  /** `!idempotencyKey` fails: the header is absent or empty. */
  predicate KeyGiven(key: Option<string>)
  {
    key.Some? && key.value != ""
  }

  /** The category is a string that is not empty once trimmed. */
  predicate CategoryGiven(category: Option<string>)
  {
    category.Some? && Trim(category.value) != ""
  }

  /** The date is present, not empty, and a valid date. */
  predicate DateGiven(date: Option<string>)
  {
    date.Some? && date.value != "" && ValidDate(date.value)
  }

  /** An absent or empty description passes; otherwise its raw, untrimmed length is at most 500. */
  predicate DescriptionFits(description: Option<string>)
  {
    description.None? || description.value == "" || |description.value| <= MaxDescriptionLength
  }

  /** `description ? description.trim() : null`. */
  function StoredDescription(description: Option<string>): (r: Option<string>)
    ensures r.None? <==> description.None? || description.value == ""
    ensures r.Some? ==> r.value == Trim(description.value)
  {
    if description.Some? && description.value != "" then Some(Trim(description.value)) else None
  }

  /** Normalized input has the shape of a stored row. */
  predicate NormalizedWellFormed(n: Normalized)
  {
    && n.key != ""
    && n.amountPaise > 0
    && n.category != [] && Trimmed(n.category)
    && (n.description.Some? ==> |n.description.value| <= MaxDescriptionLength && Trimmed(n.description.value))
    && ValidDate(n.date)
  }

  /**
   * The validation chain. Each check runs only when all earlier ones passed,
   * so the first failing check decides the error; on success the amount is
   * in paise and category and description are trimmed.
   */
  function Validate(key: Option<string>, body: PostBody): (r: Result<Normalized, string>)
    ensures !KeyGiven(key) ==> r == Err(MissingKeyMessage)
    ensures KeyGiven(key) && ToPaise(body.amount).None? ==> r == Err(AmountMessage)
    ensures KeyGiven(key) && ToPaise(body.amount).Some? && !CategoryGiven(body.category) ==> r == Err(CategoryMessage)
    ensures (KeyGiven(key) && ToPaise(body.amount).Some? && CategoryGiven(body.category) && !DateGiven(body.date))
            ==> r == Err(DateMessage)
    ensures (KeyGiven(key) && ToPaise(body.amount).Some? && CategoryGiven(body.category) && DateGiven(body.date)
             && !DescriptionFits(body.description))
            ==> r == Err(DescriptionMessage)
    ensures r.Ok? <==> KeyGiven(key) && ToPaise(body.amount).Some? && CategoryGiven(body.category)
                       && DateGiven(body.date) && DescriptionFits(body.description)
    ensures r.Ok? ==> NormalizedWellFormed(r.value)
    ensures r.Ok? ==> r.value.key == key.value && r.value.amountPaise == ToPaise(body.amount).value
                      && r.value.category == Trim(body.category.value)
                      && r.value.description == StoredDescription(body.description)
                      && r.value.date == body.date.value
  {
    if !KeyGiven(key) then Err(MissingKeyMessage)
    else if ToPaise(body.amount).None? then Err(AmountMessage)
    else if !CategoryGiven(body.category) then Err(CategoryMessage)
    else if !DateGiven(body.date) then Err(DateMessage)
    else if !DescriptionFits(body.description) then Err(DescriptionMessage)
    else
      var category := Trim(body.category.value);
      var description := StoredDescription(body.description);
      Ok(Normalized(key.value, ToPaise(body.amount).value, category, description, body.date.value))
  }

  /** Every refusal carries one of the five 400 messages, and the five are distinct. */
  lemma ValidationMessages(key: Option<string>, body: PostBody)
    ensures Validate(key, body).Err? ==>
              Validate(key, body).error in {MissingKeyMessage, AmountMessage, CategoryMessage, DateMessage, DescriptionMessage}
    ensures |{MissingKeyMessage, AmountMessage, CategoryMessage, DateMessage, DescriptionMessage}| == 5
  {
  }

  /** A description of exactly 500 characters is accepted and one of 501 is refused. */
  lemma DescriptionBoundary(d: string)
    requires |d| == MaxDescriptionLength || |d| == MaxDescriptionLength + 1
    ensures DescriptionFits(Some(d)) <==> |d| == MaxDescriptionLength
  {
  }

  /** A whitespace-only category is refused as missing. */
  lemma WhitespaceCategoryRefused(key: Option<string>, body: PostBody)
    requires KeyGiven(key) && ToPaise(body.amount).Some?
    requires body.category.Some? && AllSpace(body.category.value)
    ensures Validate(key, body) == Err(CategoryMessage)
  {
  }
}

/**
 * The expense row as the store keeps it and as responses carry it.
 */
module Records {
  import opened Wrappers
  import opened Text
  import opened Money

  /**
   * A stored expense. `id` is the identifier the store assigns, `createdAt`
   * the creation time it stamps; `amountPaise` is the authoritative amount.
   */
  datatype Expense = Expense(
    id: nat,
    amountPaise: nat,
    category: string,
    description: Option<string>,
    date: string,
    createdAt: int)

  /**
   * A calendar date in the ISO form YYYY-MM-DD, as `new Date(date)` accepts
   * it: month 01 to 12, day 01 to 31.
   */
  predicate ValidDate(d: string)
  {
    && |d| == 10 && d[4] == '-' && d[7] == '-'
    && AllDigits(d[..4]) && AllDigits(d[5..7]) && AllDigits(d[8..])
    && 1 <= DigitsValue(d[5..7]) <= 12
    && 1 <= DigitsValue(d[8..]) <= 31
  }

  /** What every row the handler inserts satisfies. */
  predicate WellFormed(e: Expense)
  {
    && e.amountPaise > 0
    && e.category != [] && Trimmed(e.category)
    && (e.description.Some? ==> |e.description.value| <= 500 && Trimmed(e.description.value))
    && ValidDate(e.date)
  }

  /**
   * A row as a response shows it: every stored column, plus `amount`, the
   * paise as rupees with two decimals.
   */
  datatype ExpenseView = ExpenseView(expense: Expense)
  {
    /** The `amount` field: two-decimal text that reads back as exactly the stored paise. */
    function Amount(): (s: string)
      ensures TwoDecimals(s) && ParseFloat(s) == Some(Decimal(false, expense.amountPaise))
    {
      FormatPaise(expense.amountPaise)
    }
  }

  /** `data.map(formatExpense)`: one view per row, in the same order. */
  function Views(rows: seq<Expense>): (r: seq<ExpenseView>)
    ensures |r| == |rows| && forall i :: 0 <= i < |rows| ==> r[i].expense == rows[i]
  {
    seq(|rows|, i requires 0 <= i < |rows| => ExpenseView(rows[i]))
  }
}

# Expense tracker: a verified model of the expenses API and the expense form

This project models, in Dafny, the two pieces of logic in the expense
tracker.

- **The `/api/expenses` handler** (`pages/api/expenses.ts`).
  - A POST validates its input in a fixed order. It turns the decimal amount
    into whole paise.
  - It then either replays the expense recorded for its `Idempotency-Key`, or
    inserts one new expense and records the key.
  - A GET filters the stored expenses by a case-insensitive category match and
    sorts them by date or by creation time, newest first.
  - Every expense in a response carries its amount as two-decimal rupees.
  - Any other method gets 405.
- **The client-side expense form** (`components/ExpenseForm.tsx`). Its
  `validateForm` collects every field error at once. `handleSubmit` calls
  `onSubmit` with trimmed text and then clears the form, but only when its
  `error` prop is null or empty. The `onChange` handlers
  clear a field's error when that field is edited.

Files and modules:

| file | module | contents |
|---|---|---|
| `wrappers.dfy` | `Wrappers` | `Option`, `Result` |
| `text.dfy` | `Text` | JavaScript `trim`, ASCII case folding, decimal digit strings |
| `money.dfy` | `Money` | `parseFloat` on decimal text, paise conversion, `toFixed(2)` |
| `records.dfy` | `Records` | the stored expense row and its response view |
| `validation.dfy` | `Validation` | the POST validation chain |
| `query.dfy` | `Query` | the `ILIKE` category filter and the two sort orders |
| `api.dfy` | `ExpensesApi` | the store (expense rows and the idempotency ledger), POST, GET, 405 |
| `form.dfy` | `Form` | the form state and its handlers |

The store is a class, `ExpensesApi.Store`, with two fields:
- `rows`, the `expenses` table;
- `ledger`, the `idempotency_keys` table, mapping a key to an expense id.

Everything the store does on its own comes in as a `StoreOutcomes` value:
- a failed read or write;
- the error message it reports;
- the creation time it stamps.

`Store.Post` is written step by step against this state. It is proved equal to
the pure `PostSpec`, and the properties of a POST are lemmas about `PostSpec`.
An expense's id is its position in `rows`, so ids are assigned in insertion
order and never reused. The store invariant `Consistent` says three things:
- each row's id is its position;
- each row has the shape the handler inserts;
- each ledger entry names a stored row.

Three behaviours of the handler that the model keeps as they are:
- The description limit applies to the raw, untrimmed length
  (`pages/api/expenses.ts:38`).
- A failed insert, or a failed read of the replayed expense, answers 500 with
  the store's own message when it has one, and "Failed to create expense"
  otherwise (`pages/api/expenses.ts:58,77,102`). A failed GET query answers
  500 with the fixed text "Failed to fetch expenses" (`pages/api/expenses.ts:125`).
  An error from the ledger read is ignored, and the key counts as new
  (`pages/api/expenses.ts:44-50`).
- An error from the ledger write is ignored: nothing falls back to a lookup,
  and the answer is still 201 (`pages/api/expenses.ts:87-91`).

## Model

| member | source | states |
|---|---|---|
| Text.Trim | pages/api/expenses.ts:72-73 | `trim` removes only white space, from both ends; the result is empty exactly when the text is all white space, and otherwise starts and ends with a non-space |
| Text.TrimIdempotent | components/ExpenseForm.tsx:52-57 | trimming text that is already trimmed (the form trims, the server trims again) changes nothing |
| Text.NatToString | pages/api/expenses.ts:63 | the whole-rupee part prints as canonical decimal digits that read back as the same number |
| Text.NatToStringOfValue | pages/api/expenses.ts:63 | canonical digit text is exactly what printing its value gives back |
| Money.ParseFloat | pages/api/expenses.ts:24 | a parsed amount is negative exactly when the text starts with `-` |
| Money.ToPaise | pages/api/expenses.ts:24-28 | an amount has a paise value exactly when it is present, parses and is greater than zero, and that value is positive |
| Money.ParseDecimalText | pages/api/expenses.ts:24 | `parseFloat` reads every text of the modelled grammar (optional `+` or `-`, whole digits, an optional point and at most two digits after it) as its sign and exactly `whole * 100 + fraction` hundredths |
| Money.ParsedIsDecimalText | pages/api/expenses.ts:24 | every text `parseFloat` reads as a number is of that grammar, so `ParseDecimalText` gives the value of every accepted amount |
| Money.ToPaiseOfDecimalText | pages/api/expenses.ts:24-28 | on text of the grammar, the amount check accepts exactly when there is no minus sign and the value is above zero, and then the paise are exactly `whole * 100 + fraction`; otherwise it refuses |
| Money.FormatPaise | pages/api/expenses.ts:63 | `(paise / 100).toFixed(2)` prints two-decimal text that `parseFloat` reads back as exactly the same paise |
| Money.ToPaiseOfFormat | pages/api/expenses.ts:24-28 | a formatted stored amount passes the amount check again with the same paise |
| Money.FormatOfToPaise | pages/api/expenses.ts:63 | two-decimal text of a positive amount is exactly what formatting its paise prints |
| Money.AcceptedExample | tests/api/expenses.test.ts:107-129 | "105.50" is accepted as 10550 paise |
| Money.AcceptsHundred | tests/api/expenses.test.ts:76 | "100" is accepted as 10000 paise |
| Money.AcceptsFifty | tests/api/expenses.test.ts:144 | "50" is accepted as 5000 paise |
| Money.AcceptsFormAmount | tests/components/ExpenseForm.test.tsx:60 | "150.5", as the form test types it, is accepted as 15050 paise |
| Money.AcceptsBareFraction | pages/api/expenses.ts:24-28 | ".5" is accepted as 50 paise |
| Money.AcceptsPlusSign | pages/api/expenses.ts:24-28 | "+5" is accepted as 500 paise |
| Money.AcceptsLeadingZeros | pages/api/expenses.ts:24-28 | "007.10" is accepted as 710 paise |
| Money.FormatExample | tests/api/expenses.test.ts:156-168 | 1000 paise print as "10.00" |
| Money.RejectedExamples | tests/api/expenses.test.ts:83-92 | "-5", "0", "abc" and a missing amount are all refused |
| Records.ExpenseView.Amount | pages/api/expenses.ts:60-64 | the `amount` of every response row is two-decimal text that reads back as the row's stored paise |
| Records.Views | pages/api/expenses.ts:129-132 | the response list has one view per row, of the same row, in the same order |
| Records.ValidDate | pages/api/expenses.ts:34 | defines the dates the server accepts: ISO `YYYY-MM-DD` with month 01-12 and day 01-31 (no contract; it is used by `Validation.Validate`) |
| Validation.StoredDescription | pages/api/expenses.ts:73 | the stored description is null when it is absent or empty, and the trimmed text otherwise |
| Validation.KeyGiven | pages/api/expenses.ts:21 | defines the key check: the header is present and not empty (no contract; used by `Validation.Validate`) |
| Validation.CategoryGiven | pages/api/expenses.ts:30 | defines the category check: a string that is not empty once trimmed (no contract; used by `Validation.Validate`) |
| Validation.DateGiven | pages/api/expenses.ts:34 | defines the date check: present, not empty and a valid date (no contract; used by `Validation.Validate`) |
| Validation.DescriptionFits | pages/api/expenses.ts:38 | defines the description check: absent, empty, or at most 500 characters before trimming (no contract; used by `Validation.Validate`) |
| Validation.Validate | pages/api/expenses.ts:21-40 | the checks run in order (key, amount, category, date, description) and the first failure decides the message; the input passes exactly when every check passes, and then the amount is in paise, the category and description are trimmed, and the result has the shape of a stored row |
| Validation.ValidationMessages | pages/api/expenses.ts:21-40 | every refusal carries one of five distinct messages |
| Validation.DescriptionBoundary | pages/api/expenses.ts:38-40 | a description of exactly 500 characters passes and one of 501 is refused |
| Validation.WhitespaceCategoryRefused | pages/api/expenses.ts:30-32 | a category made only of white space is refused as missing |
| Query.StarsAsPercent | pages/api/expenses.ts:111 | the store's REST layer reads each `*` of a LIKE pattern as `%` and leaves every other character alone |
| Query.Like | pages/api/expenses.ts:110-111 | defines LIKE matching with the store's case folding: `%` matches any run, `_` one character, `\` makes the next character literal, anything else matches itself up to case (no contract; characterised by `Query.LikeIsSubstring`) |
| Query.ILike | pages/api/expenses.ts:111 | a pattern without `*` matches exactly as LIKE matches it, since the REST layer rewrites only `*` |
| Query.CategoryPattern | pages/api/expenses.ts:109-112 | a filter applies exactly when `category` is a single string that is not empty once trimmed, and its pattern is `%` + trimmed text + `%` |
| Query.SortOrderOf | pages/api/expenses.ts:114-119 | the order is by date exactly when `sort` is the single value `date_desc`, and by creation time otherwise |
| Query.Filter | pages/api/expenses.ts:109-112 | the filter keeps each matching row as often as it is stored and drops the others; with no filter it returns the rows unchanged |
| Query.SortDesc | pages/api/expenses.ts:114-119 | the result is a permutation of its input with keys in non-increasing order |
| Query.Query | pages/api/expenses.ts:107-121 | a GET returns exactly the matching stored rows, each as often as stored, largest key first; without a filter, a permutation of all rows |
| Query.LikeIsSubstring | pages/api/expenses.ts:110-111 | for text with no pattern characters, `%text%` matches exactly the categories that contain the text, ignoring case |
| Query.StarsAsPercentLiteral | pages/api/expenses.ts:111 | text with no pattern characters reaches the store unchanged |
| Query.FilterIsSubstring | pages/api/expenses.ts:109-112 | when the trimmed filter text has no pattern characters, a row is kept exactly when its category contains the text, ignoring case |
| Query.PatternOfTrimmedText | tests/api/expenses.test.ts:170-190 | filter text that is already trimmed and not empty becomes the pattern `%text%` |
| Query.FilterKeepsFood | pages/api/expenses.ts:110-111 | `category=foo` keeps a "Food" row: the case-insensitive partial match the comment at line 110 promises (the tests check only the pattern sent) |
| Query.FilterDropsTravel | pages/api/expenses.ts:110-111 | `category=foo` drops a "Travel" row (the tests check only the pattern sent) |
| Query.UnderscoreKeepsEveryRow | pages/api/expenses.ts:109-111 | `_` in the filter text is a wildcard, so `category=_` keeps every row with a non-empty category, which every stored row has |
| ExpensesApi.ErrorText | pages/api/expenses.ts:100-103 | the 500 message is the store's message when it is not empty, and "Failed to create expense" otherwise |
| ExpensesApi.NewExpense | pages/api/expenses.ts:70-75 | the inserted row carries the validated fields, the new id and the creation time, and has the shape of a stored row |
| ExpensesApi.Create | pages/api/expenses.ts:69-99 | creating keeps the store consistent and only extends it: it answers 201 exactly when the insert succeeds, and then exactly one row is appended |
| ExpensesApi.GetResponse | pages/api/expenses.ts:104-134 | a failed query gives 500 "Failed to fetch expenses"; otherwise 200 with exactly the query's rows in the query's order |
| ExpensesApi.NotAllowed | pages/api/expenses.ts:135-138 | any other method gives 405 with `Allow: GET, POST` |
| ExpensesApi.PostSpec | pages/api/expenses.ts:15-103 | a POST answers 200, 201, 400 or 500; it answers 400 exactly when validation fails; a 200 is a replay of a key the ledger knows; and only a 201 changes the store |
| ExpensesApi.Store.Post | pages/api/expenses.ts:15-103 | the step-by-step POST keeps the store consistent, and its response and new store are exactly those of `PostSpec` |
| ExpensesApi.Store.Handle | pages/api/expenses.ts:14-139 | the handler dispatches on the method: POST as above, GET answers from the store without changing it, anything else gives 405 and changes nothing |
| ExpensesApi.PostRefusesInvalidInput | pages/api/expenses.ts:21-40 | any failed check gives 400 with its message and leaves the rows and the ledger untouched |
| ExpensesApi.PostReplaysKnownKey | pages/api/expenses.ts:43-67 | a key the ledger knows gives 200 with the stored expense (or 500 when it cannot be read), and nothing is inserted or recorded |
| ExpensesApi.PostCreatesOnce | pages/api/expenses.ts:69-99 | a new key with a successful insert appends exactly one row with the validated fields and answers 201 with it; the ledger gains key to new id unless that write fails |
| ExpensesApi.PostInsertFailure | pages/api/expenses.ts:69-103 | a failed insert gives 500 with the store's message (or the default one), and neither rows nor ledger change |
| ExpensesApi.PostPreservesStore | pages/api/expenses.ts:42-103 | every POST keeps the store consistent, keeps the old rows, appends at most one row (exactly when it answers 201), never changes or drops a ledger entry, and can add only its own key |
| ExpensesApi.RetryReturnsSameExpense | pages/api/expenses.ts:43-67 | after a 201 that recorded its key, a later valid POST with that key answers 200 with the same expense and inserts nothing, whatever its body |
| ExpensesApi.FailedLookupStoresDuplicate | pages/api/expenses.ts:44-50 | when the ledger read fails, a known key is taken as new and a second expense is stored, while the ledger keeps naming the first |
| Form.FormErrors | components/ExpenseForm.tsx:28-43 | the three checks are independent: an amount error exactly when the amount is empty, not a number or not positive; a category error exactly when it is blank; a date error exactly when it is empty; the map is empty exactly when the form accepts |
| Form.ClearError | components/ExpenseForm.tsx:100-104 | editing a field whose error entry is set makes that entry empty; no entry is added or removed and every other entry stays as it was |
| Form.AmountOk | components/ExpenseForm.tsx:31 | defines the amount check: the text has a positive paise value, which fails for empty text, text that is not a number and amounts not above zero (no contract; used by `Form.FormErrors`) |
| Form.CategoryBlank | components/ExpenseForm.tsx:34 | defines the category check: the text is all white space (no contract; `Form.CategoryBlankIsEmptyTrim` ties it to `trim`) |
| Form.CategoryBlankIsEmptyTrim | components/ExpenseForm.tsx:34 | the category is blank exactly when `category.trim()` is empty |
| Form.FormAccepts | components/ExpenseForm.tsx:28-43 | defines acceptance: all three checks pass (no contract; `Form.FormErrors` proves the error map empty exactly then) |
| Form.ExpenseForm.constructor | components/ExpenseForm.tsx:22-26 | the form starts with all fields empty and no errors |
| Form.ExpenseForm.ValidateForm | components/ExpenseForm.tsx:28-43 | the error map is built check by check and stored; the result is true exactly when the form accepts |
| Form.ExpenseForm.HandleSubmit | components/ExpenseForm.tsx:45-67 | `onSubmit` is called exactly when validation passes, with the amount and date as typed and the category and description trimmed; the fields and errors are cleared only when the `error` prop is null or empty, and kept otherwise |
| Form.ExpenseForm.ChangeAmount | components/ExpenseForm.tsx:100-105 | the new amount is stored and only the amount error entry is cleared |
| Form.ExpenseForm.ChangeCategory | components/ExpenseForm.tsx:131-136 | the new category is stored and only the category error entry is cleared |
| Form.ExpenseForm.ChangeDescription | components/ExpenseForm.tsx:157 | the new description is stored and the errors stay as they were |
| Form.ExpenseForm.ChangeDate | components/ExpenseForm.tsx:176-181 | the new date is stored and only the date error entry is cleared |
| Form.EmptyFormReportsAll | tests/components/ExpenseForm.test.tsx:23-32 | submitting the empty form reports all three errors |
| Form.FormSubmissionPassesServer | components/ExpenseForm.tsx:52-57 | what the form sends, with an ISO date and a short enough description, passes the server's checks and is stored as sent |
| Form.FormPassesUnreadableDate | components/ExpenseForm.tsx:37-39 | the form's date check is weaker than the server's: a non-empty date the server cannot read passes the form and is refused by the server |

## Left out

- The database client is not modelled: connection setup, environment variables, the query-builder chain and logging (`pages/api/expenses.ts:1-12`). The store is the abstract state of `ExpensesApi.Store`, and its failures and creation time are the parameters in `StoreOutcomes`.
- Concurrency is not modelled. In particular, two POSTs with the same key cannot race between the ledger check and the insert; requests are handled one at a time.
- Expense ids are positions in `rows`. They are not the store's generated identifiers.
- The ledger refuses a key it already holds, as a unique key column would.
- Money.ParseFloat: covers only decimal text of the form `[+-]? digits? ('.' digits?)?`, with at most two fraction digits and at least one digit in all (so ".5" and "5." are read). Other text reads as not-a-number. This leaves out JavaScript's prefix parsing ("12abc" is 12), leading white space, exponents and `Infinity`.
- Money.ToPaise: text with three or more fraction digits reads as not-a-number, but the source accepts it and rounds. In particular "0.004" passes the source's check (the float is above zero), and `Math.round(0.4)` then stores 0 paise. So `ToPaise`'s positive result, and the positive `amountPaise` of every stored row (`Records.WellFormed`), hold only for the modelled text.
- Money.FormatPaise: the model uses unbounded integers, so both conversions are exact at every size. In the source they are exact only while the amounts stay well inside double precision: beyond roughly 2^51 paise, `x * 100` and `paise / 100` are no longer exact, and `toFixed(2)` prints exponent form from 1e21 rupees.
- Records.ValidDate: accepts only ISO `YYYY-MM-DD` dates with month 01-12 and day 01-31. The other formats `new Date(...)` reads are left out. Like `new Date`, the model accepts days 29-31 in every month ("2023-02-30" passes); it does not model that `new Date` rolls such a day over into the next month (to 2 March).
- Validation.Validate: JSON body fields are modelled as present strings or absent. A non-string value (a number, an array) is not modelled.
- The idempotency header is modelled as one string or absent, not as an array of values.
- Description length counts characters, not UTF-16 code units.
- Text.Fold: the store's case folding is modelled for ASCII letters only.
- Query.SortDesc: the store does not specify an order among rows with equal keys. The model fixes one (a stable insertion sort), and the properties proved about it (sorted, a permutation of the filtered rows) hold for any order.
- The JSX rendering of the form is not modelled, and neither is its disabled state while submitting.
- The browser normalises the text of a number input (a typed "150.50" may reach the handler as "150.5"). The model treats the field as plain text.
- Form.ExpenseForm.HandleSubmit: `error` is the prop value the handler was created with, passed as a parameter. The awaiting of `onSubmit` is not modelled, nor what `onSubmit` does; each call is recorded in `submissions`. An `onSubmit` whose promise rejects, which in the source skips the clearing, is not modelled.
- `pages/index.tsx` is not part of this model. It holds fetch plumbing, floating-point totals and a copy of the form's checks.
- `components/ExpenseSummary.tsx` is not part of this model. Its percentages are floating point.
- `components/ExpensesTable.tsx` is not part of this model. It holds rendering and locale date formatting.
- `components/ThemeToggle.tsx`, `pages/_document.tsx` and `jest.config.js` are not part of this model. They are UI and configuration.

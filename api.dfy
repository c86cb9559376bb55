/**
 * The `/api/expenses` handler over an abstract store. The store holds the
 * `expenses` rows and the `idempotency_keys` ledger (key to expense id);
 * everything the store may do on its own (fail a read or a write, stamp the
 * creation time) arrives as a `StoreOutcomes` value.
 */
module ExpensesApi {
  import opened Wrappers
  import opened Text
  import opened Money
  import opened Records
  import opened Validation
  import opened Query

  const CreateFailureMessage: string := "Failed to create expense"
  const FetchFailureMessage: string := "Failed to fetch expenses"

  datatype Body =
    | ErrorBody(error: string)              // `{ error }`
    | One(expense: ExpenseView)             // a single formatted expense
    | Many(expenses: seq<ExpenseView>)      // the GET list
    | Plain(text: string)                   // the 405 text

  /** A response: status, the `Allow` header (empty when not set) and the body. */
  datatype Response = Response(status: nat, allow: seq<string>, body: Body)

  /** An HTTP request to the handler. */
  datatype Request = Request(
    verb: string,
    idempotencyKey: Option<string>,
    body: PostBody,
    category: Param,
    sort: Param)

  /** What the store does during one request. */
  datatype StoreOutcomes = StoreOutcomes(
    lookupFails: bool,            // the read of the key in the ledger errors
    fetchError: Option<string>,   // the read of the replayed expense errors with this message
    insertError: Option<string>,  // the expense insert errors with this message
    ledgerWriteFails: bool,       // the write of the key into the ledger errors
    queryFails: bool,             // the GET query errors
    now: int)                     // the creation time the store stamps on an inserted row

  /** `error.message || 'Failed to create expense'`. */
  function ErrorText(message: string): (r: string)
    ensures r != ""
    ensures message != "" ==> r == message
    ensures message == "" ==> r == CreateFailureMessage
  {
    if message != "" then message else CreateFailureMessage
  }

  /**
   * The store's invariant: a row's id is its position (ids are assigned in
   * insertion order and never reused), every row has the shape the handler
   * inserts, and every ledger entry names a stored row.
   */
  predicate Consistent(rows: seq<Expense>, ledger: map<string, nat>)
  {
    && (forall i :: 0 <= i < |rows| ==> rows[i].id == i && WellFormed(rows[i]))
    && (forall k :: k in ledger ==> ledger[k] < |rows|)
  }

  /** The row lines 70-75 insert, with the id and creation time the store assigns. */
  function NewExpense(n: Normalized, id: nat, now: int): (e: Expense)
    requires NormalizedWellFormed(n)
    ensures WellFormed(e) && e.id == id && e.createdAt == now
    ensures e.amountPaise == n.amountPaise && e.category == n.category
    ensures e.description == n.description && e.date == n.date
  {
    Expense(id, n.amountPaise, n.category, n.description, n.date, now)
  }

  /** The response and the store after one POST. */
  datatype PostResult = PostResult(response: Response, rows: seq<Expense>, ledger: map<string, nat>)

  /**
   * `after` only extends the store: the old rows stay as they were and at
   * most one is appended; no ledger entry changes or disappears, and the
   * only key that can appear is `key`.
   */
  predicate Extends(rows: seq<Expense>, ledger: map<string, nat>, key: Option<string>, after: PostResult)
  {
    && |rows| <= |after.rows| <= |rows| + 1
    && after.rows[..|rows|] == rows
    && (forall k :: k in ledger ==> k in after.ledger && after.ledger[k] == ledger[k])
    && (forall k :: k in after.ledger && k !in ledger ==> key == Some(k))
  }

  /**
   * Lines 70-101 for a key taken as new: insert the row (500 when the insert
   * fails), then record the key. The ledger refuses a key it already holds
   * and the write may fail on its own; either way the answer is 201.
   */
  function Create(rows: seq<Expense>, ledger: map<string, nat>, input: Normalized, env: StoreOutcomes): (r: PostResult)
    requires Consistent(rows, ledger) && NormalizedWellFormed(input)
    ensures Consistent(r.rows, r.ledger) && Extends(rows, ledger, Some(input.key), r)
    ensures r.response.status == 201 <==> |r.rows| == |rows| + 1
    ensures env.insertError.None? <==> r.response.status == 201
  {
    if env.insertError.Some? then
      PostResult(Response(500, [], ErrorBody(ErrorText(env.insertError.value))), rows, ledger)
    else
      var created := NewExpense(input, |rows|, env.now);
      var ledger' := if env.ledgerWriteFails || input.key in ledger then ledger else ledger[input.key := created.id];
      assert (rows + [created])[..|rows|] == rows;
      PostResult(Response(201, [], One(ExpenseView(created))), rows + [created], ledger')
  }

  /**
   * One POST, lines 15-103: validate; replay the stored expense when the
   * ledger knows the key; otherwise create. A failed ledger read is ignored,
   * so the key counts as new.
   */
  function PostSpec(rows: seq<Expense>, ledger: map<string, nat>, key: Option<string>, body: PostBody,
                    env: StoreOutcomes): (r: PostResult)
    requires Consistent(rows, ledger)
    ensures r.response.status in {200, 201, 400, 500} && r.response.allow == []
    ensures r.response.status == 400 <==> Validate(key, body).Err?
    ensures r.response.status == 200 ==> !env.lookupFails && key.Some? && key.value in ledger
    ensures r.response.status != 201 ==> r.rows == rows && r.ledger == ledger
  {
    match Validate(key, body)
    case Err(message) =>
      PostResult(Response(400, [], ErrorBody(message)), rows, ledger)
    case Ok(input) =>
      if !env.lookupFails && input.key in ledger then
        if env.fetchError.Some? then
          PostResult(Response(500, [], ErrorBody(ErrorText(env.fetchError.value))), rows, ledger)
        else
          PostResult(Response(200, [], One(ExpenseView(rows[ledger[input.key]]))), rows, ledger)
      else
        Create(rows, ledger, input, env)
  }

  /** The expenses a list body carries, without their formatted amounts. */
  function Listed(views: seq<ExpenseView>): (r: seq<Expense>)
    ensures |r| == |views| && forall i :: 0 <= i < |views| ==> r[i] == views[i].expense
  {
    seq(|views|, i requires 0 <= i < |views| => views[i].expense)
  }

  /**
   * One GET, lines 104-134: 500 when the query fails; otherwise 200 with the
   * query's rows in the query's order, each with its amount formatted.
   */
  function GetResponse(rows: seq<Expense>, category: Param, sort: Param, queryFails: bool): (r: Response)
    ensures queryFails ==> r == Response(500, [], ErrorBody(FetchFailureMessage))
    ensures !queryFails ==> r.status == 200 && r.allow == [] && r.body.Many?
    ensures !queryFails ==> Listed(r.body.expenses) == Query.Query(rows, category, sort)
  {
    if queryFails then
      Response(500, [], ErrorBody(FetchFailureMessage))
    else
      Response(200, [], Many(Views(Query.Query(rows, category, sort))))
  }

  /** Lines 135-138: any other method. */
  function NotAllowed(verb: string): (r: Response)
    ensures r.status == 405 && r.allow == ["GET", "POST"]
  {
    Response(405, ["GET", "POST"], Plain("Method " + verb + " Not Allowed"))
  }

  /** The persistent state the handler works on. */
  class Store {
    var rows: seq<Expense>
    var ledger: map<string, nat>

    ghost predicate Valid()
      reads this
    {
      Consistent(rows, ledger)
    }

    constructor ()
      ensures Valid() && rows == [] && ledger == map[]
    {
      rows := [];
      ledger := map[];
    }

    /** The POST branch, step by step against the store. */
    method Post(key: Option<string>, body: PostBody, env: StoreOutcomes) returns (response: Response)
      requires Valid()
      modifies this
      ensures Valid()
      ensures PostResult(response, rows, ledger) == PostSpec(old(rows), old(ledger), key, body, env)
    {
      var checked := Validate(key, body);
      if checked.Err? {
        return Response(400, [], ErrorBody(checked.error));
      }
      var input := checked.value;
      if !env.lookupFails && input.key in ledger {
        var id := ledger[input.key];
        if env.fetchError.Some? {
          return Response(500, [], ErrorBody(ErrorText(env.fetchError.value)));
        }
        return Response(200, [], One(ExpenseView(rows[id])));
      }
      if env.insertError.Some? {
        return Response(500, [], ErrorBody(ErrorText(env.insertError.value)));
      }
      var created := NewExpense(input, |rows|, env.now);
      rows := rows + [created];
      if !env.ledgerWriteFails && input.key !in ledger {
        ledger := ledger[input.key := created.id];
      }
      response := Response(201, [], One(ExpenseView(created)));
    }

    /** `handler`: dispatch on the method. */
    method Handle(request: Request, env: StoreOutcomes) returns (response: Response)
      requires Valid()
      modifies this
      ensures Valid()
      ensures request.verb == "POST" ==>
                PostResult(response, rows, ledger)
                == PostSpec(old(rows), old(ledger), request.idempotencyKey, request.body, env)
      ensures request.verb != "POST" ==> rows == old(rows) && ledger == old(ledger)
      ensures request.verb == "GET" ==>
                response == GetResponse(old(rows), request.category, request.sort, env.queryFails)
      ensures request.verb != "POST" && request.verb != "GET" ==> response == NotAllowed(request.verb)
    {
      if request.verb == "POST" {
        response := Post(request.idempotencyKey, request.body, env);
      } else if request.verb == "GET" {
        response := GetResponse(rows, request.category, request.sort, env.queryFails);
      } else {
        response := NotAllowed(request.verb);
      }
    }
  }

  // ---- What a POST promises ----

  /** Any failed check gives 400 with its message, and the store is untouched. */
  lemma PostRefusesInvalidInput(rows: seq<Expense>, ledger: map<string, nat>, key: Option<string>, body: PostBody,
                                env: StoreOutcomes)
    requires Consistent(rows, ledger) && Validate(key, body).Err?
    ensures PostSpec(rows, ledger, key, body, env)
            == PostResult(Response(400, [], ErrorBody(Validate(key, body).error)), rows, ledger)
  {
  }

  /**
   * A key the ledger knows replays: 200 with the stored expense, formatted,
   * and nothing is inserted or recorded.
   */
  lemma PostReplaysKnownKey(rows: seq<Expense>, ledger: map<string, nat>, key: Option<string>, body: PostBody,
                            env: StoreOutcomes)
    requires Consistent(rows, ledger) && Validate(key, body).Ok?
    requires !env.lookupFails && key.value in ledger
    ensures PostSpec(rows, ledger, key, body, env).rows == rows
    ensures PostSpec(rows, ledger, key, body, env).ledger == ledger
    ensures env.fetchError.None? ==>
              PostSpec(rows, ledger, key, body, env).response
              == Response(200, [], One(ExpenseView(rows[ledger[key.value]])))
    ensures env.fetchError.Some? ==>
              PostSpec(rows, ledger, key, body, env).response.status == 500
  {
  }

  /**
   * A new key with a successful insert appends exactly one row holding the
   * normalized input and answers 201 with it; the ledger gains key to new id
   * unless that write fails, and nothing else in it changes.
   */
  lemma PostCreatesOnce(rows: seq<Expense>, ledger: map<string, nat>, key: Option<string>, body: PostBody,
                        env: StoreOutcomes)
    requires Consistent(rows, ledger) && Validate(key, body).Ok?
    requires key.value !in ledger && env.insertError.None?
    ensures var n := Validate(key, body).value;
            var created := Expense(|rows|, n.amountPaise, n.category, n.description, n.date, env.now);
            var after := PostSpec(rows, ledger, key, body, env);
            && after.rows == rows + [created]
            && after.response == Response(201, [], One(ExpenseView(created)))
            && after.ledger == if env.ledgerWriteFails then ledger else ledger[key.value := |rows|]
  {
  }

  /** A failed insert answers 500 with the store's message (or the default one) and records nothing. */
  lemma PostInsertFailure(rows: seq<Expense>, ledger: map<string, nat>, key: Option<string>, body: PostBody,
                          env: StoreOutcomes)
    requires Consistent(rows, ledger) && Validate(key, body).Ok?
    requires (env.lookupFails || key.value !in ledger) && env.insertError.Some?
    ensures PostSpec(rows, ledger, key, body, env)
            == PostResult(Response(500, [], ErrorBody(ErrorText(env.insertError.value))), rows, ledger)
  {
  }

  /**
   * Whatever happens, a POST keeps the store consistent, only ever appends,
   * at most one row, exactly when it answers 201, and never changes or drops
   * a ledger entry; the only key it can add is the request's own.
   */
  lemma PostPreservesStore(rows: seq<Expense>, ledger: map<string, nat>, key: Option<string>, body: PostBody,
                           env: StoreOutcomes)
    requires Consistent(rows, ledger)
    ensures var after := PostSpec(rows, ledger, key, body, env);
            && Consistent(after.rows, after.ledger)
            && Extends(rows, ledger, key, after)
            && (after.response.status == 201 <==> |after.rows| == |rows| + 1)
  {
  }

  /**
   * Retrying with the same key: once a POST has answered 201 and recorded its
   * key, a later valid POST with that key answers 200 with the same expense
   * and inserts nothing, whatever its body.
   */
  lemma RetryReturnsSameExpense(rows: seq<Expense>, ledger: map<string, nat>, key: Option<string>,
                                body: PostBody, retryBody: PostBody, env: StoreOutcomes, retryEnv: StoreOutcomes)
    requires Consistent(rows, ledger) && Validate(key, body).Ok? && Validate(key, retryBody).Ok?
    requires key.value !in ledger && env.insertError.None? && !env.ledgerWriteFails
    requires !retryEnv.lookupFails && retryEnv.fetchError.None?
    ensures var first := PostSpec(rows, ledger, key, body, env);
            var second := PostSpec(first.rows, first.ledger, key, retryBody, retryEnv);
            && first.response.status == 201
            && second.response == Response(200, [], first.response.body)
            && second.rows == first.rows && |second.rows| == |rows| + 1
            && second.ledger == first.ledger
  {
  }

  /**
   * The ledger read is only a fast path: when it fails, a retried key is
   * taken as new and a second expense is stored, while the ledger keeps
   * pointing at the first.
   */
  lemma FailedLookupStoresDuplicate(rows: seq<Expense>, ledger: map<string, nat>, key: Option<string>,
                                    body: PostBody, env: StoreOutcomes)
    requires Consistent(rows, ledger) && Validate(key, body).Ok? && key.value in ledger
    requires env.lookupFails && env.insertError.None?
    ensures var after := PostSpec(rows, ledger, key, body, env);
            && after.response.status == 201
            && |after.rows| == |rows| + 1
            && after.response.body.expense.expense.id != ledger[key.value]
            && after.ledger == ledger
  {
  }
}

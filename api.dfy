/** The API routes: pages/api/expenses.js and pages/api/income.js (one shared
    dispatch over a table), pages/api/sheets.js (the sheet registry) and
    pages/api/clear.js. Each route is a pure function from the store state
    and the request to the new state and the response, and a method of
    `Database` that performs it through the `Table` methods.

    A store call that fails for a reason outside the model (the disk, the
    driver) is an injected `Fault`: `FailAt(k, m)` makes the handler's `k`-th
    store call raise `m`. */
module Api {
  import opened Values
  import opened Db

  /** The HTTP method: the four the routes name, or any other. */
  datatype Verb = GET | POST | PUT | DELETE | Other(name: string)

  datatype Request = Request(verb: Verb, query: map<string, string>, body: Row)

  /** The `data` (or `error`) field of the JSON reply. */
  datatype Payload =
    | NoData
    | RunData(run: Run)
    | RowData(rows: seq<Record>)
    | NameData(names: seq<string>)
    | ErrorText(message: string)

  datatype Response = Response(status: int, success: bool, payload: Payload)

  datatype Fault = NoFault | FailAt(step: nat, message: string)

  predicate FailsAt(f: Fault, step: nat)
  {
    f.FailAt? && f.step == step
  }

  function Success(p: Payload): Response
  {
    Response(200, true, p)
  }

  function Failure(status: int, message: string): Response
  {
    Response(status, false, ErrorText(message))
  }

  const NotAllowed: Response := Failure(405, "Method not allowed")

  // ----- pages/api/expenses.js, pages/api/income.js -----

  /** `req.query.id` when it is truthy (a non-empty string). */
  function QueryId(req: Request): Option<string>
  {
    if "id" in req.query && req.query["id"] != "" then Some(req.query["id"]) else None
  }

  /** The `id` the PUT body destructures, absent when the body has none. */
  function BodyId(body: Row): Option<Value>
  {
    if "id" in body then Some(body["id"]) else None
  }

  /** One request to a record route, on the table of kind `k`. */
  function Records(s: TableState, k: Kind, req: Request, fault: Fault): (out: (TableState, Response))
    ensures out.1.success <==> out.1.status == 200
    ensures out.1.status == 200 || out.1.status == 405 || out.1.status == 500
    ensures out.1.status != 200 ==> out.0 == s
    ensures out.1.status == 405 <==> req.verb.Other?
    ensures !req.verb.Other? && FailsAt(fault, 0) ==>
              out.1 == Failure(500, fault.message)
    ensures out.0.nextId >= s.nextId && out.0.clock >= s.clock
  {
    if req.verb == POST then
      if FailsAt(fault, 0) then (s, Failure(500, fault.message))
      else
        var (t, r) := InsertRow(s, k, req.body);
        if r.Err? then (s, Failure(500, r.message)) else (t, Success(RunData(r.value)))
    else if req.verb == GET then
      if FailsAt(fault, 0) then (s, Failure(500, fault.message))
      else (s, Success(RowData(Newest(s.rows, 10))))
    else if req.verb == DELETE then
      if FailsAt(fault, 0) then (s, Failure(500, fault.message))
      else if QueryId(req).Some? then (DeleteRow(s, IdOf(Text(QueryId(req).value))).0, Success(NoData))
      else (DeleteNewest(s, 5), Success(NoData))
    else if req.verb == PUT then
      if FailsAt(fault, 0) then (s, Failure(500, fault.message))
      else
        var (t, r) := UpdateRows(s, k, KeyOf(BodyId(req.body)), req.body - {"id"});
        if r.Err? then (s, Failure(500, r.message)) else (t, Success(RunData(r.value)))
    else (s, NotAllowed)
  }

  /** Every record request keeps the table well formed. */
  lemma RecordsWellFormed(s: TableState, k: Kind, req: Request, fault: Fault)
    requires WellFormed(s)
    ensures WellFormed(Records(s, k, req, fault).0)
  {
    if FailsAt(fault, 0) || Records(s, k, req, fault).1.status != 200 {
    } else if req.verb == POST {
      InsertFresh(s, k, req.body);
    } else if req.verb == DELETE {
      if QueryId(req).Some? {
        DeleteKeepsOrder(s, IdOf(Text(QueryId(req).value)));
      } else {
        DeleteNewestWellFormed(s, 5);
      }
    } else if req.verb == PUT {
      var key := KeyOf(BodyId(req.body));
      var data := req.body - {"id"};
      if FindById(s.rows, key).Some? && Complete(k, data) {
        UpdateThenFind(s, k, key.value, data);
      }
    }
  }

  lemma RecordsWellFormedWhen(s: TableState, k: Kind, req: Request, fault: Fault)
    ensures WellFormed(s) ==> WellFormed(Records(s, k, req, fault).0)
  {
    if WellFormed(s) {
      RecordsWellFormed(s, k, req, fault);
    }
  }

  /** A run of requests on one table, each with the fault it meets. */
  function Replay(s: TableState, k: Kind, reqs: seq<(Request, Fault)>): (t: TableState)
    ensures t.nextId >= s.nextId
    decreases |reqs|
  {
    if reqs == [] then s else Replay(Records(s, k, reqs[0].0, reqs[0].1).0, k, reqs[1..])
  }

  lemma {:induction false} ReplayWellFormed(s: TableState, k: Kind, reqs: seq<(Request, Fault)>)
    requires WellFormed(s)
    ensures WellFormed(Replay(s, k, reqs))
    decreases |reqs|
  {
    if reqs != [] {
      RecordsWellFormed(s, k, reqs[0].0, reqs[0].1);
      ReplayWellFormed(Records(s, k, reqs[0].0, reqs[0].1).0, k, reqs[1..]);
    }
  }

  lemma {:induction false} ReplaySplit(s: TableState, k: Kind, reqs: seq<(Request, Fault)>, i: nat)
    requires i <= |reqs|
    ensures Replay(s, k, reqs) == Replay(Replay(s, k, reqs[..i]), k, reqs[i..])
    decreases i
  {
    if i > 0 {
      var s1 := Records(s, k, reqs[0].0, reqs[0].1).0;
      assert reqs[..i][0] == reqs[0] && reqs[..i][1..] == reqs[1..][..i - 1];
      assert reqs[i..] == reqs[1..][i - 1..];
      ReplaySplit(s1, k, reqs[1..], i - 1);
    }
  }

  /** AUTOINCREMENT across any run of requests, deletes included: no id is
      ever handed out twice. Every row the table held at any point of the run
      has an id below the id the next insert takes. */
  lemma NoIdReused(s: TableState, k: Kind, reqs: seq<(Request, Fault)>, i: nat, body: Row)
    requires WellFormed(s) && i <= |reqs| && Complete(k, body)
    ensures var r := InsertRow(Replay(s, k, reqs), k, body).1;
            && r.Ok?
            && forall x :: x in Replay(s, k, reqs[..i]).rows ==> x.id < r.value.lastId
  {
    ReplayWellFormed(s, k, reqs[..i]);
    ReplaySplit(s, k, reqs, i);
  }

  /** POST of a complete body stores it under a fresh id and answers 200 with
      the insert result; any other body answers 500 with the constraint error
      and stores nothing. */
  lemma RecordsPost(s: TableState, k: Kind, req: Request)
    requires WellFormed(s) && req.verb == POST
    ensures var (t, resp) := Records(s, k, req, NoFault);
            && (Complete(k, req.body) ==>
                  && resp == Success(RunData(Run(s.nextId, 1)))
                  && t.rows == s.rows + [Stored(k, req.body, s.nextId, s.clock)]
                  && forall x :: x in s.rows ==> x.id < s.nextId)
            && (!Complete(k, req.body) ==> resp.status == 500 && t == s)
  {
  }

  /** GET answers the ten newest rows, whatever the query (the `sheet`
      parameter included). */
  lemma RecordsGetIgnoresQuery(s: TableState, k: Kind, req: Request, q: map<string, string>, fault: Fault)
    requires req.verb == GET
    ensures Records(s, k, req.(query := q), fault) == Records(s, k, req, fault)
    ensures !FailsAt(fault, 0) ==> Records(s, k, req, fault) == (s, Success(RowData(Newest(s.rows, 10))))
  {
  }

  /** DELETE with an id removes exactly the row with that id (nothing when
      absent); DELETE without one removes the five newest rows. */
  lemma RecordsDelete(s: TableState, k: Kind, req: Request)
    requires WellFormed(s) && req.verb == DELETE
    ensures var (t, resp) := Records(s, k, req, NoFault);
            && resp == Success(NoData)
            && (QueryId(req).Some? ==>
                  var key := IdOf(Text(QueryId(req).value));
                  forall r :: r in t.rows <==> r in s.rows && !Matches(r, key))
            && (QueryId(req).None? ==>
                  && |t.rows| == |s.rows| - Min(5, |s.rows|)
                  && multiset(t.rows) + multiset(Newest(s.rows, 5)) == multiset(s.rows)
                  && forall a, b :: a in t.rows && b in Newest(s.rows, 5) ==> a.created < b.created)
  {
    if QueryId(req).None? {
      NewestPartition(s, 5);
      NewestTopK(s, 5);
    }
  }

  /** PUT updates the row named by the body's `id` with the body's other
      fields; stripping `id` does not change which fields are bound. */
  lemma RecordsPut(s: TableState, k: Kind, req: Request)
    requires req.verb == PUT
    ensures var key := KeyOf(BodyId(req.body));
            var u := UpdateRows(s, k, key, req.body);
            Records(s, k, req, NoFault) ==
              if u.1.Err? then (s, Failure(500, u.1.message)) else (u.0, Success(RunData(u.1.value)))
  {
    var data := req.body - {"id"};
    var key := KeyOf(BodyId(req.body));
    assert "id" !in Columns(k);
    assert Complete(k, data) <==> Complete(k, req.body);
    FirstMissingStrip(Columns(k), req.body);
    if Complete(k, data) && key.Some? {
      forall r: Record ensures Assigned(r, k, data) == Assigned(r, k, req.body) {
      }
      assert AssignAll(s.rows, key.value, k, data) == AssignAll(s.rows, key.value, k, req.body);
    }
  }

  lemma {:induction false} FirstMissingStrip(cols: seq<string>, body: Row)
    requires "id" !in cols
    ensures FirstMissing(cols, body - {"id"}) == FirstMissing(cols, body)
  {
    if cols != [] {
      FirstMissingStrip(cols[1..], body);
    }
  }

  /** One table handler, performed on a `Table` object. */
  method HandleRecords(t: Table, req: Request, fault: Fault) returns (resp: Response)
    requires t.Valid()
    modifies t
    ensures t.Valid()
    ensures (t.State(), resp) == Records(old(t.State()), t.kind, req, fault)
  {
    if req.verb == POST {
      if FailsAt(fault, 0) {
        resp := Failure(500, fault.message);
        return;
      }
      var r := t.Insert(req.body);
      resp := if r.Err? then Failure(500, r.message) else Success(RunData(r.value));
    } else if req.verb == GET {
      if FailsAt(fault, 0) {
        resp := Failure(500, fault.message);
        return;
      }
      var rows := t.GetLastFive();
      resp := Success(RowData(rows));
    } else if req.verb == DELETE {
      if FailsAt(fault, 0) {
        resp := Failure(500, fault.message);
        return;
      }
      match QueryId(req) {
        case Some(id) =>
          var run := t.Delete(Text(id));
        case None =>
          t.DeleteLastFive();
      }
      resp := Success(NoData);
    } else if req.verb == PUT {
      if FailsAt(fault, 0) {
        resp := Failure(500, fault.message);
        return;
      }
      var r := t.Update(BodyId(req.body), req.body - {"id"});
      resp := if r.Err? then Failure(500, r.message) else Success(RunData(r.value));
    } else {
      resp := NotAllowed;
    }
  }

  // ----- the whole store -----

  datatype DbState = DbState(expenses: TableState, income: TableState, sheets: seq<string>)

  const EmptyDb: DbState := DbState(EmptyTable, EmptyTable, [])

  ghost predicate Consistent(st: DbState)
  {
    WellFormed(st.expenses) && WellFormed(st.income) && Distinct(st.sheets)
  }

  /** pages/api/expenses.js: only the expense table is touched. */
  function ExpensesRoute(st: DbState, req: Request, fault: Fault): (r: DbState)
    ensures r.income == st.income && r.sheets == st.sheets
    ensures Consistent(st) ==> Consistent(r)
  {
    RecordsWellFormedWhen(st.expenses, Expense, req, fault);
    st.(expenses := Records(st.expenses, Expense, req, fault).0)
  }

  /** pages/api/income.js: only the income table is touched. */
  function IncomeRoute(st: DbState, req: Request, fault: Fault): (r: DbState)
    ensures r.expenses == st.expenses && r.sheets == st.sheets
    ensures Consistent(st) ==> Consistent(r)
  {
    RecordsWellFormedWhen(st.income, Income, req, fault);
    st.(income := Records(st.income, Income, req, fault).0)
  }

  // ----- pages/api/sheets.js -----

  const DefaultSheet: string := "default"

  /** `names` with every occurrence of `name` dropped and the rest kept, each
      as often as before and in its order. */
  function Without(names: seq<string>, name: string): (r: seq<string>)
    ensures forall x :: x in r <==> x in names && x != name
    ensures forall x :: x != name ==> multiset(r)[x] == multiset(names)[x]
    ensures Subsequence(r, names)
  {
    FilterMultiset(names, (x: string) => x != name);
    FilterSubsequence(names, (x: string) => x != name);
    Filter(names, (x: string) => x != name)
  }

  /** One request to the sheet route. `name` is the body's `name` for POST and
      the query's `name` for DELETE; GET ignores it. Store calls, in order:
      POST 0 lookup, 1 insert; GET 0 list; DELETE 0 expense rows, 1 income rows,
      2 registry entry. */
  function Sheets(st: DbState, verb: Verb, name: string, fault: Fault): (out: (DbState, Response))
    ensures out.1.success <==> out.1.status == 200
    ensures out.1.status == 200 || out.1.status == 400 || out.1.status == 405 || out.1.status == 500
    ensures verb != DELETE ==> out.0.expenses == st.expenses && out.0.income == st.income
    ensures out.1.status != 200 && verb != DELETE ==> out.0 == st
  {
    if verb == POST then
      if FailsAt(fault, 0) then (st, Failure(500, fault.message))
      else if name in st.sheets then (st, Failure(400, "Sheet name already exists"))
      else if FailsAt(fault, 1) then (st, Failure(500, fault.message))
      else (st.(sheets := st.sheets + [name]), Success(NoData))
    else if verb == GET then
      if FailsAt(fault, 0) then (st, Failure(500, fault.message))
      else (st, Success(NameData(st.sheets)))
    else if verb == DELETE then
      if name == DefaultSheet then (st, Failure(400, "Cannot delete default sheet"))
      else if FailsAt(fault, 0) then (st, Failure(500, fault.message))
      else
        var st1 := st.(expenses := DeleteSheetRows(st.expenses, name));
        if FailsAt(fault, 1) then (st1, Failure(500, fault.message))
        else
          var st2 := st1.(income := DeleteSheetRows(st.income, name));
          if FailsAt(fault, 2) then (st2, Failure(500, fault.message))
          else (st2.(sheets := Without(st.sheets, name)), Success(NoData))
    else (st, NotAllowed)
  }

  /** Creating a name that exists answers 400 and changes nothing; a new name
      is appended, and the registry never holds a name twice. */
  lemma SheetsCreate(st: DbState, name: string)
    requires Distinct(st.sheets)
    ensures var (t, resp) := Sheets(st, POST, name, NoFault);
            && (name in st.sheets ==> t == st && resp == Failure(400, "Sheet name already exists"))
            && (name !in st.sheets ==> t.sheets == st.sheets + [name] && resp == Success(NoData))
            && Distinct(t.sheets)
  {
    if name !in st.sheets {
      AppendDistinct(st.sheets, name);
    }
  }

  lemma AppendDistinct(s: seq<string>, x: string)
    requires Distinct(s) && x !in s
    ensures Distinct(s + [x])
  {
    var r := s + [x];
    forall i, j | 0 <= i < j < |r| ensures r[i] != r[j] {
      if j == |s| {
        assert r[i] in s;
      }
    }
  }

  /** GET lists the names in creation order. */
  lemma SheetsList(st: DbState, name: string)
    ensures Sheets(st, GET, name, NoFault) == (st, Success(NameData(st.sheets)))
  {
  }

  /** The default sheet cannot be deleted: 400, and no table or registry change. */
  lemma SheetsDefaultGuard(st: DbState, fault: Fault)
    ensures Sheets(st, DELETE, "default", fault) == (st, Failure(400, "Cannot delete default sheet"))
  {
  }

  /** Deleting another name removes exactly that sheet's rows from both tables
      and its registry entry, keeps everything else, and answers 200 even when
      the name was never registered. */
  lemma SheetsCascade(st: DbState, name: string)
    requires Consistent(st) && name != DefaultSheet
    ensures var (t, resp) := Sheets(st, DELETE, name, NoFault);
            && resp == Success(NoData)
            && Consistent(t)
            && (forall r :: r in t.expenses.rows <==> r in st.expenses.rows && r.sheet != name)
            && (forall r :: r in t.income.rows <==> r in st.income.rows && r.sheet != name)
            && (forall x :: x in t.sheets <==> x in st.sheets && x != name)
  {
    DeleteSheetKeepsOrder(st.expenses, name);
    DeleteSheetKeepsOrder(st.income, name);
    DistinctFilter(st.sheets, (x: string) => x != name);
  }

  /** A failure mid-cascade leaves the steps already done in place: after the
      expense rows go, a failing income delete keeps the income table and the
      registry as they were. */
  lemma SheetsPartialCascade(st: DbState, name: string, m: string)
    requires name != DefaultSheet
    ensures var (t, resp) := Sheets(st, DELETE, name, FailAt(1, m));
            && resp == Failure(500, m)
            && t == st.(expenses := DeleteSheetRows(st.expenses, name))
  {
  }

  /** Any other method answers 405 and changes nothing. */
  lemma SheetsNotAllowed(st: DbState, verb: Verb, name: string, fault: Fault)
    requires verb != POST && verb != GET && verb != DELETE
    ensures Sheets(st, verb, name, fault) == (st, NotAllowed)
  {
  }

  /** Every sheet request keeps the store consistent. */
  lemma SheetsConsistent(st: DbState, verb: Verb, name: string, fault: Fault)
    requires Consistent(st)
    ensures Consistent(Sheets(st, verb, name, fault).0)
  {
    if verb == POST && name !in st.sheets {
      AppendDistinct(st.sheets, name);
    } else if verb == DELETE && name != DefaultSheet {
      DeleteSheetKeepsOrder(st.expenses, name);
      DeleteSheetKeepsOrder(st.income, name);
      DistinctFilter(st.sheets, (x: string) => x != name);
    }
  }

  /** Rows carry the placeholder sheet, and the placeholder cannot be deleted,
      so the cascade never removes a row of a store built by the record routes. */
  ghost predicate AllUnscoped(s: TableState)
  {
    forall r :: r in s.rows ==> r.sheet == Unscoped
  }

  lemma RecordsKeepUnscoped(s: TableState, k: Kind, req: Request, fault: Fault)
    requires AllUnscoped(s)
    ensures AllUnscoped(Records(s, k, req, fault).0)
  {
    var t := Records(s, k, req, fault).0;
    if req.verb == PUT && t != s {
      var key := KeyOf(BodyId(req.body));
      forall r | r in t.rows ensures r.sheet == Unscoped {
        var i :| 0 <= i < |t.rows| && t.rows[i] == r;
        assert s.rows[i] in s.rows;
      }
    }
  }

  lemma CascadeKeepsRows(st: DbState, verb: Verb, name: string, fault: Fault)
    requires AllUnscoped(st.expenses) && AllUnscoped(st.income)
    ensures var t := Sheets(st, verb, name, fault).0;
            t.expenses.rows == st.expenses.rows && t.income.rows == st.income.rows
  {
    if name != DefaultSheet {
      DeleteAbsentSheet(st.expenses, name);
      DeleteAbsentSheet(st.income, name);
    }
  }

  // ----- pages/api/clear.js -----

  /** Store calls: 0 clears expenses, 1 clears income. */
  function Clear(st: DbState, verb: Verb, fault: Fault): (out: (DbState, Response))
    ensures out.1.success <==> out.1.status == 200
    ensures out.0.sheets == st.sheets
    ensures out.1.status != 200 && !FailsAt(fault, 1) ==> out.0 == st
  {
    if verb != POST then (st, NotAllowed)
    else if FailsAt(fault, 0) then (st, Failure(500, fault.message))
    else
      var st1 := st.(expenses := DeleteAllRows(st.expenses));
      if FailsAt(fault, 1) then (st1, Failure(500, fault.message))
      else (st1.(income := DeleteAllRows(st.income)), Success(NoData))
  }

  /** POST empties both tables (every sheet's rows) and answers 200, and doing
      it twice is the same as doing it once. */
  lemma ClearEmpties(st: DbState)
    ensures var (t, resp) := Clear(st, POST, NoFault);
            && t.expenses.rows == [] && t.income.rows == []
            && resp == Success(NoData)
            && Clear(t, POST, NoFault) == (t, resp)
  {
  }

  /** Expenses go first: when their delete fails the income delete is not
      attempted; when the income delete fails the expenses are already gone. */
  lemma ClearOrder(st: DbState, m: string)
    ensures Clear(st, POST, FailAt(0, m)) == (st, Failure(500, m))
    ensures Clear(st, POST, FailAt(1, m)).0 == st.(expenses := DeleteAllRows(st.expenses))
  {
  }

  lemma ClearNotAllowed(st: DbState, verb: Verb, fault: Fault)
    requires verb != POST
    ensures Clear(st, verb, fault) == (st, NotAllowed)
  {
  }

  /** The store: both tables and the sheet registry. The registry starts
      empty: no statement of the store creates it or its `default` entry. */
  class Database {
    const expenses: Table
    const income: Table
    var sheets: seq<string>

    ghost predicate Valid()
      reads this, expenses, income
    {
      && expenses != income
      && expenses.kind == Expense && income.kind == Income
      && expenses.Valid() && income.Valid()
      && Distinct(sheets)
    }

    function State(): DbState
      reads this, expenses, income
    {
      DbState(expenses.State(), income.State(), sheets)
    }

    constructor ()
      ensures Valid() && State() == EmptyDb
      ensures fresh(expenses) && fresh(income)
    {
      expenses := new Table(Expense);
      income := new Table(Income);
      sheets := [];
    }

    /** pages/api/expenses.js `handler`. */
    method HandleExpenses(req: Request, fault: Fault) returns (resp: Response)
      requires Valid()
      modifies expenses
      ensures Valid()
      ensures State() == ExpensesRoute(old(State()), req, fault)
      ensures resp == Records(old(expenses.State()), Expense, req, fault).1
    {
      resp := HandleRecords(expenses, req, fault);
    }

    /** pages/api/income.js `handler`. */
    method HandleIncome(req: Request, fault: Fault) returns (resp: Response)
      requires Valid()
      modifies income
      ensures Valid()
      ensures State() == IncomeRoute(old(State()), req, fault)
      ensures resp == Records(old(income.State()), Income, req, fault).1
    {
      resp := HandleRecords(income, req, fault);
    }

    /** pages/api/sheets.js `handler`. */
    method HandleSheets(verb: Verb, name: string, fault: Fault) returns (resp: Response)
      requires Valid()
      modifies this, expenses, income
      ensures Valid()
      ensures (State(), resp) == Sheets(old(State()), verb, name, fault)
    {
      if verb == POST {
        if FailsAt(fault, 0) {
          resp := Failure(500, fault.message);
          return;
        }
        if name in sheets {
          resp := Failure(400, "Sheet name already exists");
          return;
        }
        if FailsAt(fault, 1) {
          resp := Failure(500, fault.message);
          return;
        }
        AppendDistinct(sheets, name);
        sheets := sheets + [name];
        resp := Success(NoData);
      } else if verb == GET {
        resp := if FailsAt(fault, 0) then Failure(500, fault.message) else Success(NameData(sheets));
      } else if verb == DELETE {
        if name == DefaultSheet {
          resp := Failure(400, "Cannot delete default sheet");
          return;
        }
        if FailsAt(fault, 0) {
          resp := Failure(500, fault.message);
          return;
        }
        expenses.DeleteSheet(name);
        if FailsAt(fault, 1) {
          resp := Failure(500, fault.message);
          return;
        }
        income.DeleteSheet(name);
        if FailsAt(fault, 2) {
          resp := Failure(500, fault.message);
          return;
        }
        DistinctFilter(sheets, (x: string) => x != name);
        sheets := Without(sheets, name);
        resp := Success(NoData);
      } else {
        resp := NotAllowed;
      }
    }

    /** pages/api/clear.js `handler`. */
    method HandleClear(verb: Verb, fault: Fault) returns (resp: Response)
      requires Valid()
      modifies expenses, income
      ensures Valid()
      ensures (State(), resp) == Clear(old(State()), verb, fault)
    {
      if verb != POST {
        resp := NotAllowed;
        return;
      }
      if FailsAt(fault, 0) {
        resp := Failure(500, fault.message);
        return;
      }
      expenses.DeleteAll();
      if FailsAt(fault, 1) {
        resp := Failure(500, fault.message);
        return;
      }
      income.DeleteAll();
      resp := Success(NoData);
    }
  }

  // ----- as written -----

  /** pages/api/sheets.js as written imports `initializeDatabase`, which
      utils/db.js does not export, so its first statement throws before any
      branch runs and every request ends in a server error. */
  function SheetsAsWritten(st: DbState, verb: Verb, name: string, fault: Fault): (out: (DbState, Response))
    ensures out.0 == st && out.1.status == 500
  {
    (st, Failure(500, "initializeDatabase is not a function"))
  }

  /** The discrepancy: creating a new sheet as written registers nothing,
      where the evidently intended route appends the name. */
  lemma SheetsAsWrittenCannotCreate(st: DbState, name: string)
    requires name !in st.sheets
    ensures SheetsAsWritten(st, POST, name, NoFault).0.sheets == st.sheets
    ensures Sheets(st, POST, name, NoFault).0.sheets == st.sheets + [name]
    ensures Sheets(st, POST, name, NoFault).0 != SheetsAsWritten(st, POST, name, NoFault).0
  {
    assert |st.sheets + [name]| != |st.sheets|;
  }
}

/** The spreadsheet import and export of the dashboard page (pages/index.js,
    `handleFileChange` and `handleExportClick`). A workbook is a map from tab
    name to the rows the spreadsheet library reads from it (`sheet_to_json`);
    the library itself is not modelled. Each submitted row is a POST to the
    record route, performed on the `Database`. */
module Spreadsheet {
  import opened Values
  import opened DateSerial
  import opened Db
  import opened Api

  type Workbook = map<string, seq<Row>>

  function TabName(k: Kind): string
  {
    if k == Expense then "expense" else "income"
  }

  // ----- import -----

  /** The precondition of the date conversion: a truthy date is text or a
      serial of a day in 1970..9999. */
  predicate DateConvertible(r: Row)
  {
    "date" in r && Truthy(r["date"]) ==> Convertible(r["date"])
  }

  predicate Importable(rows: seq<Row>)
  {
    forall i :: 0 <= i < |rows| ==> DateConvertible(rows[i])
  }

  /** `if (row.date) row.date = excelDateToJSDate(row.date)`. */
  function NormalizeRow(r: Row): (n: Row)
    requires DateConvertible(r)
    ensures n.Keys == r.Keys
    ensures forall c :: c in r && c != "date" ==> n[c] == r[c]
    ensures "date" in r && !Truthy(r["date"]) ==> n == r
    ensures "date" in r && Truthy(r["date"]) ==> n["date"] == Text(ExcelDateToJSDate(r["date"]))
  {
    if "date" in r && Truthy(r["date"]) then r["date" := Text(ExcelDateToJSDate(r["date"]))] else r
  }

  /** The rows of a tab after the loop has rewritten their dates. */
  function Normalized(rows: seq<Row>): (r: seq<Row>)
    requires Importable(rows)
    ensures |r| == |rows|
    ensures forall i :: 0 <= i < |rows| ==> r[i] == NormalizeRow(rows[i])
  {
    if rows == [] then [] else Normalized(rows[..|rows| - 1]) + [NormalizeRow(rows[|rows| - 1])]
  }

  /** The body posted for a row: `{ ...row, sheet_name: currentSheet }`. */
  function Submission(r: Row, sheet: string): (b: Row)
    requires DateConvertible(r)
    ensures b.Keys == r.Keys + {"sheet_name"} && b["sheet_name"] == Text(sheet)
    ensures forall c :: c in r && c != "sheet_name" && c != "date" ==> b[c] == r[c]
    ensures "date" in r && Truthy(r["date"]) ==> b["date"] == Text(ExcelDateToJSDate(r["date"]))
    ensures "date" in r && !Truthy(r["date"]) ==> b["date"] == r["date"]
  {
    NormalizeRow(r)["sheet_name" := Text(sheet)]
  }

  function Submissions(rows: seq<Row>, sheet: string): (r: seq<Row>)
    requires Importable(rows)
    ensures |r| == |rows|
    ensures forall i :: 0 <= i < |rows| ==> r[i] == Submission(rows[i], sheet)
  {
    if rows == [] then [] else Submissions(rows[..|rows| - 1], sheet) + [Submission(rows[|rows| - 1], sheet)]
  }

  /** The table after posting the bodies one after another; the page ignores
      each reply, so a body the store rejects is simply not stored. Each POST
      is the route's insert (`PostIsInsert`). */
  function PostAll(s: TableState, k: Kind, bodies: seq<Row>): (t: TableState)
    ensures |s.rows| <= |t.rows| <= |s.rows| + |bodies|
    ensures t.rows[..|s.rows|] == s.rows
    ensures t.nextId - s.nextId == |t.rows| - |s.rows|
  {
    if bodies == [] then s
    else
      var m := PostAll(s, k, bodies[..|bodies| - 1]);
      var t := InsertRow(m, k, bodies[|bodies| - 1]).0;
      assert t.rows[..|m.rows|] == m.rows;
      assert t.rows[..|s.rows|] == m.rows[..|s.rows|];
      t
  }

  /** A POST the store does not fail is exactly the insert. */
  lemma PostIsInsert(s: TableState, k: Kind, y: Row)
    ensures Records(s, k, Request(POST, map[], y), NoFault).0 == InsertRow(s, k, y).0
  {
  }

  /** The records the store creates for complete bodies posted in order,
      numbered from `id` and stamped from `clock`. */
  function Numbered(k: Kind, bodies: seq<Row>, id: int, clock: nat): (r: seq<Record>)
    requires forall i :: 0 <= i < |bodies| ==> Complete(k, bodies[i])
    ensures |r| == |bodies|
    ensures forall i :: 0 <= i < |bodies| ==> r[i] == Stored(k, bodies[i], id + i, clock + i)
  {
    if bodies == [] then []
    else Numbered(k, bodies[..|bodies| - 1], id, clock) + [Stored(k, bodies[|bodies| - 1], id + |bodies| - 1, clock + |bodies| - 1)]
  }

  /** The bodies the store accepts, in order. */
  function CompleteBodies(k: Kind, bodies: seq<Row>): (r: seq<Row>)
    ensures |r| <= |bodies|
    ensures forall i :: 0 <= i < |r| ==> Complete(k, r[i])
    ensures forall b :: b in r <==> b in bodies && Complete(k, b)
  {
    if bodies == [] then []
    else
      var pre := bodies[..|bodies| - 1];
      var y := bodies[|bodies| - 1];
      assert bodies == pre + [y];
      CompleteBodies(k, pre) + (if Complete(k, y) then [y] else [])
  }

  lemma PostAllSnoc(s: TableState, k: Kind, bodies: seq<Row>, y: Row)
    ensures PostAll(s, k, bodies + [y]) == InsertRow(PostAll(s, k, bodies), k, y).0
  {
    assert (bodies + [y])[..|bodies|] == bodies;
  }

  lemma CompleteBodiesSnoc(k: Kind, bodies: seq<Row>, y: Row)
    ensures CompleteBodies(k, bodies + [y]) == CompleteBodies(k, bodies) + (if Complete(k, y) then [y] else [])
  {
    assert (bodies + [y])[..|bodies|] == bodies;
  }

  lemma NumberedSnoc(k: Kind, ok: seq<Row>, y: Row, id: int, clock: nat)
    requires forall i :: 0 <= i < |ok| ==> Complete(k, ok[i])
    requires Complete(k, y)
    ensures Numbered(k, ok + [y], id, clock) == Numbered(k, ok, id, clock) + [Stored(k, y, id + |ok|, clock + |ok|)]
  {
    assert (ok + [y])[..|ok|] == ok;
  }

  /** The table after posting the complete bodies `ok` in order. */
  function Appended(s: TableState, k: Kind, ok: seq<Row>): TableState
    requires forall i :: 0 <= i < |ok| ==> Complete(k, ok[i])
  {
    TableState(s.rows + Numbered(k, ok, s.nextId, s.clock), s.nextId + |ok|, s.clock + |ok|)
  }

  /** Posting the bodies appends exactly the complete ones, once each, in body
      order, with consecutive fresh ids. */
  lemma {:induction false} PostAllStores(s: TableState, k: Kind, bodies: seq<Row>)
    ensures PostAll(s, k, bodies) == Appended(s, k, CompleteBodies(k, bodies))
    decreases |bodies|
  {
    if bodies == [] {
      assert s.rows + [] == s.rows;
    } else {
      var pre := bodies[..|bodies| - 1];
      var y := bodies[|bodies| - 1];
      assert bodies == pre + [y];
      PostAllStores(s, k, pre);
      PostAllStoresStep(s, k, pre, y);
    }
  }

  lemma PostAllStoresStep(s: TableState, k: Kind, pre: seq<Row>, y: Row)
    requires PostAll(s, k, pre) == Appended(s, k, CompleteBodies(k, pre))
    ensures PostAll(s, k, pre + [y]) == Appended(s, k, CompleteBodies(k, pre + [y]))
  {
    PostAllSnoc(s, k, pre, y);
    CompleteBodiesSnoc(k, pre, y);
    if Complete(k, y) {
      AppendedSnoc(s, k, CompleteBodies(k, pre), y);
    } else {
      assert CompleteBodies(k, pre + [y]) == CompleteBodies(k, pre);
    }
  }

  /** Appending one more complete body stores it under the next id and stamp. */
  lemma AppendedSnoc(s: TableState, k: Kind, ok: seq<Row>, y: Row)
    requires forall i :: 0 <= i < |ok| ==> Complete(k, ok[i])
    requires Complete(k, y)
    ensures var m := Appended(s, k, ok);
            Appended(s, k, ok + [y]) == TableState(m.rows + [Stored(k, y, m.nextId, m.clock)], m.nextId + 1, m.clock + 1)
  {
    NumberedSnoc(k, ok, y, s.nextId, s.clock);
    assert s.rows + Numbered(k, ok + [y], s.nextId, s.clock)
        == (s.rows + Numbered(k, ok, s.nextId, s.clock)) + [Stored(k, y, s.nextId + |ok|, s.clock + |ok|)];
  }

  /** A posted body is complete exactly when its row is: neither the date
      rewrite nor the added `sheet_name` touches the four columns' presence. */
  lemma SubmissionComplete(k: Kind, r: Row, sheet: string)
    requires DateConvertible(r)
    ensures Complete(k, Submission(r, sheet)) <==> Complete(k, r)
  {
    assert "sheet_name" !in Columns(k);
  }

  /** The store keeps the placeholder sheet whatever sheet the page was on when
      it imported: the submitted `sheet_name` is dropped. */
  lemma ImportDropsSheet(k: Kind, r: Row, sheet1: string, sheet2: string, id: int, clock: nat)
    requires DateConvertible(r) && Complete(k, r)
    ensures && Stored(k, Submission(r, sheet1), id, clock) == Stored(k, Submission(r, sheet2), id, clock)
            && Stored(k, Submission(r, sheet1), id, clock).sheet == Unscoped
  {
    SubmissionComplete(k, r, sheet1);
    SubmissionComplete(k, r, sheet2);
  }

  /** What the import modal shows: the first ten (rewritten) rows of each tab. */
  datatype Preview = Preview(expenses: seq<Row>, income: seq<Row>)

  function PreviewOf(wb: Workbook, k: Kind): seq<Row>
    requires TabName(k) in wb ==> Importable(wb[TabName(k)])
  {
    if TabName(k) in wb then
      var rows := Normalized(wb[TabName(k)]);
      rows[..Min(10, |rows|)]
    else []
  }

  /** A preview holds at most ten rows and is a prefix of the tab's rewritten rows. */
  lemma PreviewPrefix(wb: Workbook, k: Kind)
    requires TabName(k) in wb ==> Importable(wb[TabName(k)])
    ensures |PreviewOf(wb, k)| <= 10
    ensures TabName(k) in wb ==>
              var rows := Normalized(wb[TabName(k)]);
              && |PreviewOf(wb, k)| == Min(10, |rows|)
              && PreviewOf(wb, k) == rows[..|PreviewOf(wb, k)|]
  {
  }

  ghost predicate Posted(before: TableState, after: TableState, wb: Workbook, k: Kind, sheet: string)
    requires TabName(k) in wb ==> Importable(wb[TabName(k)])
  {
    after == if TabName(k) in wb then PostAll(before, k, Submissions(wb[TabName(k)], sheet)) else before
  }

  /** handleFileChange after the file has been read into a workbook: each tab
      named exactly `expense` or `income` has its rows' dates rewritten in
      place and each row posted, in row order. The preview opens only when one
      of the two tabs exists. */
  method ImportWorkbook(db: Database, wb: Workbook, currentSheet: string) returns (preview: Option<Preview>)
    requires db.Valid()
    requires "expense" in wb ==> Importable(wb["expense"])
    requires "income" in wb ==> Importable(wb["income"])
    modifies db.expenses, db.income
    ensures db.Valid()
    ensures Posted(old(db.expenses.State()), db.expenses.State(), wb, Expense, currentSheet)
    ensures Posted(old(db.income.State()), db.income.State(), wb, Income, currentSheet)
    ensures preview.Some? <==> "expense" in wb || "income" in wb
    ensures preview.Some? ==> preview.value == Preview(PreviewOf(wb, Expense), PreviewOf(wb, Income))
  {
    var imported := false;
    var expenseRows: seq<Row> := [];
    var incomeRows: seq<Row> := [];
    if "expense" in wb {
      expenseRows := PostTab(db.expenses, wb["expense"], currentSheet);
      imported := true;
    }
    if "income" in wb {
      incomeRows := PostTab(db.income, wb["income"], currentSheet);
      imported := true;
    }
    if imported {
      preview := Some(Preview(expenseRows[..Min(10, |expenseRows|)], incomeRows[..Min(10, |incomeRows|)]));
    } else {
      preview := None;
    }
  }

  /** The `for...of` loop over one tab: rewrite the row's date in place, then
      post the row, tagged with the current sheet, to the table's route.
      Answers the rewritten rows. */
  method PostTab(t: Table, tab: seq<Row>, currentSheet: string) returns (rows: seq<Row>)
    requires t.Valid() && Importable(tab)
    modifies t
    ensures t.Valid()
    ensures rows == Normalized(tab)
    ensures t.State() == PostAll(old(t.State()), t.kind, Submissions(tab, currentSheet))
  {
    ghost var s0 := t.State();
    rows := tab;
    var i := 0;
    while i < |rows|
      invariant Rewritten(rows, tab, i)
      invariant t.Valid()
      invariant t.State() == PostAll(s0, t.kind, SubmittedPrefix(tab, i, currentSheet))
    {
      rows := PostStep(t, tab, i, rows, currentSheet, s0);
      i := i + 1;
    }
    RewrittenAll(rows, tab);
    SubmittedAll(tab, currentSheet);
  }

  /** The loop's rows after `i` turns: the first `i` rewritten, the rest as read. */
  ghost predicate Rewritten(rows: seq<Row>, tab: seq<Row>, i: nat)
    requires Importable(tab)
  {
    && |rows| == |tab| && i <= |tab|
    && (forall j :: 0 <= j < i ==> rows[j] == NormalizeRow(tab[j]))
    && (forall j :: i <= j < |tab| ==> rows[j] == tab[j])
  }

  lemma RewrittenAll(rows: seq<Row>, tab: seq<Row>)
    requires Importable(tab) && Rewritten(rows, tab, |tab|)
    ensures rows == Normalized(tab)
  {
  }

  /** Turn `i` of the loop: rewrite row `i` and post it after the first `i`. */
  method PostStep(t: Table, tab: seq<Row>, i: nat, rows: seq<Row>, currentSheet: string, ghost s0: TableState)
      returns (next: seq<Row>)
    requires t.Valid() && Importable(tab) && i < |tab| && Rewritten(rows, tab, i)
    requires t.State() == PostAll(s0, t.kind, SubmittedPrefix(tab, i, currentSheet))
    modifies t
    ensures t.Valid() && Rewritten(next, tab, i + 1)
    ensures t.State() == PostAll(s0, t.kind, SubmittedPrefix(tab, i + 1, currentSheet))
  {
    var row := ImportRow(t, rows[i], currentSheet);
    next := rows[i := row];
    PostAllSnoc(s0, t.kind, SubmittedPrefix(tab, i, currentSheet), Submission(tab[i], currentSheet));
  }

  /** The bodies of the first `i` rows of a tab. */
  ghost function SubmittedPrefix(tab: seq<Row>, i: nat, sheet: string): seq<Row>
    requires Importable(tab) && i <= |tab|
  {
    if i == 0 then [] else SubmittedPrefix(tab, i - 1, sheet) + [Submission(tab[i - 1], sheet)]
  }

  lemma {:induction false} SubmittedPrefixIs(tab: seq<Row>, i: nat, sheet: string)
    requires Importable(tab) && i <= |tab|
    ensures |SubmittedPrefix(tab, i, sheet)| == i
    ensures forall j :: 0 <= j < i ==> SubmittedPrefix(tab, i, sheet)[j] == Submission(tab[j], sheet)
  {
    if i > 0 {
      SubmittedPrefixIs(tab, i - 1, sheet);
    }
  }

  lemma SubmittedAll(tab: seq<Row>, sheet: string)
    requires Importable(tab)
    ensures SubmittedPrefix(tab, |tab|, sheet) == Submissions(tab, sheet)
  {
    SubmittedPrefixIs(tab, |tab|, sheet);
  }

  /** One turn of the `for...of` loop: rewrite the row's date, then
      `await fetch(url, { method: 'POST', body })` with the row tagged by the
      current sheet. The reply is not looked at, and the store is not failed. */
  method ImportRow(t: Table, row: Row, currentSheet: string) returns (rewritten: Row)
    requires t.Valid() && DateConvertible(row)
    modifies t
    ensures t.Valid()
    ensures rewritten == NormalizeRow(row)
    ensures t.State() == InsertRow(old(t.State()), t.kind, Submission(row, currentSheet)).0
  {
    rewritten := RewriteDate(row);
    var body := rewritten["sheet_name" := Text(currentSheet)];
    PostIsInsert(t.State(), t.kind, body);
    var resp := HandleRecords(t, Request(POST, map[], body), NoFault);
  }

  /** `if (row.date) row.date = excelDateToJSDate(row.date)`, on the loop's row. */
  method RewriteDate(row: Row) returns (rewritten: Row)
    requires DateConvertible(row)
    ensures rewritten == NormalizeRow(row)
    ensures "date" in row && Truthy(row["date"]) ==> rewritten["date"].Text?
    ensures rewritten.Keys == row.Keys
  {
    rewritten := row;
    if "date" in rewritten && Truthy(rewritten["date"]) {
      rewritten := rewritten["date" := Text(ExcelDateToJSDate(rewritten["date"]))];
    }
  }

  // ----- export -----

  /** `{ date: e.date, expense: e.expense, category: e.category, amount: e.amount }`. */
  function ProjectRow(r: Row, k: Kind): Row
  {
    map c | c in r && c in Columns(k) :: r[c]
  }

  function Project(rows: seq<Row>, k: Kind): (r: seq<Row>)
    ensures |r| == |rows|
    ensures forall i :: 0 <= i < |rows| ==> r[i] == ProjectRow(rows[i], k)
  {
    if rows == [] then [] else Project(rows[..|rows| - 1], k) + [ProjectRow(rows[|rows| - 1], k)]
  }

  /** handleExportClick: the two fetched lists, projected, under tabs `expense`
      and `income`. */
  function Export(expenses: seq<Row>, income: seq<Row>): (wb: Workbook)
    ensures wb.Keys == {"expense", "income"}
    ensures |wb["expense"]| == |expenses| && |wb["income"]| == |income|
  {
    map["expense" := Project(expenses, Expense), "income" := Project(income, Income)]
  }

  /** The export has exactly the two tabs; each keeps the list's length and
      order and, of every row, exactly the four columns with their values. */
  lemma ExportShape(expenses: seq<Row>, income: seq<Row>)
    ensures var wb := Export(expenses, income);
            && wb.Keys == {"expense", "income"}
            && |wb["expense"]| == |expenses| && |wb["income"]| == |income|
            && (forall i, c :: 0 <= i < |expenses| ==>
                  (c in wb["expense"][i] <==> c in expenses[i] && c in Columns(Expense))
                  && (c in wb["expense"][i] ==> wb["expense"][i][c] == expenses[i][c]))
            && (forall i, c :: 0 <= i < |income| ==>
                  (c in wb["income"][i] <==> c in income[i] && c in Columns(Income))
                  && (c in wb["income"][i] ==> wb["income"][i][c] == income[i][c]))
  {
  }

  /** Dates the store holds are text, which the import leaves as they are: an
      exported workbook imports back as the projected rows, each tagged with
      the current sheet. */
  lemma ExportImport(expenses: seq<Row>, income: seq<Row>, sheet: string)
    requires forall i :: 0 <= i < |expenses| && "date" in expenses[i] ==> expenses[i]["date"].Text?
    requires forall i :: 0 <= i < |income| && "date" in income[i] ==> income[i]["date"].Text?
    ensures forall k: Kind :: var tab := Export(expenses, income)[TabName(k)];
            && Importable(tab)
            && Submissions(tab, sheet) == seq(|tab|, i requires 0 <= i < |tab| => tab[i]["sheet_name" := Text(sheet)])
  {
    TabImport(expenses, Expense, sheet);
    TabImport(income, Income, sheet);
    assert Export(expenses, income)[TabName(Expense)] == Project(expenses, Expense);
    assert Export(expenses, income)[TabName(Income)] == Project(income, Income);
  }

  /** One exported tab imports back unchanged but for the sheet tag. */
  lemma TabImport(rows: seq<Row>, k: Kind, sheet: string)
    requires forall i :: 0 <= i < |rows| && "date" in rows[i] ==> rows[i]["date"].Text?
    ensures var tab := Project(rows, k);
            && Importable(tab)
            && Submissions(tab, sheet) == seq(|tab|, i requires 0 <= i < |tab| => tab[i]["sheet_name" := Text(sheet)])
  {
    var tab := Project(rows, k);
    forall i | 0 <= i < |tab| ensures DateConvertible(tab[i]) && Submission(tab[i], sheet) == tab[i]["sheet_name" := Text(sheet)] {
      ProjectedImport(rows[i], k, sheet);
    }
  }

  /** A projected row with a text date is posted as it is, tagged. */
  lemma ProjectedImport(row: Row, k: Kind, sheet: string)
    requires "date" in row ==> row["date"].Text?
    ensures var p := ProjectRow(row, k);
            DateConvertible(p) && Submission(p, sheet) == p["sheet_name" := Text(sheet)]
  {
    var p := ProjectRow(row, k);
    assert "date" in p ==> p["date"] == row["date"];
    assert NormalizeRow(p) == p;
  }
}

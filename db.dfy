/** The record store of utils/db.js: two independent SQLite tables, `expenses`
    and `income`, each with an AUTOINCREMENT id and a creation timestamp.
    The SQL statements are modelled by their standard semantics on a table
    state; `created_at` becomes an insertion counter, so rows are kept in
    creation order. */
module Db {
  import opened Values

  datatype Kind = Expense | Income

  function TableName(k: Kind): string
  {
    if k == Expense then "expenses" else "income"
  }

  /** The description column: `expense` in one table, `income` in the other. */
  function LabelColumn(k: Kind): string
  {
    if k == Expense then "expense" else "income"
  }

  /** The NOT NULL columns an insert or update binds, in statement order. */
  function Columns(k: Kind): seq<string>
  {
    ["date", LabelColumn(k), "category", "amount"]
  }

  /** Every NOT NULL column is bound. */
  predicate Complete(k: Kind, body: Row)
  {
    "date" in body && LabelColumn(k) in body && "category" in body && "amount" in body
  }

  /** The sheet every stored row carries. The insert statements bind only the
      four columns (neither table has a `sheet_name` column), so the request's
      `sheet_name` is dropped; the model stores this fixed placeholder instead. */
  const Unscoped: string := "default"

  datatype Record = Record(id: int, date: Value, description: Value, category: Value,
                           amount: Value, sheet: string, created: nat)

  /** What `db.run` resolves to: the last inserted rowid of the connection and
      the number of rows the statement changed. */
  datatype Run = Run(lastId: int, changes: nat)

  /** A table: its rows in creation order, the next AUTOINCREMENT id (never
      reused, even after a delete) and the next creation stamp. */
  datatype TableState = TableState(rows: seq<Record>, nextId: int, clock: nat)

  const EmptyTable: TableState := TableState([], 1, 0)

  predicate Older(a: Record, b: Record)
  {
    a.id < b.id && a.created < b.created
  }

  /** Ids and creation stamps both increase along the rows. */
  ghost predicate Ordered(rows: seq<Record>)
  {
    Pairwise(rows, Older)
  }

  ghost predicate WellFormed(s: TableState)
  {
    && s.nextId >= 1
    && Ordered(s.rows)
    && (forall r :: r in s.rows ==> 1 <= r.id < s.nextId && r.created < s.clock)
  }

  lemma EmptyWellFormed()
    ensures WellFormed(EmptyTable)
  {
  }

  /** In a well-formed table no two rows share an id. */
  lemma UniqueIds(s: TableState, i: int, j: int)
    requires WellFormed(s) && 0 <= i < |s.rows| && 0 <= j < |s.rows| && i != j
    ensures s.rows[i].id != s.rows[j].id
  {
    if i < j {
      assert Older(s.rows[i], s.rows[j]);
    } else {
      assert Older(s.rows[j], s.rows[i]);
    }
  }

  // ----- lookup -----

  predicate Matches(r: Record, id: Option<int>)
  {
    id.Some? && r.id == id.value
  }

  /** `SELECT * FROM <table> WHERE id = ?`, first matching row. */
  function FindById(rows: seq<Record>, id: Option<int>): (r: Option<Record>)
    ensures r.Some? ==> r.value in rows && Matches(r.value, id)
    ensures r.None? <==> forall x :: x in rows ==> !Matches(x, id)
  {
    if rows == [] then None
    else if Matches(rows[0], id) then Some(rows[0])
    else FindById(rows[1..], id)
  }

  lemma FindUnique(s: TableState, r: Record)
    requires WellFormed(s) && r in s.rows
    ensures FindById(s.rows, Some(r.id)) == Some(r)
  {
    var f := FindById(s.rows, Some(r.id));
    var i :| 0 <= i < |s.rows| && s.rows[i] == r;
    var j :| 0 <= j < |s.rows| && s.rows[j] == f.value;
    if i != j {
      UniqueIds(s, i, j);
    }
  }

  // ----- INSERT -----

  /** The first NOT NULL column the body leaves undefined. */
  function FirstMissing(cols: seq<string>, body: Row): (r: Option<string>)
    ensures r.None? <==> forall c :: c in cols ==> c in body
    ensures r.Some? ==> r.value in cols && r.value !in body
  {
    if cols == [] then None
    else if cols[0] !in body then Some(cols[0])
    else FirstMissing(cols[1..], body)
  }

  /** The message SQLite raises when a NOT NULL column is bound to NULL. */
  function ConstraintError(k: Kind, column: string): string
  {
    "SQLITE_CONSTRAINT: NOT NULL constraint failed: " + TableName(k) + "." + column
  }

  /** The row an insert stores: the four bound columns and nothing else. */
  function Stored(k: Kind, body: Row, id: int, created: nat): Record
    requires Complete(k, body)
  {
    Record(id, body["date"], body[LabelColumn(k)], body["category"], body["amount"], Unscoped, created)
  }

  /** `INSERT INTO <table> (date, <label>, category, amount) VALUES (?, ?, ?, ?)`. */
  function InsertRow(s: TableState, k: Kind, body: Row): (out: (TableState, Result<Run>))
    ensures out.1.Err? <==> !Complete(k, body)
    ensures out.1.Err? ==> out.0 == s
    ensures out.1.Ok? ==>
              && out.1.value == Run(s.nextId, 1)
              && out.0 == TableState(s.rows + [Stored(k, body, s.nextId, s.clock)], s.nextId + 1, s.clock + 1)
  {
    match FirstMissing(Columns(k), body)
    case Some(c) => (s, Err(ConstraintError(k, c)))
    case None =>
      (TableState(s.rows + [Stored(k, body, s.nextId, s.clock)], s.nextId + 1, s.clock + 1),
       Ok(Run(s.nextId, 1)))
  }

  /** An insert keeps the table well formed, keeps every earlier row, and the
      new row's id exceeds every id the table ever held; looking the id up
      returns exactly the four bound fields. */
  lemma InsertFresh(s: TableState, k: Kind, body: Row)
    requires WellFormed(s) && Complete(k, body)
    ensures var (t, r) := InsertRow(s, k, body);
            && WellFormed(t)
            && t.rows[..|s.rows|] == s.rows
            && (forall x :: x in s.rows ==> x.id < r.value.lastId)
            && FindById(t.rows, Some(r.value.lastId)) == Some(Stored(k, body, s.nextId, s.clock))
  {
    var (t, r) := InsertRow(s, k, body);
    var n := Stored(k, body, s.nextId, s.clock);
    assert t.rows[..|s.rows|] == s.rows;
    assert Ordered(t.rows) by {
      forall i, j | 0 <= i < j < |t.rows| ensures Older(t.rows[i], t.rows[j]) {
        if j == |s.rows| {
          assert t.rows[i] in s.rows;
        } else {
          assert Older(s.rows[i], s.rows[j]);
        }
      }
    }
    FindUnique(t, n);
  }

  /** The request's `sheet_name` (or any other extra field) has no effect on
      what is stored. */
  lemma InsertIgnoresExtraFields(s: TableState, k: Kind, body: Row, extra: string, v: Value)
    requires extra !in Columns(k)
    ensures InsertRow(s, k, body[extra := v]) == InsertRow(s, k, body)
  {
    FirstMissingExtra(Columns(k), body, extra, v);
    if Complete(k, body) {
      assert Stored(k, body[extra := v], s.nextId, s.clock) == Stored(k, body, s.nextId, s.clock);
    }
  }

  lemma {:induction false} FirstMissingExtra(cols: seq<string>, body: Row, extra: string, v: Value)
    requires extra !in cols
    ensures FirstMissing(cols, body[extra := v]) == FirstMissing(cols, body)
  {
    if cols != [] {
      FirstMissingExtra(cols[1..], body, extra, v);
    }
  }

  // ----- UPDATE -----

  /** A row with the four columns set from the body. */
  function Assigned(r: Record, k: Kind, data: Row): Record
    requires Complete(k, data)
  {
    r.(date := data["date"], description := data[LabelColumn(k)], category := data["category"], amount := data["amount"])
  }

  function AssignAll(rows: seq<Record>, id: int, k: Kind, data: Row): (out: seq<Record>)
    requires Complete(k, data)
    ensures |out| == |rows|
    ensures forall i :: 0 <= i < |rows| ==>
              out[i] == if rows[i].id == id then Assigned(rows[i], k, data) else rows[i]
    ensures forall i :: 0 <= i < |rows| ==> out[i].id == rows[i].id && out[i].created == rows[i].created
  {
    if rows == [] then []
    else [if rows[0].id == id then Assigned(rows[0], k, data) else rows[0]] + AssignAll(rows[1..], id, k, data)
  }

  /** The number of rows a `WHERE id = ?` selects. */
  function MatchCount(rows: seq<Record>, id: Option<int>): nat
  {
    |Filter(rows, (r: Record) => Matches(r, id))|
  }

  /** `UPDATE <table> SET date = ?, <label> = ?, category = ?, amount = ? WHERE id = ?`.
      The NOT NULL check fires only when a row is selected. */
  function UpdateRows(s: TableState, k: Kind, id: Option<int>, data: Row): (out: (TableState, Result<Run>))
    ensures out.1.Err? <==> FindById(s.rows, id).Some? && !Complete(k, data)
    ensures out.1.Err? || FindById(s.rows, id).None? ==> out.0 == s
    ensures out.1.Ok? ==> out.1.value.changes == MatchCount(s.rows, id)
    ensures out.0.nextId == s.nextId && out.0.clock == s.clock
  {
    if FindById(s.rows, id).None? then
      FilterNone(s.rows, (r: Record) => Matches(r, id));
      (s, Ok(Run(0, 0)))
    else match FirstMissing(Columns(k), data)
      case Some(c) => (s, Err(ConstraintError(k, c)))
      case None => (s.(rows := AssignAll(s.rows, id.value, k, data)), Ok(Run(0, MatchCount(s.rows, id))))
  }

  lemma AssignAllWellFormed(s: TableState, k: Kind, id: int, data: Row)
    requires WellFormed(s) && Complete(k, data)
    ensures WellFormed(s.(rows := AssignAll(s.rows, id, k, data)))
  {
    var t := AssignAll(s.rows, id, k, data);
    assert Ordered(t) by {
      forall a, b | 0 <= a < b < |t| ensures Older(t[a], t[b]) {
        assert Older(s.rows[a], s.rows[b]);
        assert t[a].id == s.rows[a].id && t[a].created == s.rows[a].created;
        assert t[b].id == s.rows[b].id && t[b].created == s.rows[b].created;
      }
    }
    forall x | x in t ensures 1 <= x.id < s.nextId && x.created < s.clock {
      var a :| 0 <= a < |t| && t[a] == x;
      assert s.rows[a] in s.rows;
      assert t[a].id == s.rows[a].id && t[a].created == s.rows[a].created;
    }
  }

  lemma AssignAllKeeps(rows: seq<Record>, k: Kind, id: int, data: Row)
    requires Complete(k, data)
    ensures forall r :: r in rows && r.id != id ==> r in AssignAll(rows, id, k, data)
  {
    forall r | r in rows && r.id != id ensures r in AssignAll(rows, id, k, data) {
      var a :| 0 <= a < |rows| && rows[a] == r;
      assert AssignAll(rows, id, k, data)[a] == r;
    }
  }

  /** A successful update of an existing id rewrites exactly that row's four
      columns, keeps its id and stamp, keeps every other row, reports one
      change, and keeps the table well formed. */
  lemma UpdateThenFind(s: TableState, k: Kind, id: int, data: Row)
    requires WellFormed(s) && Complete(k, data)
    requires FindById(s.rows, Some(id)).Some?
    ensures var (t, r) := UpdateRows(s, k, Some(id), data);
            && WellFormed(t)
            && |t.rows| == |s.rows|
            && FindById(t.rows, Some(id)) == Some(Assigned(FindById(s.rows, Some(id)).value, k, data))
            && (forall x :: x in s.rows && x.id != id ==> x in t.rows)
            && t.nextId == s.nextId && t.clock == s.clock
            && r == Ok(Run(0, 1))
  {
    var t := s.(rows := AssignAll(s.rows, id, k, data));
    assert UpdateRows(s, k, Some(id), data).0 == t;
    var old_r := FindById(s.rows, Some(id)).value;
    var i :| 0 <= i < |s.rows| && s.rows[i] == old_r;
    assert t.rows[i] == Assigned(old_r, k, data);
    AssignAllWellFormed(s, k, id, data);
    AssignAllKeeps(s.rows, k, id, data);
    FindUnique(t, t.rows[i]);
    SingleMatch(s, i);
  }

  /** In a well-formed table an id selects at most one row. */
  lemma SingleMatch(s: TableState, i: int)
    requires WellFormed(s) && 0 <= i < |s.rows|
    ensures MatchCount(s.rows, Some(s.rows[i].id)) == 1
  {
    var id := s.rows[i].id;
    var p := (r: Record) => Matches(r, Some(id));
    var pre, post := s.rows[..i], s.rows[i + 1..];
    assert s.rows == pre + [s.rows[i]] + post;
    FilterAppend(pre + [s.rows[i]], post, p);
    FilterAppend(pre, [s.rows[i]], p);
    forall j | 0 <= j < |pre| ensures !p(pre[j]) {
      UniqueIds(s, j, i);
    }
    forall j | 0 <= j < |post| ensures !p(post[j]) {
      UniqueIds(s, i + 1 + j, i);
    }
    FilterNone(pre, p);
    FilterNone(post, p);
    assert Filter([s.rows[i]], p) == [s.rows[i]];
  }

  // ----- DELETE -----

  /** `DELETE FROM <table> WHERE id = ?`. */
  function DeleteRow(s: TableState, id: Option<int>): (out: (TableState, Run))
    ensures forall r :: r in out.0.rows <==> r in s.rows && !Matches(r, id)
    ensures FindById(out.0.rows, id).None?
    ensures out.1.changes == |s.rows| - |out.0.rows|
    ensures out.0.nextId == s.nextId && out.0.clock == s.clock
  {
    var kept := Filter(s.rows, (r: Record) => !Matches(r, id));
    (s.(rows := kept), Run(0, |s.rows| - |kept|))
  }

  lemma DeleteKeepsOrder(s: TableState, id: Option<int>)
    requires WellFormed(s)
    ensures WellFormed(DeleteRow(s, id).0)
  {
    FilterPairwise(s.rows, (r: Record) => !Matches(r, id), Older);
  }

  /** `DELETE FROM <table>`: every row goes, the id counter stays. */
  function DeleteAllRows(s: TableState): (out: TableState)
    ensures out.rows == [] && out.nextId == s.nextId
  {
    s.(rows := [])
  }

  /** AUTOINCREMENT: after clearing, the next insert still gets an id above every
      id the table held before. */
  lemma ClearThenInsert(s: TableState, k: Kind, body: Row)
    requires WellFormed(s) && Complete(k, body)
    ensures var (t, r) := InsertRow(DeleteAllRows(s), k, body);
            r.Ok? && forall x :: x in s.rows ==> x.id < r.value.lastId
  {
  }

  /** AUTOINCREMENT: after a delete by id or of the newest rows, the next insert
      still gets an id above every id the table held before, the deleted
      rows' ids included. */
  lemma DeleteThenInsert(s: TableState, k: Kind, body: Row, id: Option<int>, n: nat)
    requires WellFormed(s) && Complete(k, body)
    ensures var (_, r) := InsertRow(DeleteRow(s, id).0, k, body);
            r.Ok? && forall x :: x in s.rows ==> x.id < r.value.lastId
    ensures var (_, r) := InsertRow(DeleteNewest(s, n), k, body);
            r.Ok? && forall x :: x in s.rows ==> x.id < r.value.lastId
  {
  }

  /** `DELETE FROM <table> WHERE sheet_name = ?`. */
  function DeleteSheetRows(s: TableState, name: string): (out: TableState)
    ensures forall r :: r in out.rows <==> r in s.rows && r.sheet != name
    ensures out.nextId == s.nextId && out.clock == s.clock
  {
    s.(rows := Filter(s.rows, (r: Record) => r.sheet != name))
  }

  lemma DeleteSheetKeepsOrder(s: TableState, name: string)
    requires WellFormed(s)
    ensures WellFormed(DeleteSheetRows(s, name))
  {
    FilterPairwise(s.rows, (r: Record) => r.sheet != name, Older);
  }

  /** Deleting a sheet no row belongs to leaves the rows as they were. */
  lemma DeleteAbsentSheet(s: TableState, name: string)
    requires forall r :: r in s.rows ==> r.sheet != name
    ensures DeleteSheetRows(s, name).rows == s.rows
  {
    assert forall i :: 0 <= i < |s.rows| ==> s.rows[i] in s.rows;
    FilterAll(s.rows, (r: Record) => r.sheet != name);
  }

  // ----- newest rows -----

  function Reverse<T>(s: seq<T>): (r: seq<T>)
    ensures |r| == |s|
    ensures forall i :: 0 <= i < |s| ==> r[i] == s[|s| - 1 - i]
  {
    if s == [] then [] else Reverse(s[1..]) + [s[0]]
  }

  /** `ORDER BY created_at DESC LIMIT n`: the last `n` rows, newest first. */
  function Newest(rows: seq<Record>, n: nat): (r: seq<Record>)
    ensures |r| == Min(n, |rows|)
    ensures forall i :: 0 <= i < |r| ==> r[i] == rows[|rows| - 1 - i]
  {
    Reverse(rows[|rows| - Min(n, |rows|)..])
  }

  /** `DELETE ... WHERE id IN (SELECT id ... ORDER BY created_at DESC LIMIT n)`. */
  function DeleteNewest(s: TableState, n: nat): (out: TableState)
    ensures |out.rows| == |s.rows| - Min(n, |s.rows|)
    ensures out.rows == s.rows[..|out.rows|]
    ensures out.nextId == s.nextId && out.clock == s.clock
  {
    s.(rows := s.rows[..|s.rows| - Min(n, |s.rows|)])
  }

  /** The newest rows are listed strictly newest first. */
  lemma NewestDescending(s: TableState, n: nat)
    requires WellFormed(s)
    ensures var top := Newest(s.rows, n);
            && |top| == Min(n, |s.rows|)
            && forall i, j :: 0 <= i < j < |top| ==> top[j].created < top[i].created
  {
    var top := Newest(s.rows, n);
    forall i, j | 0 <= i < j < |top| ensures top[j].created < top[i].created {
      assert top[i] == s.rows[|s.rows| - 1 - i] && top[j] == s.rows[|s.rows| - 1 - j];
      assert Older(s.rows[|s.rows| - 1 - j], s.rows[|s.rows| - 1 - i]);
    }
  }

  /** Deleting the `n` newest removes exactly the rows the listing of the `n`
      newest shows. */
  lemma NewestPartition(s: TableState, n: nat)
    ensures multiset(DeleteNewest(s, n).rows) + multiset(Newest(s.rows, n)) == multiset(s.rows)
  {
    var m := |s.rows| - Min(n, |s.rows|);
    assert s.rows == s.rows[..m] + s.rows[m..];
    ReverseMultiset(s.rows[m..]);
  }

  /** No row outside the `n` newest is newer than any of them. */
  lemma NewestTopK(s: TableState, n: nat)
    requires WellFormed(s)
    ensures forall a, b :: a in DeleteNewest(s, n).rows && b in Newest(s.rows, n) ==> a.created < b.created
  {
    var kept := DeleteNewest(s, n).rows;
    var top := Newest(s.rows, n);
    forall a, b | a in kept && b in top ensures a.created < b.created {
      var i :| 0 <= i < |kept| && kept[i] == a;
      var j :| 0 <= j < |top| && top[j] == b;
      NewestTopKAt(s, n, i, j);
    }
  }

  lemma NewestTopKAt(s: TableState, n: nat, i: nat, j: nat)
    requires WellFormed(s)
    requires i < |DeleteNewest(s, n).rows| && j < |Newest(s.rows, n)|
    ensures DeleteNewest(s, n).rows[i].created < Newest(s.rows, n)[j].created
  {
    var k := |s.rows| - 1 - j;
    assert DeleteNewest(s, n).rows[i] == s.rows[i];
    assert Newest(s.rows, n)[j] == s.rows[k];
    assert i < k;
    assert Older(s.rows[i], s.rows[k]);
  }

  lemma DeleteNewestWellFormed(s: TableState, n: nat)
    requires WellFormed(s)
    ensures WellFormed(DeleteNewest(s, n))
  {
    var kept := DeleteNewest(s, n).rows;
    assert Ordered(kept) by {
      forall i, j | 0 <= i < j < |kept| ensures Older(kept[i], kept[j]) {
        assert Older(s.rows[i], s.rows[j]);
      }
    }
    assert forall x :: x in kept ==> x in s.rows;
  }

  lemma {:induction false} ReverseMultiset<T>(s: seq<T>)
    ensures multiset(Reverse(s)) == multiset(s)
  {
    if s != [] {
      ReverseMultiset(s[1..]);
      assert s == [s[0]] + s[1..];
    }
  }

  /** A table of the store. Its methods are the exports of utils/db.js; each
      changes the fields exactly as the statement it runs. */
  class Table {
    const kind: Kind
    var rows: seq<Record>
    var nextId: int
    var clock: nat

    function State(): TableState
      reads this
    {
      TableState(rows, nextId, clock)
    }

    ghost predicate Valid()
      reads this
    {
      WellFormed(State())
    }

    constructor (kind: Kind)
      ensures Valid() && this.kind == kind && State() == EmptyTable
    {
      this.kind := kind;
      rows, nextId, clock := [], 1, 0;
    }

    /** insertExpense / insertIncome. */
    method Insert(body: Row) returns (r: Result<Run>)
      requires Valid()
      modifies this
      ensures Valid()
      ensures (State(), r) == InsertRow(old(State()), kind, body)
    {
      var missing := FirstMissing(Columns(kind), body);
      if missing.Some? {
        r := Err(ConstraintError(kind, missing.value));
        return;
      }
      ghost var before := State();
      InsertFresh(before, kind, body);
      rows := rows + [Stored(kind, body, nextId, clock)];
      r := Ok(Run(nextId, 1));
      nextId, clock := nextId + 1, clock + 1;
      assert State() == InsertRow(before, kind, body).0;
    }

    /** getLastFiveExpenses / getLastFiveIncome: despite the name, LIMIT 10. */
    method GetLastFive() returns (found: seq<Record>)
      requires Valid()
      ensures found == Newest(rows, 10)
      ensures |found| == Min(10, |rows|)
      ensures forall i, j :: 0 <= i < j < |found| ==> found[j].created < found[i].created
      ensures forall x :: x in rows && x !in found ==> forall y :: y in found ==> x.created < y.created
    {
      found := Reverse(rows[|rows| - Min(10, |rows|)..]);
      NewestDescending(State(), 10);
      NewestPartition(State(), 10);
      NewestTopK(State(), 10);
      forall x | x in rows && x !in found ensures x in DeleteNewest(State(), 10).rows {
        assert x in multiset(rows);
      }
    }

    /** deleteLastFiveExpenses / deleteLastFiveIncome. */
    method DeleteLastFive()
      requires Valid()
      modifies this
      ensures Valid()
      ensures State() == DeleteNewest(old(State()), 5)
    {
      DeleteNewestWellFormed(State(), 5);
      rows := rows[..|rows| - Min(5, |rows|)];
    }

    /** updateExpense / updateIncome: `id` as bound by the caller, absent when
      the request body had none. */
    method Update(id: Option<Value>, data: Row) returns (r: Result<Run>)
      requires Valid()
      modifies this
      ensures Valid()
      ensures (State(), r) == UpdateRows(old(State()), kind, KeyOf(id), data)
    {
      var key := KeyOf(id);
      var hit := FindById(rows, key);
      if hit.None? {
        r := Ok(Run(0, 0));
        return;
      }
      var missing := FirstMissing(Columns(kind), data);
      if missing.Some? {
        r := Err(ConstraintError(kind, missing.value));
        return;
      }
      AssignAllWellFormed(State(), kind, key.value, data);
      r := Ok(Run(0, MatchCount(rows, key)));
      rows := AssignAll(rows, key.value, kind, data);
    }

    /** deleteExpense / deleteIncome. */
    method Delete(id: Value) returns (r: Run)
      requires Valid()
      modifies this
      ensures Valid()
      ensures (State(), r) == DeleteRow(old(State()), IdOf(id))
    {
      r := DeleteKey(IdOf(id));
    }

    /** `DELETE FROM <table> WHERE id = ?` once the bound id is read as a
        key. */
    method DeleteKey(key: Option<int>) returns (r: Run)
      requires Valid()
      modifies this
      ensures Valid()
      ensures (State(), r) == DeleteRow(old(State()), key)
    {
      DeleteKeepsOrder(State(), key);
      var kept := Filter(rows, (x: Record) => !Matches(x, key));
      r := Run(0, |rows| - |kept|);
      rows := kept;
    }

    /** getExpenseById / getIncomeById. */
    method GetById(id: Value) returns (found: Option<Record>)
      requires Valid()
      ensures found.Some? ==> found.value in rows && Some(found.value.id) == IdOf(id)
      ensures found.None? <==> forall x :: x in rows ==> Some(x.id) != IdOf(id)
    {
      found := FindById(rows, IdOf(id));
    }

    /** deleteAllExpenses / deleteAllIncome. */
    method DeleteAll()
      requires Valid()
      modifies this
      ensures Valid()
      ensures State() == DeleteAllRows(old(State()))
    {
      rows := [];
    }

    /** `DELETE FROM <table> WHERE sheet_name = ?` of the sheet cascade. */
    method DeleteSheet(name: string)
      requires Valid()
      modifies this
      ensures Valid()
      ensures State() == DeleteSheetRows(old(State()), name)
    {
      DeleteSheetKeepsOrder(State(), name);
      rows := Filter(rows, (x: Record) => x.sheet != name);
    }
  }

  /** The key an optional bound id selects: an undefined id binds NULL, which
      no row equals. */
  function KeyOf(id: Option<Value>): Option<int>
  {
    if id.Some? then IdOf(id.value) else None
  }
}

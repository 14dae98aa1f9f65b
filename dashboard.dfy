/** The computations of the dashboard page (pages/index.js) over the lists it
    fetched: the cash-flow totals, the report's date-range filter and
    per-category grouping, the recent-transactions list, the category-list
    append and the client's copy of the sheet list.

    An entry is a fetched row with its `date` as the store's text and its
    `amount` already converted by `parseFloat` (a real; NaN is not modelled). */
module Dashboard {
  import opened Values
  import opened DateSerial
  import opened Db
  import opened Api

  datatype Entry = Entry(kind: Kind, date: string, description: string, category: string, amount: real)

  // ----- totals (pages/index.js:261-263) -----

  /** `items.reduce((sum, item) => sum + parseFloat(item.amount), 0)`. */
  function Total(items: seq<Entry>): real
  {
    if items == [] then 0.0 else Total(items[..|items| - 1]) + items[|items| - 1].amount
  }

  /** Amounts all of one sign give a total of that sign. */
  lemma {:induction false} TotalSign(items: seq<Entry>)
    ensures (forall i :: 0 <= i < |items| ==> items[i].amount >= 0.0) ==> Total(items) >= 0.0
    ensures (forall i :: 0 <= i < |items| ==> items[i].amount <= 0.0) ==> Total(items) <= 0.0
  {
    if items != [] {
      TotalSign(items[..|items| - 1]);
    }
  }

  lemma {:induction false} TotalAppend(a: seq<Entry>, b: seq<Entry>)
    ensures Total(a + b) == Total(a) + Total(b)
    decreases |b|
  {
    if b == [] {
      assert a + b == a;
    } else {
      var b' := b[..|b| - 1];
      assert (a + b)[..|a + b| - 1] == a + b';
      TotalAppend(a, b');
    }
  }

  /** The total does not depend on the order of the entries. */
  lemma {:induction false} TotalPermutation(a: seq<Entry>, b: seq<Entry>)
    requires multiset(a) == multiset(b)
    ensures Total(a) == Total(b)
    decreases |a|
  {
    if a != [] {
      var x := a[|a| - 1];
      assert x in multiset(b);
      var i :| 0 <= i < |b| && b[i] == x;
      var b' := b[..i] + b[i + 1..];
      assert b == b[..i] + [x] + b[i + 1..];
      assert a == a[..|a| - 1] + [x];
      assert multiset(a) == multiset(a[..|a| - 1]) + multiset{x};
      assert multiset(b) == multiset(b[..i]) + multiset{x} + multiset(b[i + 1..]);
      assert multiset(b') == multiset(b[..i]) + multiset(b[i + 1..]);
      assert multiset(a[..|a| - 1]) == multiset(a) - multiset{x};
      assert multiset(b') == multiset(b) - multiset{x};
      TotalPermutation(a[..|a| - 1], b');
      TotalAppend(b[..i] + [x], b[i + 1..]);
      TotalAppend(b[..i], [x]);
      TotalAppend(b[..i], b[i + 1..]);
      assert Total([x]) == x.amount by {
        assert [x][..0] == [];
      }
    }
  }

  /** `cashFlow = totalIncome - totalExpenses`. */
  function CashFlow(income: seq<Entry>, expenses: seq<Entry>): (r: real)
    ensures income == [] && expenses == [] ==> r == 0.0
  {
    Total(income) - Total(expenses)
  }

  /** One more income entry raises the cash flow by its amount, one more expense
      lowers it by its amount. */
  lemma CashFlowStep(income: seq<Entry>, expenses: seq<Entry>, e: Entry)
    ensures CashFlow(income + [e], expenses) == CashFlow(income, expenses) + e.amount
    ensures CashFlow(income, expenses + [e]) == CashFlow(income, expenses) - e.amount
  {
    assert (income + [e])[..|income|] == income;
    assert (expenses + [e])[..|expenses|] == expenses;
  }

  // ----- the report (pages/index.js:1312-1321) -----

  /** Kept unless a bound is set and the date lies outside it, by string order. */
  predicate InRange(e: Entry, from: string, to: string)
  {
    (from == "" || !LexLess(e.date, from)) && (to == "" || !LexLess(to, e.date))
  }

  function ReportRows(items: seq<Entry>, from: string, to: string): (r: seq<Entry>)
    ensures forall e :: e in r <==> e in items && InRange(e, from, to)
  {
    Filter(items, (e: Entry) => InRange(e, from, to))
  }

  /** With no bounds the report shows every entry, in order. */
  lemma ReportUnbounded(items: seq<Entry>)
    ensures ReportRows(items, "", "") == items
  {
    FilterAll(items, (e: Entry) => InRange(e, "", ""));
  }

  /** On dates the page formats itself, the string comparison is the calendar
      order: an entry is kept iff its day is neither before `from` nor after `to`. */
  lemma ReportChronological(e: Entry, d: Date, f: Date, t: Date)
    requires Representable(d) && Representable(f) && Representable(t)
    requires e.date == Format(d)
    ensures InRange(e, Format(f), Format(t)) <==> !Before(d, f) && !Before(t, d)
  {
    FormatOrder(d, f);
    FormatOrder(t, d);
    FormatParse(f);
    FormatParse(t);
  }

  /** `Array.from(new Set(items.map(e => e.category)))`. */
  function Categories(items: seq<Entry>): (r: seq<string>)
    ensures Distinct(r)
    ensures forall c :: c in r <==> exists e :: e in items && e.category == c
  {
    if items == [] then []
    else
      var prefix := items[..|items| - 1];
      var last := items[|items| - 1];
      var d := Categories(prefix);
      assert forall e :: e in items <==> e in prefix || e == last by {
        assert items == prefix + [last];
      }
      if last.category in d then d
      else
        assert Distinct(d + [last.category]) by {
          forall i, j | 0 <= i < j < |d| + 1 ensures (d + [last.category])[i] != (d + [last.category])[j] {
            if j == |d| {
              assert (d + [last.category])[i] in d;
            }
          }
        }
        d + [last.category]
  }

  /** The index of the first entry with category `c`, or the length when none has it. */
  function FirstIndex(items: seq<Entry>, c: string): (i: nat)
    ensures i <= |items|
    ensures i < |items| ==> items[i].category == c
    ensures forall j :: 0 <= j < i ==> items[j].category != c
  {
    if items == [] then 0
    else if items[0].category == c then 0
    else 1 + FirstIndex(items[1..], c)
  }

  /** Every name of `r` occurs in `items`, and the names are in order of their
      first occurrence. */
  ghost predicate FirstOrdered(items: seq<Entry>, r: seq<string>)
  {
    && (forall i :: 0 <= i < |r| ==> FirstIndex(items, r[i]) < |items|)
    && (forall i, j :: 0 <= i < j < |r| ==> FirstIndex(items, r[i]) < FirstIndex(items, r[j]))
  }

  /** The categories come in order of their first occurrence. */
  lemma {:induction false} CategoriesFirstOccurrence(items: seq<Entry>)
    ensures FirstOrdered(items, Categories(items))
  {
    if items != [] {
      var prefix := items[..|items| - 1];
      assert items == prefix + [items[|items| - 1]];
      CategoriesFirstOccurrence(prefix);
      FirstOccurrenceStep(prefix, items[|items| - 1]);
    }
  }

  lemma FirstOccurrenceStep(prefix: seq<Entry>, last: Entry)
    requires FirstOrdered(prefix, Categories(prefix))
    ensures FirstOrdered(prefix + [last], Categories(prefix + [last]))
  {
    var items := prefix + [last];
    assert items[..|items| - 1] == prefix;
    var d := Categories(prefix);
    forall c | c in d ensures FirstIndex(items, c) == FirstIndex(prefix, c) {
      FirstIndexPrefix(prefix, last, c);
    }
    if last.category !in d {
      assert Categories(items) == d + [last.category];
      forall k | 0 <= k < |prefix| ensures prefix[k].category != last.category {
        assert prefix[k] in prefix;
      }
      forall i | 0 <= i < |d| ensures FirstIndex(items, d[i]) == FirstIndex(prefix, d[i]) {
        assert d[i] in d;
      }
      FirstOccurrenceNew(prefix, last, d);
    } else {
      assert Categories(items) == d;
      forall i | 0 <= i < |d| ensures FirstIndex(items, d[i]) == FirstIndex(prefix, d[i]) {
        assert d[i] in d;
      }
    }
  }

  /** A category not seen before is first met at the new entry, after the
      first occurrences of all the others. */
  lemma FirstOccurrenceNew(prefix: seq<Entry>, last: Entry, d: seq<string>)
    requires FirstOrdered(prefix, d)
    requires forall k :: 0 <= k < |prefix| ==> prefix[k].category != last.category
    requires forall i :: 0 <= i < |d| ==> FirstIndex(prefix + [last], d[i]) == FirstIndex(prefix, d[i])
    ensures FirstOrdered(prefix + [last], d + [last.category])
  {
    var items := prefix + [last];
    var r := d + [last.category];
    FirstIndexNew(prefix, last);
    forall i | 0 <= i < |r| ensures FirstIndex(items, r[i]) < |items| {
      if i < |d| {
        assert r[i] == d[i];
      }
    }
    forall i, j | 0 <= i < j < |r| ensures FirstIndex(items, r[i]) < FirstIndex(items, r[j]) {
      assert r[i] == d[i];
      if j < |d| {
        assert r[j] == d[j];
      }
    }
  }

  /** A category absent from `prefix` is first met at `last`. */
  lemma FirstIndexNew(prefix: seq<Entry>, last: Entry)
    requires forall k :: 0 <= k < |prefix| ==> prefix[k].category != last.category
    ensures FirstIndex(prefix + [last], last.category) == |prefix|
  {
    var items := prefix + [last];
    forall k | 0 <= k < |prefix| ensures items[k].category != last.category {
      assert items[k] == prefix[k];
    }
    assert items[|prefix|] == last;
  }

  lemma FirstIndexPresent(items: seq<Entry>, c: string)
    requires exists e :: e in items && e.category == c
    ensures FirstIndex(items, c) < |items|
  {
    var e :| e in items && e.category == c;
    var k :| 0 <= k < |items| && items[k] == e;
    assert k >= FirstIndex(items, c);
  }

  lemma FirstIndexPrefix(prefix: seq<Entry>, last: Entry, c: string)
    requires exists e :: e in prefix && e.category == c
    ensures FirstIndex(prefix + [last], c) == FirstIndex(prefix, c)
  {
    var items := prefix + [last];
    FirstIndexPresent(prefix, c);
    var i := FirstIndex(prefix, c);
    assert items[i] == prefix[i];
    assert forall j :: 0 <= j < i ==> items[j] == prefix[j];
  }

  /** The sum for one category: `filteredData.filter(e => e.category === cat).reduce(...)`. */
  function CategoryTotal(items: seq<Entry>, c: string): real
  {
    Total(Filter(items, (e: Entry) => e.category == c))
  }

  /** `categories.map(cat => ...)`: the sum of each category, in category order. */
  function Amounts(cats: seq<string>, items: seq<Entry>): (r: seq<real>)
    ensures |r| == |cats|
    ensures forall i :: 0 <= i < |cats| ==> r[i] == CategoryTotal(items, cats[i])
  {
    if cats == [] then [] else Amounts(cats[..|cats| - 1], items) + [CategoryTotal(items, cats[|cats| - 1])]
  }

  function Sum(xs: seq<real>): real
  {
    if xs == [] then 0.0 else Sum(xs[..|xs| - 1]) + xs[|xs| - 1]
  }

  lemma CategoryTotalStep(p: seq<Entry>, e: Entry, c: string)
    ensures CategoryTotal(p + [e], c) == CategoryTotal(p, c) + (if e.category == c then e.amount else 0.0)
  {
    var f := (x: Entry) => x.category == c;
    FilterAppend(p, [e], f);
    TotalAppend(Filter(p, f), Filter([e], f));
    assert Filter([e], f) == if e.category == c then [e] else [] by {
      assert [e][1..] == [];
    }
    assert Total([e]) == e.amount by {
      assert [e][..0] == [];
    }
  }

  lemma CategoryTotalAbsent(p: seq<Entry>, c: string)
    requires forall e :: e in p ==> e.category != c
    ensures CategoryTotal(p, c) == 0.0
  {
    assert forall i :: 0 <= i < |p| ==> p[i] in p;
    FilterNone(p, (x: Entry) => x.category == c);
  }

  lemma {:induction false} AmountsStep(cats: seq<string>, p: seq<Entry>, e: Entry)
    requires Distinct(cats)
    ensures Sum(Amounts(cats, p + [e])) == Sum(Amounts(cats, p)) + (if e.category in cats then e.amount else 0.0)
    decreases |cats|
  {
    if cats != [] {
      var cs := cats[..|cats| - 1];
      var c := cats[|cats| - 1];
      assert cats == cs + [c];
      assert Distinct(cs);
      AmountsStep(cs, p, e);
      CategoryTotalStep(p, e, c);
      assert e.category in cats <==> e.category in cs || e.category == c;
      assert c !in cs;
    }
  }

  /** The per-category sums of the report add up to the report's total. */
  lemma {:induction false} AmountsAddUp(items: seq<Entry>)
    ensures Sum(Amounts(Categories(items), items)) == Total(items)
    decreases |items|
  {
    if items != [] {
      var p := items[..|items| - 1];
      var e := items[|items| - 1];
      assert items == p + [e];
      AmountsAddUp(p);
      AmountsLast(p, e);
    }
  }

  /** One more entry adds its amount both to the total and to the sum of the
      per-category sums. */
  lemma AmountsLast(p: seq<Entry>, e: Entry)
    requires Sum(Amounts(Categories(p), p)) == Total(p)
    ensures Sum(Amounts(Categories(p + [e]), p + [e])) == Total(p + [e])
  {
    var d := Categories(p);
    AmountsStep(d, p, e);
    assert (p + [e])[..|p|] == p;
    if e.category !in d {
      AmountsNewCategory(p, e);
    }
  }

  /** An entry of a category not seen before appends that category, whose sum
      is the entry's amount. */
  lemma AmountsNewCategory(p: seq<Entry>, e: Entry)
    requires e.category !in Categories(p)
    ensures Sum(Amounts(Categories(p + [e]), p + [e])) == Sum(Amounts(Categories(p), p + [e])) + e.amount
  {
    var d := Categories(p);
    var items := p + [e];
    assert items[..|items| - 1] == p;
    assert Categories(items) == d + [e.category];
    assert Amounts(d + [e.category], items)[..|d|] == Amounts(d, items);
    assert forall x :: x in p ==> x.category != e.category;
    CategoryTotalAbsent(p, e.category);
    CategoryTotalStep(p, e, e.category);
  }

  // ----- recent transactions (pages/index.js:1241-1243) -----

  /** Newest date first: `b.date` before `a.date` when greater. */
  ghost predicate SortedDesc(s: seq<Entry>)
  {
    forall i, j :: 0 <= i < j < |s| ==> !LexLess(s[i].date, s[j].date)
  }

  /** Insert `x` before the first entry whose date is not later (stable: it
      goes ahead of entries with the same date that came after it). */
  function InsertDesc(x: Entry, t: seq<Entry>): (r: seq<Entry>)
    ensures multiset(r) == multiset(t) + multiset{x}
    ensures |r| == |t| + 1
  {
    if t == [] || !LexLess(x.date, t[0].date) then [x] + t
    else
      assert t == [t[0]] + t[1..];
      [t[0]] + InsertDesc(x, t[1..])
  }

  /** The stable sort of `Array.prototype.sort` with the date comparator. */
  function SortDesc(s: seq<Entry>): (r: seq<Entry>)
    ensures multiset(r) == multiset(s)
    ensures |r| == |s|
  {
    if s == [] then []
    else
      assert s == [s[0]] + s[1..];
      InsertDesc(s[0], SortDesc(s[1..]))
  }

  lemma NotLessTransitive(a: string, b: string, c: string)
    requires !LexLess(a, b) && !LexLess(b, c)
    ensures !LexLess(a, c)
  {
    if LexLess(a, c) && a != b {
      LexTotal(a, b);
      LexTransitive(b, a, c);
    }
  }

  lemma {:induction false} InsertSorted(x: Entry, t: seq<Entry>)
    requires SortedDesc(t)
    ensures SortedDesc(InsertDesc(x, t))
    decreases |t|
  {
    if t == [] || !LexLess(x.date, t[0].date) {
      InsertFront(x, t);
    } else {
      SortedTail(t);
      InsertSorted(x, t[1..]);
      InsertBehind(x, t);
    }
  }

  /** An entry not earlier than the first of a sorted list may go in front. */
  lemma InsertFront(x: Entry, t: seq<Entry>)
    requires SortedDesc(t) && (t == [] || !LexLess(x.date, t[0].date))
    ensures SortedDesc([x] + t)
  {
    var r := [x] + t;
    forall i, j | 0 <= i < j < |r| ensures !LexLess(r[i].date, r[j].date) {
      if i == 0 {
        if j > 1 {
          NotLessTransitive(x.date, t[0].date, t[j - 1].date);
        }
      } else {
        assert r[i] == t[i - 1] && r[j] == t[j - 1];
      }
    }
  }

  lemma SortedTail(t: seq<Entry>)
    requires SortedDesc(t) && t != []
    ensures SortedDesc(t[1..])
  {
    forall i, j | 0 <= i < j < |t[1..]| ensures !LexLess(t[1..][i].date, t[1..][j].date) {
      assert t[1..][i] == t[i + 1] && t[1..][j] == t[j + 1];
    }
  }

  /** An entry earlier than the first goes behind it, into the sorted rest. */
  lemma InsertBehind(x: Entry, t: seq<Entry>)
    requires SortedDesc(t) && t != [] && LexLess(x.date, t[0].date)
    requires SortedDesc(InsertDesc(x, t[1..]))
    ensures SortedDesc(InsertDesc(x, t))
  {
    var rest := InsertDesc(x, t[1..]);
    var r := InsertDesc(x, t);
    assert r == [t[0]] + rest;
    forall i, j | 0 <= i < j < |r| ensures !LexLess(r[i].date, r[j].date) {
      if i == 0 {
        assert r[j] == rest[j - 1];
        FirstNotBefore(x, t, rest[j - 1]);
      } else {
        assert r[i] == rest[i - 1] && r[j] == rest[j - 1];
      }
    }
  }

  /** Every entry of the rest, `x` included, is not later than the first. */
  lemma FirstNotBefore(x: Entry, t: seq<Entry>, y: Entry)
    requires SortedDesc(t) && t != [] && LexLess(x.date, t[0].date)
    requires y in multiset(InsertDesc(x, t[1..]))
    ensures !LexLess(t[0].date, y.date)
  {
    if y == x {
      LexAsymmetric(x.date, t[0].date);
    } else {
      assert y in t[1..];
      var k :| 0 <= k < |t[1..]| && t[1..][k] == y;
      assert t[k + 1] == y;
    }
  }

  lemma {:induction false} SortSorted(s: seq<Entry>)
    ensures SortedDesc(SortDesc(s))
  {
    if s != [] {
      SortSorted(s[1..]);
      InsertSorted(s[0], SortDesc(s[1..]));
    }
  }

  /** `[...income, ...expenses].sort(...).slice(0, 10)`. */
  function Recent(income: seq<Entry>, expenses: seq<Entry>): (r: seq<Entry>)
    ensures |r| == Min(10, |income| + |expenses|)
    ensures multiset(r) <= multiset(income + expenses)
  {
    var sorted := SortDesc(income + expenses);
    assert sorted == sorted[..Min(10, |sorted|)] + sorted[Min(10, |sorted|)..];
    sorted[..Min(10, |sorted|)]
  }

  /** The recent list holds min(10, n) of the entries, newest first, and no
      entry left out is dated later than one shown. */
  lemma RecentTop(income: seq<Entry>, expenses: seq<Entry>)
    ensures var all := income + expenses;
            var top := Recent(income, expenses);
            var sorted := SortDesc(all);
            && |top| == Min(10, |all|)
            && multiset(top) <= multiset(all)
            && SortedDesc(top)
            && sorted[..|top|] == top && multiset(sorted) == multiset(all)
            && (forall i, j :: 0 <= i < |top| <= j < |sorted| ==> !LexLess(top[i].date, sorted[j].date))
  {
    var all := income + expenses;
    var sorted := SortDesc(all);
    var top := Recent(income, expenses);
    SortSorted(all);
    assert |sorted| == |all| by {
      assert |multiset(sorted)| == |multiset(all)|;
    }
    assert sorted == top + sorted[|top|..];
    assert multiset(top) <= multiset(all);
  }

  /** On dates the page formats itself, newest first means latest day first. */
  lemma RecentChronological(s: seq<Entry>, days: seq<Date>, i: int, j: int)
    requires SortedDesc(s) && |days| == |s| && 0 <= i < j < |s|
    requires forall k :: 0 <= k < |s| ==> Representable(days[k]) && s[k].date == Format(days[k])
    ensures !Before(days[i], days[j])
  {
    FormatOrder(days[i], days[j]);
  }

  // ----- category lists (pages/index.js:341-360) -----

  const ExpenseCategories: seq<string> := ["grocery", "internet", "misc", "transport", "petrol", "rent"]
  const IncomeCategories: seq<string> := ["rent received", "interest", "annuity"]

  /** The category list, the form's category, whether the input is shown and the
      pending new category. */
  datatype CategoryState = CategoryState(categories: seq<string>, formCategory: string, showInput: bool, pending: string)

  /** handleAddExpenseCategory / handleAddIncomeCategory. */
  function AddCategory(st: CategoryState): (r: CategoryState)
    ensures forall c :: c in r.categories <==> c in st.categories || (c == st.pending && st.pending != "")
    ensures |st.categories| <= |r.categories| <= |st.categories| + 1
    ensures r.categories[..|st.categories|] == st.categories
    ensures r.formCategory == if st.pending != "" && st.pending !in st.categories then st.pending else st.formCategory
    ensures r.pending == "" && !r.showInput
  {
    if st.pending != "" && st.pending !in st.categories then
      CategoryState(st.categories + [st.pending], st.pending, false, "")
    else
      st.(showInput := false, pending := "")
  }

  /** Adding keeps the list duplicate-free, and a second add (the pending input
      now empty) changes no list. */
  lemma AddCategoryDistinct(st: CategoryState)
    requires Distinct(st.categories)
    ensures Distinct(AddCategory(st).categories)
    ensures AddCategory(AddCategory(st)).categories == AddCategory(st).categories
  {
    var r := AddCategory(st).categories;
    if st.pending != "" && st.pending !in st.categories {
      forall i, j | 0 <= i < j < |r| ensures r[i] != r[j] {
        if j == |st.categories| {
          assert r[i] in st.categories;
        }
      }
    }
  }

  lemma DefaultCategoriesDistinct()
    ensures Distinct(ExpenseCategories) && Distinct(IncomeCategories)
  {
  }

  // ----- the client's sheet list (pages/index.js:389-393, 409-413) -----

  datatype SheetView = SheetView(sheets: seq<string>, current: string)

  const InitialView: SheetView := SheetView([DefaultSheet], DefaultSheet)

  /** fetchSheets: on success the list becomes the server's names. */
  function FetchSheets(v: SheetView, resp: Response): (r: SheetView)
    ensures resp.success && resp.payload.NameData? ==> r.sheets == resp.payload.names
    ensures r.current == v.current
    ensures !resp.success ==> r == v
  {
    if resp.success && resp.payload.NameData? then v.(sheets := resp.payload.names) else v
  }

  /** handleCreateNewSheet after the server's reply to `POST { name }`. */
  function CreateSheet(v: SheetView, name: string, resp: Response): (r: SheetView)
    ensures resp.success ==> r.sheets == v.sheets + [name] && r.current == name
    ensures !resp.success ==> r == v
  {
    if resp.success then SheetView(v.sheets + [name], name) else v
  }

  /** handleDeleteSheet after the server's reply to `DELETE ?name=`. */
  function DeleteSheet(v: SheetView, name: string, resp: Response): (r: SheetView)
    ensures resp.success ==> name !in r.sheets && (r.current == if v.current == name then DefaultSheet else v.current)
    ensures resp.success ==> forall x :: x != name ==> multiset(r.sheets)[x] == multiset(v.sheets)[x]
    ensures resp.success ==> Subsequence(r.sheets, v.sheets)
    ensures !resp.success ==> r == v
  {
    if resp.success then SheetView(Without(v.sheets, name), if v.current == name then DefaultSheet else v.current) else v
  }

  // ----- the delete request's query (pages/index.js:405) -----

  /** A character `?name=${sheetToDelete}` carries through unchanged: no
      parameter or fragment delimiter, no `+` or `%` (which the server
      decodes), no tab or line break (which the URL parser drops). */
  predicate QueryPlain(c: char)
  {
    c != '&' && c != '#' && c != '+' && c != '%' && c != '\t' && c != '\n' && c != '\r'
  }

  /** A name the server reads back exactly as the page interpolated it: plain
      characters only, and no trailing blank or control character (the URL
      parser trims those from the end of the URL). */
  predicate QuerySafe(name: string)
  {
    (forall i :: 0 <= i < |name| ==> QueryPlain(name[i])) && (name == [] || name[|name| - 1] > ' ')
  }

  /** The `name` the server reads from the URL `?name=` + `sent`: the text up to
      the first `&` (where the next parameter begins) or `#` (the fragment,
      which is never sent), each `+` read as a blank. */
  function ReceivedName(sent: string): (r: string)
    ensures |r| <= |sent|
    ensures forall i :: 0 <= i < |r| ==> r[i] != '&' && r[i] != '#' && r[i] != '+'
    ensures (forall i :: 0 <= i < |sent| ==> QueryPlain(sent[i])) ==> r == sent
  {
    if sent == [] || sent[0] == '&' || sent[0] == '#' then []
    else [if sent[0] == '+' then ' ' else sent[0]] + ReceivedName(sent[1..])
  }

  /** The delete as the page sends it: when the name survives the unencoded
      query, the client list follows the server registry. */
  lemma DeleteAsSentMirrors(v: SheetView, st: DbState, name: string, fault: Fault)
    requires v.sheets == st.sheets && QuerySafe(name)
    ensures var (t, resp) := Sheets(st, DELETE, ReceivedName(name), fault);
            DeleteSheet(v, name, resp).sheets == t.sheets
  {
    assert ReceivedName(name) == name;
    ViewMirrorsRegistry(v, st, name, fault);
  }

  /** The page sends the name unencoded: deleting `R&D` makes the server delete
      `R` (and keep `R&D`), while the page drops `R&D` and keeps `R`. */
  lemma DeleteAmpersandDiverges()
    ensures var st := DbState(EmptyTable, EmptyTable, ["default", "R", "R&D"]);
            var (t, resp) := Sheets(st, DELETE, ReceivedName("R&D"), NoFault);
            && ReceivedName("R&D") == "R"
            && resp.success
            && t.sheets == ["default", "R&D"]
            && DeleteSheet(SheetView(st.sheets, "default"), "R&D", resp).sheets == ["default", "R"]
  {
    assert "R&D"[1..] == "&D";
    assert ReceivedName("R&D") == "R";
    var names: seq<string> := ["default", "R", "R&D"];
    assert names[1..] == ["R", "R&D"] && names[1..][1..] == ["R&D"] && names[1..][1..][1..] == [];
    assert Without(names, "R") == ["default", "R&D"];
    assert Without(names, "R&D") == ["default", "R"];
  }

  /** A client list that mirrors the server registry still mirrors it after a
      create or a delete, whatever the server answered, when the server
      receives the name the page meant to delete (as it would with
      `encodeURIComponent`). */
  lemma ViewMirrorsRegistry(v: SheetView, st: DbState, name: string, fault: Fault)
    requires v.sheets == st.sheets
    ensures CreateSheet(v, name, Sheets(st, POST, name, fault).1).sheets == Sheets(st, POST, name, fault).0.sheets
    ensures DeleteSheet(v, name, Sheets(st, DELETE, name, fault).1).sheets == Sheets(st, DELETE, name, fault).0.sheets
    ensures FetchSheets(v, Sheets(st, GET, name, fault).1).sheets == st.sheets
  {
  }

  /** After a delete the server accepted, the current sheet is not the deleted
      one (the server refuses `default`, the sheet the client falls back to). */
  lemma DeletedIsNotCurrent(v: SheetView, st: DbState, name: string, fault: Fault)
    requires Sheets(st, DELETE, name, fault).1.success
    ensures DeleteSheet(v, name, Sheets(st, DELETE, name, fault).1).current != name
  {
  }
}

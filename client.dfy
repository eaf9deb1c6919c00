/**
 * The browser client's computations over the list it fetched from
 * `GET /api/expenses`: the dashboard totals, the recent transactions, the
 * filtered table, the per-category chart and breakdown, and the body it
 * posts to create a record.
 */
module Client {
  import opened Wrappers
  import opened Sequences
  import opened PyText
  import opened Ledger
  import opened Server
  import opened Dates

  // ---------------------------------------------------------------------
  // Dashboard

  /** The three figures at the top of the dashboard. */
  datatype Dashboard = Dashboard(income: real, expenses: real, balance: real)

  /** `updateDashboard`: income and expense totals, and their difference. */
  function UpdateDashboard(all: seq<Record>): (d: Dashboard)
    ensures d.balance == d.income - d.expenses
    ensures all == [] ==> d == Dashboard(0.0, 0.0, 0.0)
  {
    var income := Total(OfKind(all, Income));
    var expenses := Total(OfKind(all, Expense));
    Dashboard(income, expenses, income - expenses)
  }

  /** Only records of the matching type move a dashboard figure. */
  lemma DashboardSnoc(all: seq<Record>, r: Record)
    ensures UpdateDashboard(all + [r]).income
         == UpdateDashboard(all).income + (if r.kind == Income then r.amount else 0.0)
    ensures UpdateDashboard(all + [r]).expenses
         == UpdateDashboard(all).expenses + (if r.kind == Expense then r.amount else 0.0)
  {
    KindTotalSnoc(all, r, Income);
    KindTotalSnoc(all, r, Expense);
  }

  // ---------------------------------------------------------------------
  // Recent transactions

  /** `allExpenses.slice(-5).reverse()`. */
  function RecentTransactions(all: seq<Record>): (recent: seq<Record>)
    ensures |recent| == if |all| < 5 then |all| else 5
    ensures forall i :: 0 <= i < |recent| ==> recent[i] == all[|all| - 1 - i]
  {
    var start := if |all| < 5 then 0 else |all| - 5;
    Reverse(all[start..])
  }

  /** What the recent-transactions panel shows. */
  datatype RecentView = NoTransactions | Recent(items: seq<Record>)

  /** `displayTransactions`: a placeholder exactly when there is nothing to show. */
  function DisplayTransactions(all: seq<Record>): (v: RecentView)
    ensures v.NoTransactions? <==> all == []
    ensures v.Recent? ==> 0 < |v.items| <= 5 && v.items == RecentTransactions(all)
  {
    var recent := RecentTransactions(all);
    if |recent| == 0 then NoTransactions else Recent(recent)
  }

  /** Of a list in increasing order, the panel shows its tail, last first, so in decreasing order. */
  lemma RecentDescending(list: seq<Record>, before: (Record, Record) -> bool)
    requires forall i, j :: 0 <= i < j < |list| ==> before(list[i], list[j])
    ensures var recent := RecentTransactions(list);
      forall i, j :: 0 <= i < j < |recent| ==> before(recent[j], recent[i])
  {
    var recent := RecentTransactions(list);
    var n := |list|;
    forall i, j | 0 <= i < j < |recent| ensures before(recent[j], recent[i]) {
      assert recent[j] == list[n - 1 - j] && recent[i] == list[n - 1 - i];
    }
  }

  /** ... and whatever it leaves out comes before everything it shows. */
  lemma RecentAfterRest(list: seq<Record>, before: (Record, Record) -> bool)
    requires forall i, j :: 0 <= i < j < |list| ==> before(list[i], list[j])
    ensures var recent := RecentTransactions(list);
      forall r, k :: r in list && r !in recent && 0 <= k < |recent| ==> before(r, recent[k])
  {
    var recent := RecentTransactions(list);
    var n := |list|;
    forall q | n - |recent| <= q < n ensures list[q] in recent {
      assert recent[n - 1 - q] == list[q];
    }
    forall r, k | r in list && r !in recent && 0 <= k < |recent| ensures before(r, recent[k]) {
      var p :| 0 <= p < n && list[p] == r;
      assert recent[k] == list[n - 1 - k];
    }
  }

  /**
   * Over the list the server returns, the panel shows the latest rows in
   * `(date, id)` order, latest first, and every row it leaves out comes
   * before every row it shows.
   */
  lemma RecentAreLatest(rows: seq<Record>)
    requires UniqueIds(rows)
    ensures var recent := RecentTransactions(Listing(rows));
      && (forall i, j :: 0 <= i < j < |recent| ==> ListedBefore(recent[j], recent[i]))
      && (forall r, k :: r in rows && r !in recent && 0 <= k < |recent| ==> ListedBefore(r, recent[k]))
  {
    var list := Listing(rows);
    ListingOrder(rows);
    RecentDescending(list, ListedBefore);
    RecentAfterRest(list, ListedBefore);
    forall r | r in rows ensures r in list {
      assert r in multiset(rows);
    }
  }

  // ---------------------------------------------------------------------
  // The filtered table

  /** The category and type filters; an empty filter matches every record. */
  predicate Matches(r: Record, category: string, kind: string)
  {
    (category == "" || r.category == category) && (kind == "" || r.kind == kind)
  }

  /** `new Date(b.date) - new Date(a.date)` does not put `a` after `b`: `a` is no older. */
  predicate NewerOrSame(a: Record, b: Record)
  {
    !LexLess(a.date, b.date)
  }

  lemma NewerOrSameIsTotalPreorder()
    ensures TotalPreorder(NewerOrSame)
  {
    forall a: Record, b: Record ensures NewerOrSame(a, b) || NewerOrSame(b, a) {
      LexLessAsymmetric(a.date, b.date);
    }
    forall a: Record, b: Record, c: Record | NewerOrSame(a, b) && NewerOrSame(b, c)
      ensures NewerOrSame(a, c)
    {
      LexLessTotal(a.date, b.date);
      LexLessTotal(b.date, c.date);
      LexLessTransitive(c.date, b.date, a.date);
      LexLessAsymmetric(a.date, c.date);
    }
  }

  /**
   * `filterExpensesList`: every record the filters match, as often as it
   * occurs, newest date first.
   */
  function FilterExpensesList(all: seq<Record>, category: string, kind: string): (shown: seq<Record>)
    ensures forall x :: multiset(shown)[x] == if Matches(x, category, kind) then multiset(all)[x] else 0
    ensures forall i, j :: 0 <= i < j < |shown| ==> !LexLess(shown[i].date, shown[j].date)
  {
    var keep := (r: Record) => Matches(r, category, kind);
    FilterMultiset(all, keep);
    NewerOrSameIsTotalPreorder();
    SortBySorted(Filter(all, keep), NewerOrSame);
    SortBy(Filter(all, keep), NewerOrSame)
  }

  /** A record is listed exactly when it is in the list and both filters match it. */
  lemma FilteredMembers(all: seq<Record>, category: string, kind: string, x: Record)
    ensures x in FilterExpensesList(all, category, kind) <==> x in all && Matches(x, category, kind)
  {
    var shown := FilterExpensesList(all, category, kind);
    assert x in shown <==> x in multiset(shown);
    assert x in all <==> x in multiset(all);
  }

  /** Newest first by text is newest first by the calendar when every date is `YYYY-MM-DD`. */
  lemma NewestFirstByCalendar(s: seq<Record>)
    requires forall r :: r in s ==> IsoDate(r.date)
    requires forall i, j :: 0 <= i < j < |s| ==> !LexLess(s[i].date, s[j].date)
    ensures forall i, j :: 0 <= i < j < |s| ==>
      IsoDate(s[i].date) && IsoDate(s[j].date) && !CalendarBefore(s[i].date, s[j].date)
  {
    forall i, j | 0 <= i < j < |s|
      ensures IsoDate(s[i].date) && IsoDate(s[j].date) && !CalendarBefore(s[i].date, s[j].date)
    {
      assert s[i] in s && s[j] in s;
      IsoDateOrder(s[i].date, s[j].date);
    }
  }

  /**
   * For `YYYY-MM-DD` dates, the table is newest first by the calendar,
   * which is the order the comparator's `Date` values give.
   */
  lemma FilteredNewestFirst(all: seq<Record>, category: string, kind: string)
    requires forall r :: r in all ==> IsoDate(r.date)
    ensures var shown := FilterExpensesList(all, category, kind);
      forall i, j :: 0 <= i < j < |shown| ==>
        IsoDate(shown[i].date) && IsoDate(shown[j].date) && !CalendarBefore(shown[i].date, shown[j].date)
  {
    var shown := FilterExpensesList(all, category, kind);
    forall x | x in shown ensures IsoDate(x.date) {
      FilteredMembers(all, category, kind, x);
    }
    NewestFirstByCalendar(shown);
  }

  /** With both filters empty the table holds the whole list, reordered. */
  lemma NoFilterShowsAll(all: seq<Record>)
    ensures multiset(FilterExpensesList(all, "", "")) == multiset(all)
  {
    var shown := FilterExpensesList(all, "", "");
    assert forall x :: multiset(shown)[x] == multiset(all)[x];
  }

  // ---------------------------------------------------------------------
  // Per-category totals

  lemma CategoriesEmpty(s: seq<Record>)
    ensures Categories(s) == {} <==> s == []
  {
    if s != [] {
      assert s[0].category in Categories(s);
    }
  }

  /**
   * The `categoryData` loop: each record adds its amount under its
   * category, starting from 0. `labels` are the object's keys, each once.
   * A missing key reads as 0, which is what `categoryData[k] || 0` gives
   * for every name that `Object.prototype` does not define.
   */
  method GroupByCategory(expenses: seq<Record>) returns (labels: seq<string>, totals: map<string, real>)
    ensures totals == GroupTotals(expenses)
    ensures Distinct(labels) && forall c :: c in labels <==> c in totals
  {
    labels, totals := [], map[];
    for i := 0 to |expenses|
      invariant totals == GroupTotals(expenses[..i])
      invariant Distinct(labels) && forall c :: c in labels <==> c in totals
    {
      var e := expenses[i];
      GroupTotalsPrefix(expenses, i);
      if e.category !in totals {
        labels := labels + [e.category];
      }
      totals := totals[e.category := Lookup(totals, e.category) + e.amount];
    }
    assert expenses[..|expenses|] == expenses;
  }

  /** The chart and the breakdown both group the expense records only. */
  method CollectCategoryData(all: seq<Record>) returns (labels: seq<string>, totals: map<string, real>)
    ensures totals == GroupTotals(OfKind(all, Expense))
    ensures Distinct(labels) && forall c :: c in labels <==> c in totals
  {
    labels, totals := GroupByCategory(Filter(all, (e: Record) => e.kind == Expense));
  }

  /** The grouped totals are keyed by the categories present, each holding its records' total. */
  lemma GroupTotalsMeaning(s: seq<Record>)
    ensures GroupTotals(s).Keys == Categories(s)
    ensures forall c :: c in GroupTotals(s) ==> GroupTotals(s)[c] == Total(InCategory(s, c))
  {
    GroupTotalsKeys(s);
    forall c | c in GroupTotals(s) ensures GroupTotals(s)[c] == Total(InCategory(s, c)) {
      LookupGroupTotals(s, c);
    }
  }

  /** `Object.values`: the totals in the order of their keys. */
  function Values(keys: seq<string>, m: map<string, real>): (vs: seq<real>)
    ensures |vs| == |keys|
    ensures forall i :: 0 <= i < |keys| ==> vs[i] == Lookup(m, keys[i])
  {
    if keys == [] then [] else Values(keys[..|keys| - 1], m) + [Lookup(m, keys[|keys| - 1])]
  }

  function AsIs(x: real): real
  {
    x
  }

  /** Adding up the values is adding up the entries' totals. */
  lemma {:induction false} ValuesSum(keys: seq<string>, m: map<string, real>)
    ensures Sum(Values(keys, m), AsIs) == Sum(EntriesOf(keys, m), TotalOf)
  {
    if keys != [] {
      var ks := keys[..|keys| - 1];
      var k := keys[|keys| - 1];
      ValuesSum(ks, m);
      assert Values(keys, m) == Values(ks, m) + [Lookup(m, k)];
      assert EntriesOf(keys, m) == EntriesOf(ks, m) + [Entry(k, Lookup(m, k))];
      SumAppend(Values(ks, m), [Lookup(m, k)], AsIs);
      SumAppend(EntriesOf(ks, m), [Entry(k, Lookup(m, k))], TotalOf);
    }
  }

  /** The category totals add up to the expense total. */
  lemma CategoryDataSum(all: seq<Record>, labels: seq<string>)
    requires Distinct(labels) && forall c :: c in labels <==> c in GroupTotals(OfKind(all, Expense))
    ensures Sum(Values(labels, GroupTotals(OfKind(all, Expense))), AsIs) == Total(OfKind(all, Expense))
  {
    var expenses := OfKind(all, Expense);
    assert (set k | k in labels) == GroupTotals(expenses).Keys;
    ValuesSum(labels, GroupTotals(expenses));
    GroupTotalsPartition(expenses, labels);
  }

  /** One slice per expense category, each sized by that category's expense total. */
  ghost predicate SlicesByCategory(all: seq<Record>, labels: seq<string>, data: seq<real>)
  {
    && Distinct(labels)
    && (forall c :: c in labels <==> c in Categories(OfKind(all, Expense)))
    && |data| == |labels|
    && forall i :: 0 <= i < |labels| ==> data[i] == Total(InCategory(OfKind(all, Expense), labels[i]))
  }

  /** The keys of the grouped expenses, with their values, are the slices. */
  lemma CategorySlices(all: seq<Record>, labels: seq<string>)
    requires Distinct(labels) && forall c :: c in labels <==> c in GroupTotals(OfKind(all, Expense))
    ensures SlicesByCategory(all, labels, Values(labels, GroupTotals(OfKind(all, Expense))))
  {
    var expenses := OfKind(all, Expense);
    GroupTotalsKeys(expenses);
    forall i | 0 <= i < |labels|
      ensures Values(labels, GroupTotals(expenses))[i] == Total(InCategory(expenses, labels[i]))
    {
      LookupGroupTotals(expenses, labels[i]);
    }
  }

  // ---------------------------------------------------------------------
  // The category chart

  /** The chart's fixed palette. */
  const Palette: seq<string> := ["#3b82f6", "#10b981", "#f59e0b", "#ef4444", "#8b5cf6", "#ec4899"]

  /** The doughnut's labels, slice sizes and slice colours. */
  datatype ChartData = ChartData(labels: seq<string>, data: seq<real>, colors: seq<string>)

  /**
   * `updateCategoryChart`: one slice per expense category, sized by its
   * total; the slices add up to the expense total, and colours run out
   * after the sixth.
   */
  method UpdateCategoryChart(all: seq<Record>) returns (chart: ChartData)
    ensures SlicesByCategory(all, chart.labels, chart.data)
    ensures Sum(chart.data, AsIs) == Total(OfKind(all, Expense))
    ensures |chart.colors| == (if |chart.labels| < 6 then |chart.labels| else 6)
    ensures forall i :: 0 <= i < |chart.colors| ==> chart.colors[i] == Palette[i]
  {
    var labels, totals := CollectCategoryData(all);
    CategorySlices(all, labels);
    CategoryDataSum(all, labels);
    var data := Values(labels, totals);
    var count := if |labels| < 6 then |labels| else 6;
    chart := ChartData(labels, data, Palette[..count]);
  }

  // ---------------------------------------------------------------------
  // The category breakdown

  /** What the breakdown panel shows. */
  datatype Breakdown = NoExpenseData | Breakdown(entries: seq<Entry>, total: real)

  /** `(a, b) => b[1] - a[1]` does not put `a` after `b`: `a`'s total is no smaller. */
  predicate LargerOrSame(a: Entry, b: Entry)
  {
    a.total >= b.total
  }

  lemma LargerOrSameIsTotalPreorder()
    ensures TotalPreorder(LargerOrSame)
  {
  }

  function CategoryOf(e: Entry): string
  {
    e.category
  }

  /** Entries built from distinct keys have distinct categories. */
  lemma EntriesDistinct(keys: seq<string>, m: map<string, real>)
    requires Distinct(keys)
    ensures DistinctBy(EntriesOf(keys, m), CategoryOf)
  {
    var es := EntriesOf(keys, m);
    forall i, j | 0 <= i < j < |es| ensures CategoryOf(es[i]) != CategoryOf(es[j]) {
      assert es[i].category == keys[i] && es[j].category == keys[j];
    }
  }

  /** An entry is built from the map exactly when its key is listed and its total is the key's value. */
  lemma EntriesMembers(keys: seq<string>, m: map<string, real>, e: Entry)
    ensures e in EntriesOf(keys, m) <==> e.category in keys && e.total == Lookup(m, e.category)
  {
    var es := EntriesOf(keys, m);
    if e.category in keys && e.total == Lookup(m, e.category) {
      var i :| 0 <= i < |keys| && keys[i] == e.category;
      assert es[i] == e;
    }
  }

  /** Sorting keeps exactly the entries of the map's listed keys. */
  lemma SortedEntriesMembers(keys: seq<string>, m: map<string, real>)
    ensures var entries := SortBy(EntriesOf(keys, m), LargerOrSame);
      forall e :: e in entries <==> e.category in keys && e.total == Lookup(m, e.category)
  {
    var unsorted := EntriesOf(keys, m);
    var entries := SortBy(unsorted, LargerOrSame);
    forall e ensures e in entries <==> e.category in keys && e.total == Lookup(m, e.category) {
      assert e in entries <==> e in multiset(entries);
      assert e in unsorted <==> e in multiset(unsorted);
      EntriesMembers(keys, m, e);
    }
  }

  /** With distinct keys, the sorted entries name each category once, largest total first. */
  lemma SortedEntriesOrder(keys: seq<string>, m: map<string, real>)
    requires Distinct(keys)
    ensures var entries := SortBy(EntriesOf(keys, m), LargerOrSame);
      forall i, j :: 0 <= i < j < |entries| ==>
        entries[i].category != entries[j].category && entries[i].total >= entries[j].total
  {
    var unsorted := EntriesOf(keys, m);
    var entries := SortBy(unsorted, LargerOrSame);
    LargerOrSameIsTotalPreorder();
    SortBySorted(unsorted, LargerOrSame);
    EntriesDistinct(keys, m);
    DistinctBySubMultiset(unsorted, entries, CategoryOf);
    forall i, j | 0 <= i < j < |entries| ensures entries[i].category != entries[j].category {
      assert CategoryOf(entries[i]) != CategoryOf(entries[j]);
    }
  }

  /**
   * `updateCategoryBreakdown`: "no data" exactly when no record is an
   * expense; otherwise one entry per expense category with its total,
   * largest first, and the grand total is the expense total.
   */
  method UpdateCategoryBreakdown(all: seq<Record>) returns (view: Breakdown)
    ensures view.NoExpenseData? <==> OfKind(all, Expense) == []
    ensures view.Breakdown? ==> view.total == Total(OfKind(all, Expense))
    ensures view.Breakdown? ==> forall e :: e in view.entries <==>
      e.category in Categories(OfKind(all, Expense)) && e.total == Total(InCategory(OfKind(all, Expense), e.category))
    ensures view.Breakdown? ==> forall i, j :: 0 <= i < j < |view.entries| ==>
      view.entries[i].category != view.entries[j].category && view.entries[i].total >= view.entries[j].total
  {
    var labels, totals := CollectCategoryData(all);
    GroupTotalsMeaning(OfKind(all, Expense));
    CategoriesEmpty(OfKind(all, Expense));
    if |labels| == 0 {
      assert totals.Keys == {};
      return NoExpenseData;
    }
    assert labels[0] in totals;
    var total := Sum(Values(labels, totals), AsIs);
    CategoryDataSum(all, labels);
    SortedEntriesMembers(labels, totals);
    SortedEntriesOrder(labels, totals);
    view := Breakdown(SortBy(EntriesOf(labels, totals), LargerOrSame), total);
  }

  // ---------------------------------------------------------------------
  // Creating a record

  /**
   * The body `handleAddExpense` posts. `amount` is what `parseFloat` made
   * of the amount field, `None` for `NaN`, which `JSON.stringify` sends as
   * `null`.
   */
  function ClientPayload(description: string, amount: Option<real>, category: string, date: string, kind: string): Payload
  {
    map[
      "description" := JStr(description),
      "amount" := if amount.Some? then JNum(amount.value) else JNull,
      "category" := JStr(category),
      "date" := JStr(date),
      "type" := JStr(kind)
    ]
  }

  /** The posted body has the five keys, holding the form's values. */
  lemma PayloadFields(description: string, amount: Option<real>, category: string, date: string, kind: string)
    ensures var p := ClientPayload(description, amount, category, date, kind);
      && WellTyped(Some(p)) && p != map[]
      && GetOr(p, "description", JStr("")) == JStr(description)
      && GetOr(p, "amount", JNull) == (if amount.Some? then JNum(amount.value) else JNull)
      && GetOr(p, "category", JStr("Other")) == JStr(category)
      && GetOr(p, "date", JNull) == JStr(date)
      && GetOr(p, "type", JStr(Expense)) == JStr(kind)
  {
    var p := ClientPayload(description, amount, category, date, kind);
    assert "description" in p;
  }

  /** A blank description, or an amount that is not a number, is refused as missing. */
  lemma SubmittedRefused(description: string, amount: Option<real>, category: string, date: string, kind: string)
    requires Strip(description) == [] || amount.None?
    ensures var p := ClientPayload(description, amount, category, date, kind);
      WellTyped(Some(p)) && Validate(Some(p)) == Failure(MissingFields)
  {
    PayloadFields(description, amount, category, date, kind);
  }

  /**
   * Anything else, an empty date included, is stored with the description
   * trimmed and every other field as typed.
   */
  lemma SubmittedStored(description: string, amount: Option<real>, category: string, date: string, kind: string)
    requires Strip(description) != [] && amount.Some?
    ensures var p := ClientPayload(description, amount, category, date, kind);
      WellTyped(Some(p)) && Validate(Some(p)) == Success(Draft(Strip(description), amount.value, category, date, kind))
  {
    PayloadFields(description, amount, category, date, kind);
  }

  // ---------------------------------------------------------------------
  // Client and server agree

  /**
   * Computed from the list the server returns, the dashboard and the
   * per-category totals are the server's own statistics.
   */
  lemma ClientAgreesWithServer(rows: seq<Record>)
    ensures var st := StatisticsOf(rows);
      && UpdateDashboard(Listing(rows)) == Dashboard(st.income, st.expenses, st.balance)
      && GroupTotals(OfKind(Listing(rows), Expense)) == st.byCategory
  {
    StatisticsPermutation(Listing(rows), rows);
  }
}

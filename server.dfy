/**
 * The Flask back end: the JSON body of a create request, its validation,
 * the `expenses` table with its create, list and delete operations, and
 * the statistics query.
 */
module Server {
  import opened Wrappers
  import opened Sequences
  import opened PyText
  import opened Ledger

  // ---------------------------------------------------------------------
  // Request bodies

  /** A JSON scalar as Python's `json` module decodes it. */
  datatype Json = JNull | JBool(b: bool) | JNum(n: real) | JStr(s: string)

  /** A decoded JSON object. */
  type Payload = map<string, Json>

  /**
   * The bodies this model covers. `None` stands for a body that is
   * missing, does not parse, or decodes to a false value. A description
   * that is not a string makes `.strip()` raise. A category, type or date
   * that is a number or a boolean is bound and stored by SQLite as it is;
   * the model covers string values only. A `null` category or type
   * violates the NOT NULL constraint.
   */
  predicate WellTyped(body: Option<Payload>)
  {
    body.Some? ==>
      var data := body.value;
      && ("description" in data ==> data["description"].JStr?)
      && ("category" in data ==> data["category"].JStr?)
      && ("type" in data ==> data["type"].JStr?)
      && ("date" in data ==> data["date"].JStr? || data["date"].JNull?)
  }

  /** `data.get(key, default)`. */
  function GetOr(data: Payload, key: string, default: Json): Json
  {
    if key in data then data[key] else default
  }

  /** `data.get(key) is not None`: the key is there with a non-null value. */
  predicate Present(data: Payload, key: string)
  {
    key in data && !data[key].JNull?
  }

  /** Python's `float(x)` on a decoded JSON scalar; `None` where it raises `ValueError`. */
  function ToFloat(j: Json): Option<real>
  {
    match j
    case JNull => None
    case JBool(b) => Some(if b then 1.0 else 0.0)
    case JNum(n) => Some(n)
    case JStr(s) => ParseFloat(s)
  }

  /** The three ways a create request is refused. */
  datatype CreateError = InvalidJson | MissingFields | InvalidAmount

  function Message(e: CreateError): string
  {
    match e
    case InvalidJson => "Invalid JSON"
    case MissingFields => "Missing required fields"
    case InvalidAmount => "Invalid amount"
  }

  /** The three refusals are told apart by the `error` text of the reply. */
  lemma MessageDistinct(a: CreateError, b: CreateError)
    ensures Message(a) == Message(b) <==> a == b
  {
    if a != b {
      assert |Message(a)| != |Message(b)|;
    }
  }

  /** The column values of a record about to be inserted. */
  datatype Draft = Draft(description: string, amount: real, category: string, date: string, kind: string)

  /** The stored description: the given one with surrounding whitespace removed. */
  function DescriptionOf(data: Payload): string
    requires WellTyped(Some(data))
  {
    Strip(GetOr(data, "description", JStr("")).s)
  }

  /** The checks of a create request, in the order the handler makes them. */
  function Validate(body: Option<Payload>): (r: Result<Draft, CreateError>)
    requires WellTyped(body)
    ensures r == Failure(InvalidJson) <==> body.None? || body.value == map[]
    ensures r.Success? ==>
      var data := body.value;
      && r.value.description != [] && Trimmed(r.value.description)
      && r.value.description == DescriptionOf(data)
      && "amount" in data && ToFloat(data["amount"]) == Some(r.value.amount)
      && "date" in data && data["date"] == JStr(r.value.date)
      && r.value.category == (if "category" in data then data["category"].s else "Other")
      && r.value.kind == (if "type" in data then data["type"].s else Expense)
  {
    if body.None? || body.value == map[] then Failure(InvalidJson)
    else
      var data := body.value;
      var description := DescriptionOf(data);
      var amount := GetOr(data, "amount", JNull);
      var category := GetOr(data, "category", JStr("Other")).s;
      var date := GetOr(data, "date", JNull);
      var kind := GetOr(data, "type", JStr(Expense)).s;
      if description == [] || amount.JNull? || date.JNull? then Failure(MissingFields)
      else
        match ToFloat(amount)
        case None => Failure(InvalidAmount)
        case Some(x) => Success(Draft(description, x, category, date.s, kind))
  }

  /**
   * "Missing required fields" is the answer exactly when a non-empty body
   * has a description that is absent or all whitespace, or lacks a
   * non-null amount or date.
   */
  lemma ValidateMissingFields(data: Payload)
    requires WellTyped(Some(data)) && data != map[]
    ensures Validate(Some(data)) == Failure(MissingFields)
        <==> AllSpace(GetOr(data, "description", JStr("")).s) || !Present(data, "amount") || !Present(data, "date")
  {
    StripEmptyIffAllSpace(GetOr(data, "description", JStr("")).s);
  }

  /**
   * "Invalid amount" is the answer exactly when every required field is
   * there but `float()` rejects the amount; nothing else about the amount
   * is checked.
   */
  lemma ValidateInvalidAmount(data: Payload)
    requires WellTyped(Some(data)) && data != map[]
    ensures Validate(Some(data)) == Failure(InvalidAmount)
        <==> && !AllSpace(GetOr(data, "description", JStr("")).s)
             && Present(data, "amount") && Present(data, "date")
             && ToFloat(data["amount"]) == None
  {
    StripEmptyIffAllSpace(GetOr(data, "description", JStr("")).s);
  }

  /**
   * Whatever value `float()` makes of the amount is stored: zero and
   * negative amounts pass, since no sign check exists.
   */
  lemma AmountAccepted(data: Payload, x: real)
    requires WellTyped(Some(data)) && !AllSpace(GetOr(data, "description", JStr("")).s) && Present(data, "date")
    requires "amount" in data && ToFloat(data["amount"]) == Some(x)
    ensures Validate(Some(data)).Success?
    ensures Validate(Some(data)).value.amount == x
  {
    StripEmptyIffAllSpace(GetOr(data, "description", JStr("")).s);
  }

  // ---------------------------------------------------------------------
  // Ids

  function MaxId(rows: seq<Record>): (m: int)
    requires rows != []
    ensures forall r :: r in rows ==> r.id <= m
    ensures exists r :: r in rows && r.id == m
  {
    if |rows| == 1 then rows[0].id
    else
      var rest := MaxId(rows[..|rows| - 1]);
      var last := rows[|rows| - 1];
      assert rows == rows[..|rows| - 1] + [last];
      if last.id > rest then last.id else rest
  }

  /**
   * The id SQLite gives a new row of a table whose key is a plain
   * `INTEGER PRIMARY KEY`: one more than the largest id in use, 1 when the
   * table is empty. It is larger than every id in use.
   */
  function NextRowId(rows: seq<Record>): (id: int)
    ensures forall r :: r in rows ==> r.id < id
    ensures (forall r :: r in rows ==> r.id >= 1) ==> id >= 1
  {
    if rows == [] then 1 else MaxId(rows) + 1
  }

  /** The row the insert creates and the handler reads back. */
  function Stored(d: Draft, id: int): Record
  {
    Record(id, d.description, d.amount, d.category, d.date, d.kind)
  }

  /** `DELETE FROM expenses WHERE id = ?`. */
  function WithoutId(rows: seq<Record>, id: int): (r: seq<Record>)
    ensures forall x :: x in r <==> x in rows && x.id != id
    ensures multiset(r) <= multiset(rows)
  {
    FilterMultiset(rows, (x: Record) => x.id != id);
    Filter(rows, (x: Record) => x.id != id)
  }

  predicate HasId(rows: seq<Record>, id: int)
  {
    exists r :: r in rows && r.id == id
  }

  /** Deleting by id twice is deleting once. */
  lemma DeleteIdempotent(rows: seq<Record>, id: int)
    ensures WithoutId(WithoutId(rows, id), id) == WithoutId(rows, id)
  {
    FilterIdempotent(rows, (x: Record) => x.id != id);
  }

  /** With unique ids, a delete removes one row when the id is in use and none otherwise. */
  lemma {:induction false} DeleteCount(rows: seq<Record>, id: int)
    requires UniqueIds(rows)
    ensures |WithoutId(rows, id)| == |rows| - (if HasId(rows, id) then 1 else 0)
  {
    if rows != [] {
      var head, tail := rows[0], rows[1..];
      assert rows == [head] + tail;
      assert UniqueIds(tail);
      assert WithoutId(rows, id) == (if head.id != id then [head] else []) + WithoutId(tail, id);
      if head.id == id {
        assert forall x :: x in tail ==> x.id != id;
        FilterAll(tail, (x: Record) => x.id != id);
      } else {
        DeleteCount(tail, id);
        assert HasId(rows, id) <==> HasId(tail, id);
      }
    }
  }

  /**
   * Deleting the row just added gives back the table as it was, so the
   * next insert is given the same id again: ids are not kept unique over
   * the table's history.
   */
  lemma DeleteUndoesAdd(rows: seq<Record>, d: Draft)
    ensures var rec := Stored(d, NextRowId(rows));
      && WithoutId(rows + [rec], rec.id) == rows
      && NextRowId(WithoutId(rows + [rec], rec.id)) == rec.id
  {
    var id := NextRowId(rows);
    var keep := (x: Record) => x.id != id;
    FilterAppend(rows, [Stored(d, id)], keep);
    FilterAll(rows, keep);
    assert Filter([Stored(d, id)], keep) == [];
  }

  // ---------------------------------------------------------------------
  // Statistics

  /** The reply of the statistics query; `byCategory` is keyed by category. */
  datatype Statistics = Statistics(income: real, expenses: real, balance: real, byCategory: map<string, real>)

  function StatisticsOf(rows: seq<Record>): (st: Statistics)
    ensures st.balance == st.income - st.expenses
  {
    var income := Total(OfKind(rows, Income));
    var expenses := Total(OfKind(rows, Expense));
    Statistics(income, expenses, income - expenses, GroupTotals(OfKind(rows, Expense)))
  }

  /** `by_category` has a key for exactly the categories that have an expense. */
  lemma StatisticsCategories(rows: seq<Record>)
    ensures StatisticsOf(rows).byCategory.Keys == Categories(OfKind(rows, Expense))
  {
    GroupTotalsKeys(OfKind(rows, Expense));
  }

  /** `COALESCE(SUM(amount), 0)`: a type with no rows totals 0, and no expense rows means no categories. */
  lemma StatisticsOfNone(rows: seq<Record>)
    ensures OfKind(rows, Income) == [] ==> StatisticsOf(rows).income == 0.0
    ensures OfKind(rows, Expense) == [] ==> StatisticsOf(rows).expenses == 0.0 && StatisticsOf(rows).byCategory == map[]
  {
  }

  /**
   * How one more row changes the figures: it adds its amount to its own
   * type's total only, and to its category only when it is an expense;
   * a row of any other type changes nothing.
   */
  lemma StatisticsSnoc(rows: seq<Record>, r: Record)
    ensures StatisticsOf(rows + [r]).income == StatisticsOf(rows).income + (if r.kind == Income then r.amount else 0.0)
    ensures StatisticsOf(rows + [r]).expenses == StatisticsOf(rows).expenses + (if r.kind == Expense then r.amount else 0.0)
    ensures r.kind == Expense ==>
      StatisticsOf(rows + [r]).byCategory
      == StatisticsOf(rows).byCategory[r.category := Lookup(StatisticsOf(rows).byCategory, r.category) + r.amount]
    ensures r.kind != Expense ==> StatisticsOf(rows + [r]).byCategory == StatisticsOf(rows).byCategory
  {
    KindTotalSnoc(rows, r, Income);
    KindTotalSnoc(rows, r, Expense);
    if r.kind == Expense {
      ExpenseRowSnoc(rows, r);
    } else {
      OtherRowSnoc(rows, r);
    }
  }

  lemma ExpenseRowSnoc(rows: seq<Record>, r: Record)
    requires r.kind == Expense
    ensures StatisticsOf(rows + [r]).byCategory
         == StatisticsOf(rows).byCategory[r.category := Lookup(StatisticsOf(rows).byCategory, r.category) + r.amount]
  {
    KindGroupsSnoc(rows, r, Expense);
  }

  lemma OtherRowSnoc(rows: seq<Record>, r: Record)
    requires r.kind != Expense
    ensures StatisticsOf(rows + [r]).byCategory == StatisticsOf(rows).byCategory
  {
    KindGroupsSnocOther(rows, r, Expense);
  }

  /** The figures do not depend on the order of the rows. */
  lemma StatisticsPermutation(a: seq<Record>, b: seq<Record>)
    requires multiset(a) == multiset(b)
    ensures StatisticsOf(a) == StatisticsOf(b)
  {
    OfKindPermutation(a, b, Income);
    OfKindPermutation(a, b, Expense);
    TotalPermutation(OfKind(a, Income), OfKind(b, Income));
    TotalPermutation(OfKind(a, Expense), OfKind(b, Expense));
    GroupTotalsPermutation(OfKind(a, Expense), OfKind(b, Expense));
  }

  /** The category totals, taken in any order, add up to the expense total. */
  lemma ByCategoryPartition(rows: seq<Record>, keys: seq<string>)
    requires Distinct(keys) && (set k | k in keys) == StatisticsOf(rows).byCategory.Keys
    ensures Sum(EntriesOf(keys, StatisticsOf(rows).byCategory), TotalOf) == StatisticsOf(rows).expenses
  {
    GroupTotalsPartition(OfKind(rows, Expense), keys);
  }

  // ---------------------------------------------------------------------
  // The listing

  /** `SELECT * FROM expenses ORDER BY date ASC, id ASC`. */
  function Listing(rows: seq<Record>): (list: seq<Record>)
    ensures multiset(list) == multiset(rows)
    ensures SortedBy(list, DateIdLe)
  {
    DateIdLeIsTotalPreorder();
    SortBySorted(rows, DateIdLe);
    SortBy(rows, DateIdLe)
  }

  /** With unique ids, the listing holds each row once, in strictly increasing `(date, id)` order. */
  lemma ListingOrder(rows: seq<Record>)
    requires UniqueIds(rows)
    ensures forall r :: multiset(Listing(rows))[r] == if r in rows then 1 else 0
    ensures forall i, j :: 0 <= i < j < |Listing(rows)| ==> ListedBefore(Listing(rows)[i], Listing(rows)[j])
  {
    var list := Listing(rows);
    DistinctBySubMultiset(rows, list, IdOf);
    forall r ensures multiset(list)[r] == if r in rows then 1 else 0 {
      DistinctByNoRepeat(rows, IdOf, r);
      assert r in rows <==> r in multiset(rows);
    }
    forall i, j | 0 <= i < j < |list| ensures ListedBefore(list[i], list[j]) {
      assert IdOf(list[i]) != IdOf(list[j]);
    }
  }

  // ---------------------------------------------------------------------
  // The table

  /** The `expenses` table, in the order its rows were inserted. */
  class ExpenseTable {
    var rows: seq<Record>

    /** Ids are unique and positive, as SQLite's rowids are. */
    ghost predicate Valid()
      reads this
    {
      UniqueIds(rows) && forall r :: r in rows ==> r.id >= 1
    }

    constructor ()
      ensures Valid() && rows == []
    {
      rows := [];
    }

    /** `GET /api/expenses`. */
    method GetExpenses() returns (list: seq<Record>)
      requires Valid()
      ensures forall r :: multiset(list)[r] == if r in rows then 1 else 0
      ensures forall i, j :: 0 <= i < j < |list| ==> ListedBefore(list[i], list[j])
      ensures list == Listing(rows)
    {
      list := Listing(rows);
      ListingOrder(rows);
    }

    /**
     * `POST /api/expenses`: a refused request leaves the table as it was;
     * an accepted one appends one row with a fresh id and returns it.
     */
    method AddExpense(body: Option<Payload>) returns (result: Result<Record, CreateError>)
      requires Valid() && WellTyped(body)
      modifies this
      ensures Valid()
      ensures result.Failure? <==> Validate(body).Failure?
      ensures result.Failure? ==> result.error == Validate(body).error && rows == old(rows)
      ensures result.Success? ==>
        && result.value == Stored(Validate(body).value, NextRowId(old(rows)))
        && rows == old(rows) + [result.value]
        && forall r :: r in old(rows) ==> r.id != result.value.id
    {
      var v := Validate(body);
      if v.Failure? {
        return Failure(v.error);
      }
      var rec := Stored(v.value, NextRowId(rows));
      forall i | 0 <= i < |rows| ensures IdOf(rows[i]) != IdOf(rec) {
        assert rows[i] in rows;
      }
      rows := rows + [rec];
      result := Success(rec);
    }

    /** `DELETE /api/expenses/<id>`: answers with the id whether or not a row had it. */
    method DeleteExpense(id: nat) returns (deleted: nat)
      requires Valid()
      modifies this
      ensures Valid() && deleted == id
      ensures rows == WithoutId(old(rows), id)
    {
      DistinctBySubMultiset(rows, WithoutId(rows, id), IdOf);
      rows := WithoutId(rows, id);
      deleted := id;
    }

    /** `DELETE /api/expenses`. */
    method DeleteAllExpenses() returns (deletedAll: bool)
      modifies this
      ensures Valid() && rows == [] && deletedAll
    {
      rows := [];
      deletedAll := true;
    }

    /** `GET /api/statistics`. */
    method GetStatistics() returns (st: Statistics)
      ensures st == StatisticsOf(rows)
      ensures st.balance == st.income - st.expenses
    {
      st := StatisticsOf(rows);
    }
  }
}

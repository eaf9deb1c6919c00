/**
 * The expense ledger's data model, shared by the server and the browser
 * client: the stored record, the `(date, id)` order the listing uses, and
 * the aggregates both sides compute (sum of amounts per type, and the
 * per-category breakdown of expenses).
 */
module Ledger {
  import opened Sequences

  /** One row of the `expenses` table, as the listing returns it. */
  datatype Record = Record(
    id: int,
    description: string,
    amount: real,
    category: string,
    date: string,
    kind: string)

  const Income: string := "income"
  const Expense: string := "expense"

  // ---------------------------------------------------------------------
  // Text order: SQLite's default BINARY collation compares the UTF-8 bytes,
  // which orders strings like this comparison of code points.

  predicate LexLess(a: string, b: string)
  {
    if a == [] then b != []
    else if b == [] then false
    else if a[0] != b[0] then a[0] < b[0]
    else LexLess(a[1..], b[1..])
  }

  lemma {:induction false} LexLessIrreflexive(a: string)
    ensures !LexLess(a, a)
  {
    if a != [] {
      LexLessIrreflexive(a[1..]);
    }
  }

  lemma {:induction false} LexLessTransitive(a: string, b: string, c: string)
    ensures LexLess(a, b) && LexLess(b, c) ==> LexLess(a, c)
  {
    if a != [] && b != [] && c != [] && a[0] == b[0] == c[0] {
      LexLessTransitive(a[1..], b[1..], c[1..]);
    }
  }

  lemma {:induction false} LexLessTotal(a: string, b: string)
    ensures a == b || LexLess(a, b) || LexLess(b, a)
  {
    if a != [] && b != [] && a[0] == b[0] {
      LexLessTotal(a[1..], b[1..]);
      if a[1..] == b[1..] {
        assert a == [a[0]] + a[1..] && b == [b[0]] + b[1..];
      }
    }
  }

  lemma {:induction false} LexLessAsymmetric(a: string, b: string)
    ensures LexLess(a, b) ==> !LexLess(b, a)
  {
    if a != [] && b != [] && a[0] == b[0] {
      LexLessAsymmetric(a[1..], b[1..]);
    }
  }

  /** `ORDER BY date ASC, id ASC`: `a` may be listed before `b`. */
  predicate DateIdLe(a: Record, b: Record)
  {
    LexLess(a.date, b.date) || (a.date == b.date && a.id <= b.id)
  }

  /** The strict form of `DateIdLe`, listed before: an earlier date, or the same date and a smaller id. */
  predicate ListedBefore(a: Record, b: Record)
  {
    LexLess(a.date, b.date) || (a.date == b.date && a.id < b.id)
  }

  lemma DateIdLeIsTotalPreorder()
    ensures TotalPreorder(DateIdLe)
  {
    forall a: Record, b: Record ensures DateIdLe(a, b) || DateIdLe(b, a) {
      LexLessTotal(a.date, b.date);
    }
    forall a: Record, b: Record, c: Record | DateIdLe(a, b) && DateIdLe(b, c)
      ensures DateIdLe(a, c)
    {
      LexLessTransitive(a.date, b.date, c.date);
    }
  }

  function IdOf(r: Record): int
  {
    r.id
  }

  /** The ids of the records are pairwise different. */
  ghost predicate UniqueIds(s: seq<Record>)
  {
    DistinctBy(s, IdOf)
  }

  // ---------------------------------------------------------------------
  // Sums and groups

  function AmountOf(r: Record): real
  {
    r.amount
  }

  /** `SUM(amount)` with `COALESCE(..., 0)`, or `reduce((sum, e) => sum + e.amount, 0)`. */
  function Total(s: seq<Record>): real
  {
    Sum(s, AmountOf)
  }

  /** The records whose `type` equals `kind`. */
  function OfKind(s: seq<Record>, kind: string): seq<Record>
  {
    Filter(s, (r: Record) => r.kind == kind)
  }

  /** The records whose `category` equals `c`. */
  function InCategory(s: seq<Record>, c: string): seq<Record>
  {
    Filter(s, (r: Record) => r.category == c)
  }

  function Categories(s: seq<Record>): set<string>
  {
    set r | r in s :: r.category
  }

  /**
   * Per-category totals, accumulated one record at a time: each record
   * adds its amount under its own category, starting from 0 when the
   * category is new. `GroupTotalsKeys` and `LookupGroupTotals` show this
   * is `SELECT category, SUM(amount) ... GROUP BY category`.
   */
  function GroupTotals(s: seq<Record>): map<string, real>
  {
    if s == [] then map[]
    else
      var m := GroupTotals(s[..|s| - 1]);
      var r := s[|s| - 1];
      m[r.category := Lookup(m, r.category) + r.amount]
  }

  /** `m[k] || 0`: the total under a key, 0 for a missing key. */
  function Lookup(m: map<string, real>, k: string): real
  {
    if k in m then m[k] else 0.0
  }

  /** One line of a per-category breakdown. */
  datatype Entry = Entry(category: string, total: real)

  function TotalOf(e: Entry): real
  {
    e.total
  }

  /** The entries of `m` listed in the order of `keys`. */
  function EntriesOf(keys: seq<string>, m: map<string, real>): (es: seq<Entry>)
    ensures |es| == |keys|
    ensures forall i :: 0 <= i < |keys| ==> es[i] == Entry(keys[i], Lookup(m, keys[i]))
  {
    if keys == [] then []
    else EntriesOf(keys[..|keys| - 1], m) + [Entry(keys[|keys| - 1], Lookup(m, keys[|keys| - 1]))]
  }

  lemma TotalSnoc(s: seq<Record>, r: Record)
    ensures Total(s + [r]) == Total(s) + r.amount
  {
    assert (s + [r])[..|s|] == s;
  }

  lemma TotalPermutation(a: seq<Record>, b: seq<Record>)
    requires multiset(a) == multiset(b)
    ensures Total(a) == Total(b)
  {
    SumPermutation(a, b, AmountOf);
  }

  lemma OfKindPermutation(a: seq<Record>, b: seq<Record>, kind: string)
    requires multiset(a) == multiset(b)
    ensures multiset(OfKind(a, kind)) == multiset(OfKind(b, kind))
  {
    FilterMultiset(a, (r: Record) => r.kind == kind);
    FilterMultiset(b, (r: Record) => r.kind == kind);
    assert forall x :: multiset(OfKind(a, kind))[x] == multiset(OfKind(b, kind))[x];
  }

  lemma InCategorySnoc(s: seq<Record>, r: Record, c: string)
    ensures InCategory(s + [r], c) == InCategory(s, c) + (if r.category == c then [r] else [])
  {
    var keep := (x: Record) => x.category == c;
    FilterAppend(s, [r], keep);
    assert Filter([r], keep) == (if keep(r) then [r] else []) + Filter([], keep);
  }

  lemma OfKindSnoc(s: seq<Record>, r: Record, kind: string)
    ensures OfKind(s + [r], kind) == OfKind(s, kind) + (if r.kind == kind then [r] else [])
  {
    var keep := (x: Record) => x.kind == kind;
    FilterAppend(s, [r], keep);
    assert Filter([r], keep) == (if keep(r) then [r] else []) + Filter([], keep);
  }

  lemma OfKindSnocSame(s: seq<Record>, r: Record, kind: string)
    requires r.kind == kind
    ensures OfKind(s + [r], kind) == OfKind(s, kind) + [r]
  {
    OfKindSnoc(s, r, kind);
  }

  lemma OfKindSnocOther(s: seq<Record>, r: Record, kind: string)
    requires r.kind != kind
    ensures OfKind(s + [r], kind) == OfKind(s, kind)
  {
    OfKindSnoc(s, r, kind);
    assert OfKind(s, kind) + [] == OfKind(s, kind);
  }

  /** Adding one record adds its amount to the total of its own type and to no other. */
  lemma KindTotalSnoc(s: seq<Record>, r: Record, kind: string)
    ensures Total(OfKind(s + [r], kind))
         == Total(OfKind(s, kind)) + (if r.kind == kind then r.amount else 0.0)
  {
    var g, g' := OfKind(s, kind), OfKind(s + [r], kind);
    OfKindSnoc(s, r, kind);
    if r.kind == kind {
      assert g' == g + [r];
      TotalSnoc(g, r);
    } else {
      assert g' == g + [];
      assert g' == g;
    }
  }

  /** The group of a category that has no record is empty. */
  lemma InCategoryAbsent(s: seq<Record>, c: string)
    requires c !in Categories(s)
    ensures InCategory(s, c) == []
  {
    FilterNone(s, (x: Record) => x.category == c);
  }

  /** Adding one record adds its amount to the total of its own category and to no other. */
  lemma CategoryTotalSnoc(s: seq<Record>, r: Record, c: string)
    ensures Total(InCategory(s + [r], c))
         == Total(InCategory(s, c)) + (if r.category == c then r.amount else 0.0)
  {
    var g, g' := InCategory(s, c), InCategory(s + [r], c);
    InCategorySnoc(s, r, c);
    if r.category == c {
      assert g' == g + [r];
      TotalSnoc(g, r);
    } else {
      assert g' == g + [];
      assert g' == g;
    }
  }

  lemma CategoriesSnoc(s: seq<Record>, r: Record)
    ensures Categories(s + [r]) == Categories(s) + {r.category}
  {
    forall x ensures x in s + [r] <==> x in s || x == r {
    }
  }

  /** Adding one record to the grouped input adds its amount to its own category only. */
  lemma GroupTotalsSnoc(s: seq<Record>, r: Record)
    ensures GroupTotals(s + [r])
         == GroupTotals(s)[r.category := Lookup(GroupTotals(s), r.category) + r.amount]
  {
    assert (s + [r])[..|s|] == s;
  }

  /** The same step, on a prefix of a sequence grown by one element. */
  lemma GroupTotalsPrefix(s: seq<Record>, i: nat)
    requires i < |s|
    ensures GroupTotals(s[..i + 1])
         == GroupTotals(s[..i])[s[i].category := Lookup(GroupTotals(s[..i]), s[i].category) + s[i].amount]
  {
    assert s[..i + 1][..i] == s[..i];
  }

  /** One key per distinct category that occurs. */
  lemma {:induction false} GroupTotalsKeys(s: seq<Record>)
    ensures GroupTotals(s).Keys == Categories(s)
  {
    if s != [] {
      var s', r := s[..|s| - 1], s[|s| - 1];
      assert s == s' + [r];
      GroupTotalsKeys(s');
      CategoriesSnoc(s', r);
    }
  }

  /** Each category maps to the sum of the amounts of its records; a category with none reads as 0. */
  lemma {:induction false} LookupGroupTotals(s: seq<Record>, c: string)
    ensures Lookup(GroupTotals(s), c) == Total(InCategory(s, c))
  {
    if s != [] {
      var s', r := s[..|s| - 1], s[|s| - 1];
      assert s == s' + [r];
      LookupGroupTotals(s', c);
      CategoryTotalSnoc(s', r, c);
    }
  }

  /** A record of type `kind` added to the input adds its amount to its category among the `kind` groups. */
  lemma KindGroupsSnoc(s: seq<Record>, r: Record, kind: string)
    requires r.kind == kind
    ensures GroupTotals(OfKind(s + [r], kind))
         == GroupTotals(OfKind(s, kind))[r.category := Lookup(GroupTotals(OfKind(s, kind)), r.category) + r.amount]
  {
    OfKindSnocSame(s, r, kind);
    GroupTotalsSnoc(OfKind(s, kind), r);
  }

  /** A record of another type leaves the `kind` groups as they were. */
  lemma KindGroupsSnocOther(s: seq<Record>, r: Record, kind: string)
    requires r.kind != kind
    ensures GroupTotals(OfKind(s + [r], kind)) == GroupTotals(OfKind(s, kind))
  {
    OfKindSnocOther(s, r, kind);
  }

  lemma CategoriesPermutation(a: seq<Record>, b: seq<Record>)
    requires multiset(a) == multiset(b)
    ensures Categories(a) == Categories(b)
  {
    forall x ensures x in a <==> x in b {
      assert x in a <==> x in multiset(a);
      assert x in b <==> x in multiset(b);
    }
  }

  lemma CategoryTotalPermutation(a: seq<Record>, b: seq<Record>, c: string)
    requires multiset(a) == multiset(b)
    ensures Lookup(GroupTotals(a), c) == Lookup(GroupTotals(b), c)
  {
    var keep := (r: Record) => r.category == c;
    FilterMultiset(a, keep);
    FilterMultiset(b, keep);
    assert multiset(InCategory(a, c)) == multiset(InCategory(b, c)) by {
      assert forall x :: multiset(InCategory(a, c))[x] == multiset(InCategory(b, c))[x];
    }
    TotalPermutation(InCategory(a, c), InCategory(b, c));
    LookupGroupTotals(a, c);
    LookupGroupTotals(b, c);
  }

  /** The grouping does not depend on the order of the records. */
  lemma GroupTotalsPermutation(a: seq<Record>, b: seq<Record>)
    requires multiset(a) == multiset(b)
    ensures GroupTotals(a) == GroupTotals(b)
  {
    var ga, gb := GroupTotals(a), GroupTotals(b);
    assert ga.Keys == gb.Keys by {
      CategoriesPermutation(a, b);
      GroupTotalsKeys(a);
      GroupTotalsKeys(b);
    }
    forall c | c in ga ensures ga[c] == gb[c] {
      CategoryTotalPermutation(a, b, c);
    }
  }

  // ---------------------------------------------------------------------
  // The groups partition the total

  /** The sum of the group totals of `keys`, in the order of `keys`. */
  function GroupSum(keys: seq<string>, s: seq<Record>): real
  {
    if keys == [] then 0.0
    else GroupSum(keys[..|keys| - 1], s) + Total(InCategory(s, keys[|keys| - 1]))
  }

  lemma {:induction false} EntriesSum(keys: seq<string>, s: seq<Record>)
    ensures Sum(EntriesOf(keys, GroupTotals(s)), TotalOf) == GroupSum(keys, s)
  {
    if keys != [] {
      var ks := keys[..|keys| - 1];
      var es := EntriesOf(keys, GroupTotals(s));
      assert es[..|es| - 1] == EntriesOf(ks, GroupTotals(s));
      EntriesSum(ks, s);
      LookupGroupTotals(s, keys[|keys| - 1]);
    }
  }

  lemma {:induction false} GroupSumEmpty(keys: seq<string>)
    ensures GroupSum(keys, []) == 0.0
  {
    if keys != [] {
      GroupSumEmpty(keys[..|keys| - 1]);
      InCategoryAbsent([], keys[|keys| - 1]);
    }
  }

  lemma {:induction false} GroupSumSnoc(keys: seq<string>, s: seq<Record>, r: Record)
    requires Distinct(keys)
    ensures GroupSum(keys, s + [r]) == GroupSum(keys, s) + (if r.category in keys then r.amount else 0.0)
  {
    if keys != [] {
      var ks, k := keys[..|keys| - 1], keys[|keys| - 1];
      assert keys == ks + [k];
      assert Distinct(ks);
      GroupSumSnoc(ks, s, r);
      CategoryTotalSnoc(s, r, k);
      assert r.category in keys <==> r.category in ks || r.category == k;
      assert r.category == k ==> r.category !in ks;
    }
  }

  /** Over any duplicate-free list of keys that covers every category, the group totals add up to the total. */
  lemma {:induction false} GroupSumTotal(keys: seq<string>, s: seq<Record>)
    requires Distinct(keys) && Categories(s) <= set k | k in keys
    ensures GroupSum(keys, s) == Total(s)
  {
    if s == [] {
      GroupSumEmpty(keys);
    } else {
      var s', r := s[..|s| - 1], s[|s| - 1];
      assert s == s' + [r];
      assert r.category in Categories(s);
      GroupSumTotal(keys, s');
      GroupSumSnoc(keys, s', r);
      TotalSnoc(s', r);
    }
  }

  /**
   * The per-category totals partition the total: listed in any order
   * without repetition, their entries add up to the sum of all amounts.
   */
  lemma GroupTotalsPartition(s: seq<Record>, keys: seq<string>)
    requires Distinct(keys) && (set k | k in keys) == GroupTotals(s).Keys
    ensures Sum(EntriesOf(keys, GroupTotals(s)), TotalOf) == Total(s)
  {
    GroupTotalsKeys(s);
    EntriesSum(keys, s);
    GroupSumTotal(keys, s);
  }
}
